# Work schedules, organisation links and timesheet statuses

This project is a Dafny model of the core of an HR back end built on
Symfony and Doctrine. It covers three parts.

- **The work-schedule listener** (`UserWorkScheduleListener`):
  - When a `UserWorkSchedule` is inserted, it generates one
    `UserWorkScheduleDay` per day definition of the schedule's period. It
    copies the schedule's work-schedule profile into each day, attaches
    the day to the schedule, persists it and buffers it.
  - When a schedule's `status` changes, it buffers a `UserWorkScheduleLog`
    record. The record carries a Polish notice naming the old and the new
    status.
  - After each flush it re-attaches and persists the buffered days,
    empties that buffer and flushes again; then it does the same with the
    buffered log records. Each nested flush dispatches `postFlush` again,
    which finds its own buffer already empty. When both buffers were
    full, the `postFlush` triggered by the days' flush is the one that
    persists and flushes the pending log records, and the outer call
    then finds the log buffer empty too.
- **The bidirectional associations** of `User`, `Department` and
  `UserWorkSchedule`, and the department link of `Section`:
  - `Department.addUser`, `Department.addSection` and
    `UserWorkSchedule.addUserWorkScheduleDay` append once and set the
    owning side; `Department.removeUser`, `Department.removeSection` and
    `UserWorkSchedule.removeUserWorkScheduleDay` remove and clear the
    owning side only when it still points back;
  - `User.addManagedDepartment` and `User.removeManagedDepartment` update
    the user's list and, only when that list changed, add the user to or
    remove it from the department's managers, without checking any
    back-pointer;
  - `Department.addManager` and `Department.removeManager` update only the
    department's list of managers, and `User.addManagedSection` and
    `User.removeManagedSection` only the user's list of sections;
  - `User.getRoles` always holds `ROLE_USER`, once;
  - the validation callback checks that a user's section belongs to the
    user's department.
- **The timesheet-status fixture** (`UserTimesheetStatusFixtures`): the
  table of four timesheet statuses and, per role, the statuses a
  timesheet may move to. Its `load` loop creates one row per status,
  persists it, registers it as a fixture reference and flushes once.

Modules:

- `Common`: options, outcomes and the error cases.
- `Collections`: the add-once and remove-first behaviour of Doctrine's
  `ArrayCollection`, and PHP's `array_unique`.
- `Format`: PHP `sprintf` restricted to `%s` and `%%`.
- `Organization`: `User`, `Department` and `Section`.
- `Persistence`: the entity manager (the managed objects, in order, and
  the number of flushes) and the user repository lookup.
- `WorkSchedule`: `UserWorkSchedule`, `UserWorkScheduleDay` and the
  loggable fields.
- `ScheduleListener`: the listener.
- `TimesheetStatus`: the status table and the fixture.

Entities whose fields the source updates in place are classes with
`modifies` frames. The entity manager's `persist` adds an object once, as
Doctrine ignores a second persist of a managed entity. A flush issued
from inside `postFlush` is modelled as a counted flush followed by the
re-entrant `postFlush` that Doctrine dispatches. The security token is a
parameter: the username of its user, or none. The clock reading is a
parameter. The result of the day-definition repository query is a
parameter.

## Model

| member | source | states |
|---|---|---|
| Collections.AddOnce | src/Entity/UserWorkSchedule.php:297-305 | the `contains`-guarded append: the element is present afterwards, nothing else is added, an already present element leaves the list as it was, otherwise it goes at the end; a duplicate-free list stays duplicate-free |
| Collections.RemoveFirst | src/Entity/UserWorkSchedule.php:312-323 | `removeElement`: exactly one occurrence of the element is removed (multiset difference); a list without it is unchanged |
| Collections.RemoveFirstNoDup | src/Entity/Department.php:193-204 | on a duplicate-free list, removal leaves it duplicate-free, removes the element entirely and keeps every other element |
| Collections.RemoveUndoesAdd | src/Entity/Department.php:179-204 | removing an element just added to a list that lacked it gives the original list back |
| Collections.AddUndoesRemove | src/Entity/Department.php:179-204 | re-adding an element just removed from a duplicate-free list restores the same elements |
| Collections.Dedup | src/Entity/User.php:358-365 | `array_unique`: the result is duplicate-free and holds exactly the elements of its input |
| Collections.DedupOfNoDup | src/Entity/User.php:358-365 | `array_unique` leaves a duplicate-free list as it is |
| Format.LiteralPrefix | src/EventListener/UserWorkScheduleListener.php:68-72 | `sprintf` copies text without `%` unchanged: a literal prefix comes out in front of the formatted rest |
| Format.OneConversion | src/EventListener/UserWorkScheduleListener.php:68-72 | a template starting with one `%s` takes one argument and puts it in front of the literal remainder |
| Format.TwoConversions | src/EventListener/UserWorkScheduleListener.php:68-72 | a template with two `%s` takes two arguments and puts them, in order, where the conversions stand |
| Format.ConversionsAfterFirst | src/EventListener/UserWorkScheduleListener.php:68-72 | a template from its first `%s` on takes both arguments and puts them, in order, around the literal middle |
| Format.FillTwoSlots | src/Entity/UserWorkSchedule.php:140 | a message template of literal text, `%s`, literal text, `%s` takes two arguments and puts them after the two literal parts, in order |
| Format.Sprintf | src/EventListener/UserWorkScheduleListener.php:68-72 | PHP's `sprintf` for `%s` and `%%`; a template without `%` comes out unchanged |
| Organization.Section.SetDepartment | src/Entity/Department.php:214-235 | the owning side of a section's department link is set as given |
| Organization.User.GetUsername | src/Entity/User.php:340-343 | the stored username, or the empty string when none was set |
| Organization.User.constructor | src/Entity/User.php:213-217 | a new user manages no department and no section |
| Organization.User.SetUsername | src/Entity/User.php:349-353 | the username is stored and the user is returned for chaining |
| Organization.User.GetRoles | src/Entity/User.php:358-365 | the roles always contain `ROLE_USER`, contain no duplicate, and hold exactly the stored roles plus `ROLE_USER` |
| Organization.User.GetRolesOfDistinctRoles | src/Entity/User.php:358-365 | for stored roles that are distinct and lack `ROLE_USER`, the result is those roles followed by `ROLE_USER` |
| Organization.User.SetRoles | src/Entity/User.php:371-375 | the roles are stored as given |
| Organization.User.SetDepartment | src/Entity/User.php:547-551 | the user's department is set as given, null included |
| Organization.User.SetSection | src/Entity/User.php:529-533 | the user's section is set as given, null included |
| Organization.User.AddManagedDepartment | src/Entity/User.php:424-432 | the department is added once; only when it was new does the user join its managers, added once; the two-way link is kept |
| Organization.User.RemoveManagedDepartment | src/Entity/User.php:438-446 | the department is removed; only when it was there is the user removed from its managers; on duplicate-free lists the link is gone on both sides |
| Organization.User.AddManagedSection | src/Entity/User.php:460-468 | the section is added once to the managed sections |
| Organization.User.RemoveManagedSection | src/Entity/User.php:474-482 | the section is removed from the managed sections |
| Organization.User.CheckSameSectionAsDepartment | src/Entity/User.php:507-515 | a violation exactly when the user has both a section and a department and the department's sections do not include that section |
| Organization.Department.SetName | src/Entity/Department.php:125-129 | the name is stored |
| Organization.Department.SetShortName | src/Entity/Department.php:143-147 | the short name is stored |
| Organization.Department.SetActive | src/Entity/Department.php:161-165 | the active flag is stored |
| Organization.Department.constructor | src/Entity/Department.php:98-103 | a new department has no users, sections or managers |
| Organization.Department.AddUser | src/Entity/Department.php:179-189 | the user is added once; a new user's department becomes this one and a present user's is untouched; every listed user still points back |
| Organization.Department.RemoveUser | src/Entity/Department.php:193-204 | the user is removed; the user's department is cleared only when it pointed here; on a duplicate-free linked list the user is gone and the rest stay linked |
| Organization.Department.AddSection | src/Entity/Department.php:214-222 | the section is added once, its department set only when it was new; every listed section still points back |
| Organization.Department.RemoveSection | src/Entity/Department.php:224-235 | the section is removed; its department is cleared only when it pointed here; on a duplicate-free linked list the section is gone and the rest stay linked |
| Organization.Department.AddManager | src/Entity/Department.php:245-252 | the manager is added once; nothing on the user side changes |
| Organization.Department.RemoveManager | src/Entity/Department.php:254-261 | the manager is removed; nothing on the user side changes |
| Persistence.EntityManager.Persist | src/EventListener/UserWorkScheduleListener.php:183-184 | `persist` makes the object managed, once |
| Persistence.EntityManager.Flush | src/EventListener/UserWorkScheduleListener.php:204-205 | `flush` is counted |
| Persistence.PersistAll | src/EventListener/UserWorkScheduleListener.php:199-213 | persisting a sequence keeps everything managed before it in place at the front |
| Persistence.PersistAllContents | src/EventListener/UserWorkScheduleListener.php:199-213 | after persisting a sequence every element is managed, nothing else is added, and no object is managed twice |
| Persistence.PersistAllAppend | src/EventListener/UserWorkScheduleListener.php:194-218 | persisting the days and then the logs is persisting the two sequences joined |
| Persistence.AlreadyManaged | src/EventListener/UserWorkScheduleListener.php:197-201 | persisting entities that are all managed already leaves the store as it was |
| Persistence.PersistAllNew | src/EventListener/UserWorkScheduleListener.php:194-218 | distinct objects that are not managed yet are appended in order |
| Persistence.FindOneByUsername | src/EventListener/UserWorkScheduleListener.php:98-110 | `findOneBy(['username' => …])`: a user row with that username, or null exactly when no row has it |
| WorkSchedule.LoggableFieldNames | src/Entity/UserWorkSchedule.php:133-158 | exactly `status` and `workScheduleProfile` are logged |
| WorkSchedule.StatusTemplate | src/Entity/UserWorkSchedule.php:140 | the status log message takes two values and reads "Zmiana statusu z <old> na <new>" |
| WorkSchedule.ProfileTemplate | src/Entity/UserWorkSchedule.php:158 | the profile log message takes two values and reads "Zmiana profilu z <old> na <new>" |
| WorkSchedule.UserWorkScheduleDay.SetUserWorkSchedule | src/Entity/UserWorkSchedule.php:297-323 | the day's owning schedule is set as given, null included |
| WorkSchedule.UserWorkScheduleDay.FromDefinition | src/EventListener/UserWorkScheduleListener.php:174-181 | a new day copies the definition, its working-day flag and the profile's working time and start and end windows, and belongs to no schedule yet |
| WorkSchedule.UserWorkSchedule.constructor | src/Entity/UserWorkSchedule.php:171-174 | a new schedule has no days |
| WorkSchedule.UserWorkSchedule.SetFromDate | src/Entity/UserWorkSchedule.php:197-202 | the start date is stored |
| WorkSchedule.UserWorkSchedule.SetToDate | src/Entity/UserWorkSchedule.php:217-222 | the end date is stored |
| WorkSchedule.UserWorkSchedule.SetStatus | src/Entity/UserWorkSchedule.php:237-242 | the status is stored |
| WorkSchedule.UserWorkSchedule.SetOwner | src/Entity/UserWorkSchedule.php:257-262 | the owner is stored, null included |
| WorkSchedule.UserWorkSchedule.SetWorkScheduleProfile | src/Entity/UserWorkSchedule.php:277-282 | the profile is stored, null included |
| WorkSchedule.UserWorkSchedule.AddUserWorkScheduleDay | src/Entity/UserWorkSchedule.php:297-305 | the day is added once; only a new day is pointed at this schedule; every listed day still points back |
| WorkSchedule.UserWorkSchedule.RemoveUserWorkScheduleDay | src/Entity/UserWorkSchedule.php:312-323 | the day is removed; it is detached only when it pointed here; on a duplicate-free linked list the day is gone and the rest stay linked |
| ScheduleListener.StatusNotice | src/EventListener/UserWorkScheduleListener.php:68-72 | the notice reads "Zmieniono status z: <old>, na: <new>", a null value printing as the empty string |
| ScheduleListener.Display | src/EventListener/UserWorkScheduleListener.php:68-72 | `%s` of a change-set value: null prints as the empty string, an object as its string form |
| ScheduleListener.Identical | src/EventListener/UserWorkScheduleListener.php:63 | PHP's `===` on change-set values: a value is identical to itself, null is identical only to null, and two distinct objects are not identical |
| ScheduleListener.StatusChanged | src/EventListener/UserWorkScheduleListener.php:62-63 | a status change needs `status` in the change set; an unchanged value is never a change; a change from or to null, or between two distinct status objects, always is |
| ScheduleListener.UserWorkScheduleLog.constructor | src/EventListener/UserWorkScheduleListener.php:85-89 | a log record holds the schedule, the time, the acting user and the notice it was built with |
| ScheduleListener.UserWorkScheduleListener.constructor | src/EventListener/UserWorkScheduleListener.php:30-49 | the listener keeps the token and starts with both buffers empty |
| ScheduleListener.UserWorkScheduleListener.CurrentUsername | src/EventListener/UserWorkScheduleListener.php:98-110 | the token's username, or `admin` when there is no token |
| ScheduleListener.UserWorkScheduleListener.GetCurrentUser | src/EventListener/UserWorkScheduleListener.php:98-110 | the user row whose username is the current username, or null exactly when there is none |
| ScheduleListener.UserWorkScheduleListener.PreUpdate | src/EventListener/UserWorkScheduleListener.php:55-75 | only a schedule whose `status` changed (old value not identical to the new) buffers exactly one new log record: for that schedule, now, the acting user and the status notice; anything else leaves the log buffer unchanged |
| ScheduleListener.UserWorkScheduleListener.AddUserWorkScheduleLog | src/EventListener/UserWorkScheduleListener.php:83-92 | a fresh log record with the schedule, the time, the acting user and the notice is appended to the log buffer |
| ScheduleListener.UserWorkScheduleListener.PrePersist | src/EventListener/UserWorkScheduleListener.php:116-123 | the listener's state is unchanged |
| ScheduleListener.UserWorkScheduleListener.PostPersist | src/EventListener/UserWorkScheduleListener.php:130-158 | for another entity nothing changes; a schedule without a profile and with days to generate fails with nothing changed; otherwise one fresh, distinct day per definition, in order, copying the definition and the profile, pointing at the schedule, appended to the schedule, to the buffer and to the managed objects; only the schedule's day list changes on the schedule |
| ScheduleListener.UserWorkScheduleListener.AddUserScheduleDays | src/EventListener/UserWorkScheduleListener.php:168-186 | one fresh day copying the definition and the profile, attached to the schedule and managed |
| ScheduleListener.UserWorkScheduleListener.PostFlush | src/EventListener/UserWorkScheduleListener.php:194-218 | both buffers end empty; the buffered days and then the logs are persisted; one flush per non-empty buffer; every buffered day keeps its schedule and is listed in it; a schedule's duplicate-free day list stays duplicate-free |
| ScheduleListener.PostFlushStoresLogs | src/EventListener/UserWorkScheduleListener.php:184-218 | the days postPersist buffered are already managed, so persisting them again adds nothing; postFlush's store is the earlier managed objects followed by the new, distinct log records, once each and in buffer order |
| ScheduleListener.UserWorkScheduleListener.PersistBufferedDays | src/EventListener/UserWorkScheduleListener.php:199-202 | each buffered day is re-added to its own schedule and persisted, in order; a duplicate-free day list stays duplicate-free |
| ScheduleListener.UserWorkScheduleListener.ReAddDay | src/EventListener/UserWorkScheduleListener.php:200-201 | one step of that loop: the schedule's day list is its old list with the day added once, the day is persisted once, and the days before it stay listed |
| ScheduleListener.UserWorkScheduleListener.PersistBufferedLogs | src/EventListener/UserWorkScheduleListener.php:211-213 | each buffered log record is persisted, in order |
| ScheduleListener.UserWorkScheduleListener.NestedFlush | src/EventListener/UserWorkScheduleListener.php:204-205 | a flush from inside postFlush counts one flush and then drains whatever the buffers still hold, with the same guarantees as postFlush |
| TimesheetStatus.FindStatus | src/DataFixtures/UserTimesheetStatusFixtures.php:43-92 | the row of a status key, or none exactly when no row has that key |
| TimesheetStatus.FindRule | src/DataFixtures/UserTimesheetStatusFixtures.php:43-92 | a role's targets in a row's rules, or none exactly when no rule names that role |
| TimesheetStatus.AllowedTargets | src/DataFixtures/UserTimesheetStatusFixtures.php:43-92 | a role's targets exist only for a status of the table, and every target is itself a status of the table |
| TimesheetStatus.DistinctKeys | src/DataFixtures/UserTimesheetStatusFixtures.php:43-92 | no status appears twice in the table |
| TimesheetStatus.FourStatuses | src/DataFixtures/UserTimesheetStatusFixtures.php:19-92 | the table's statuses are OWNER-EDIT, OWNER-ACCEPT, MANAGER-ACCEPT and HR-ACCEPT, in that order, and a key has a row exactly when it is one of them |
| TimesheetStatus.TableClosed | src/DataFixtures/UserTimesheetStatusFixtures.php:43-92 | every target of every rule is a status of the table |
| TimesheetStatus.UserAtOwnerEdit | src/DataFixtures/UserTimesheetStatusFixtures.php:45-50 | an employee may move an edited timesheet only to OWNER-ACCEPT |
| TimesheetStatus.UserOnlyAtOwnerEdit | src/DataFixtures/UserTimesheetStatusFixtures.php:43-92 | an employee has no rule at any other status |
| TimesheetStatus.ManagerAtOwnerAccept | src/DataFixtures/UserTimesheetStatusFixtures.php:58-64 | a department manager may move an owner-accepted timesheet to OWNER-EDIT or MANAGER-ACCEPT, never to HR-ACCEPT |
| TimesheetStatus.HrEverywhere | src/DataFixtures/UserTimesheetStatusFixtures.php:43-92 | HR has a rule at every status |
| TimesheetStatus.OnlyHrAtHrAccept | src/DataFixtures/UserTimesheetStatusFixtures.php:82-91 | at HR-ACCEPT exactly HR has a rule, and it does not lead back to HR-ACCEPT |
| TimesheetStatus.UserTimesheetStatus.SetId | src/DataFixtures/UserTimesheetStatusFixtures.php:97 | the id is stored |
| TimesheetStatus.UserTimesheetStatus.SetName | src/DataFixtures/UserTimesheetStatusFixtures.php:98 | the name is stored |
| TimesheetStatus.UserTimesheetStatus.SetRules | src/DataFixtures/UserTimesheetStatusFixtures.php:99 | the rules are stored |
| TimesheetStatus.Registered | src/DataFixtures/UserTimesheetStatusFixtures.php:94-105 | after registering the rows the references hold the earlier keys and the table's keys and nothing else, and earlier keys the table does not name keep their object |
| TimesheetStatus.RegisteredSnoc | src/DataFixtures/UserTimesheetStatusFixtures.php:103 | registering one more row is the earlier references with that row's key set to it |
| TimesheetStatus.RegisteredAt | src/DataFixtures/UserTimesheetStatusFixtures.php:103 | with distinct keys, each table key refers to the row created for it |
| TimesheetStatus.LoadedRowsDistinct | src/DataFixtures/UserTimesheetStatusFixtures.php:94-105 | rows loaded from rows with distinct keys are distinct objects |
| TimesheetStatus.UserTimesheetStatusFixtures.Load | src/DataFixtures/UserTimesheetStatusFixtures.php:41-108 | four fresh, distinct rows, one per table row with its key, title and rules, appended to the managed objects in table order; each key refers to its row and other references are kept; exactly one flush |
| TimesheetStatus.UserTimesheetStatusFixtures.LoadRows | src/DataFixtures/UserTimesheetStatusFixtures.php:94-105 | the loop: one fresh row per table row, persisted in order and registered under its key |
| TimesheetStatus.UserTimesheetStatusFixtures.LoadRow | src/DataFixtures/UserTimesheetStatusFixtures.php:95-104 | one iteration: a fresh row with the key, title and rules, persisted and registered under the key |

## Left out

- `Section.php` is not part of this model. A section carries only its department link.
- Organization.User.AddManagedSection: does not model the call to the section's `addManager`, because `Section.php` is not part of this model; only the user side is updated.
- Organization.User.RemoveManagedSection: does not model the call to the section's `removeManager`, for the same reason; only the user side is updated.
- `UserWorkScheduleDay.php`, `UserWorkScheduleLog.php`, `WorkScheduleProfile.php`, `DayDefinition.php`, `UserWorkScheduleStatus.php` and `UserTimesheetStatus.php` are not part of this model. Each is modelled by the fields and setters the modelled code uses.
- The day-definition repository query is an input (`dayDefinitions`). This includes its use of the schedule's from/to dates. A null date is not modelled.
- The user repository is a fixed sequence of users.
- The security token is an input that has been resolved to a username option. The clock is an input.
- `__toString` of a status is an opaque text. The notice uses `%s`, so a null value prints as the empty string.
- `json_encode` of the rules is not modelled. The row stores the rules as a structured value.
- `array_unique` keeps the original keys, so its result can have holes. That key preservation is not modelled: the roles are a plain sequence.
- The other scalar accessors of `User` are not modelled: title, names, email, password and distinguished name.
- Identifiers and the ORM mapping are not modelled.
- The code that enforces the transition rules (which role may move a timesheet where, at run time) is not part of this model. Only the table the fixture loads is modelled.
- `HttpClientConfigurator`, `UserTimesheetFixtures`, `UserTimesheetLog`, the validator, the controllers, the migrations and the tests are not modelled.
- ScheduleListener.UserWorkScheduleListener.PostFlush: requires every buffered day to point at a schedule. The source would fail calling `addUserWorkScheduleDay` on null; that error path is not modelled.
- ScheduleListener.UserWorkScheduleListener.PostFlush: does not state that a schedule's day list is left as it was when all its buffered days are already listed. `AddUserWorkScheduleDay`'s own add-once contract states that step by step.
- ScheduleListener.UserWorkScheduleListener.PersistBufferedDays: likewise states membership, the back-reference and duplicate-freedom, not the exact new day lists. `ReAddDay` states the exact list for each step.
- ScheduleListener.UserWorkScheduleListener.NestedFlush: has the same contract as `PostFlush`, so it has the same two gaps: the null-schedule requires and the unstated exact day lists.
- Format.Sprintf: requires a template with only `%s` and `%%` conversions and enough arguments. PHP raises a `ValueError` for an unknown conversion or a trailing `%`, and an `ArgumentCountError` for too few arguments; these errors are not modelled, since no template in the modelled code reaches them.
- `dailyWorkingTime` is a `real`, not a PHP float. Rounding is not modelled.
- A type error of PHP is modelled as a failure outcome, not as an exception. It covers `addUserScheduleDays` called with a null profile.
- Doctrine's unit of work is reduced to the ordered managed objects and a flush count. Actual database writes, change-set computation, and orphan removal are not modelled.
