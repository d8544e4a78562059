/** The Doctrine listener that expands a new work schedule into schedule
    days, records status changes in the schedule's log, and persists both
    after the surrounding flush. It keeps two request-scoped buffers: the
    generated days and the log records not yet persisted. */
module ScheduleListener {
  import opened Common
  import opened Collections
  import opened Format
  import opened Organization
  import opened Persistence
  import opened WorkSchedule

  /** The clock reading `new DateTime()` gives. */
  datatype Instant = Instant(epochSeconds: int)

  /** A value in a change set: null, or an object known by its identity,
      with the text its `__toString` gives. */
  datatype FieldValue = NullValue | ObjectValue(identity: nat, text: string)

  /** `%s` of a value: null prints as the empty string. */
  function Display(v: FieldValue): (r: string)
    ensures v.NullValue? ==> r == ""
    ensures v.ObjectValue? ==> r == v.text
  {
    match v
    case NullValue => ""
    case ObjectValue(_, text) => text
  }

  /** PHP's `===` on two change-set values. */
  predicate Identical(a: FieldValue, b: FieldValue)
    ensures a == b ==> Identical(a, b)
    ensures Identical(a, b) ==> (a.NullValue? <==> b.NullValue?)
    ensures (a.ObjectValue? && b.ObjectValue? && a.identity != b.identity) ==> !Identical(a, b)
  {
    (a.NullValue? && b.NullValue?) ||
    (a.ObjectValue? && b.ObjectValue? && a.identity == b.identity)
  }

  /** The field changes Doctrine hands to `preUpdate`: field name to the
      pair (old value, new value). */
  type ChangeSet = map<string, (FieldValue, FieldValue)>

  /** The object a lifecycle event is about. */
  datatype LifecycleObject = ScheduleObject(schedule: UserWorkSchedule) | OtherObject

  /** `status` is in the change set and its old value is not identical to
      the new one. */
  predicate StatusChanged(changes: ChangeSet)
    ensures StatusChanged(changes) ==> "status" in changes
    ensures "status" in changes && changes["status"].0 == changes["status"].1 ==> !StatusChanged(changes)
    ensures "status" in changes && changes["status"].0.NullValue? != changes["status"].1.NullValue? ==>
              StatusChanged(changes)
    ensures ("status" in changes && changes["status"].0.ObjectValue? && changes["status"].1.ObjectValue?
             && changes["status"].0.identity != changes["status"].1.identity) ==>
              StatusChanged(changes)
  {
    "status" in changes && !Identical(changes["status"].0, changes["status"].1)
  }

  /** The notice template of a status change, "Zmieniono status z: %s, na: %s". */
  const STATUS_NOTICE: string := TwoSlotTemplate("Zmieniono status z: ", ", na: ")

  /** The notice of a status change: the template filled with the old and
      the new status. */
  function StatusNotice(oldValue: FieldValue, newValue: FieldValue): (r: string)
    ensures r == "Zmieniono status z: " + Display(oldValue) + ", na: " + Display(newValue)
  {
    FillTwoSlots("Zmieniono status z: ", ", na: ", Display(oldValue), Display(newValue));
    Sprintf(STATUS_NOTICE, [Display(oldValue), Display(newValue)])
  }

  /** A log record of a schedule: the schedule, the time, the acting user
      and the notice. It is not changed after it is made. */
  class UserWorkScheduleLog {
    const userWorkSchedule: UserWorkSchedule
    const logDate: Instant
    const owner: User?
    const notice: string

    constructor (schedule: UserWorkSchedule, date: Instant, owner: User?, notice: string)
      ensures userWorkSchedule == schedule && logDate == date
      ensures this.owner == owner && this.notice == notice
    {
      userWorkSchedule := schedule;
      logDate := date;
      this.owner := owner;
      this.notice := notice;
    }
  }

  /** The schedules the buffered days point at. */
  function Schedules(days: seq<UserWorkScheduleDay>): set<UserWorkSchedule>
    reads set d | d in days
  {
    set d | d in days && d.userWorkSchedule != null :: d.userWorkSchedule
  }

  /** What postFlush stores: postPersist has already persisted every
      buffered day, so persisting them again adds nothing, and only the
      log records made by preUpdate, new and distinct, are appended in
      buffer order. */
  lemma PostFlushStoresLogs(managed: seq<object>, days: seq<UserWorkScheduleDay>,
                            logs: seq<UserWorkScheduleLog>)
    requires forall x :: x in days ==> x in managed
    requires NoDup(logs)
    requires forall x :: x in logs ==> x !in managed
    ensures PersistAll(managed, days + logs) == managed + logs
  {
    AlreadyManaged(managed, days);
    PersistAllAppend(managed, days, logs);
    PersistAllNew(managed, logs);
  }

  class UserWorkScheduleListener {
    /** The username of the security token's user, or None when there was
        no token; captured once, at construction. */
    const token: Option<string>
    var userWorkScheduleDays: seq<UserWorkScheduleDay>
    var userWorkScheduleDaysLogs: seq<UserWorkScheduleLog>

    constructor (token: Option<string>)
      ensures this.token == token
      ensures userWorkScheduleDays == [] && userWorkScheduleDaysLogs == []
    {
      this.token := token;
      userWorkScheduleDays := [];
      userWorkScheduleDaysLogs := [];
    }

    /** The name the acting user is looked up by: the token's user, or
        `admin` when there is no token. */
    function CurrentUsername(): (name: string)
      ensures token.None? ==> name == "admin"
      ensures token.Some? ==> name == token.value
    {
      match token
      case None => "admin"
      case Some(name) => name
    }

    /** The acting user: the user row with the current username, or null. */
    function GetCurrentUser(em: EntityManager): (u: User?)
      reads set x | x in em.users
      ensures u != null ==> u in em.users && u.username == Some(CurrentUsername())
      ensures u == null ==> forall x :: x in em.users ==> x.username != Some(CurrentUsername())
    {
      FindOneByUsername(em.users, CurrentUsername())
    }

    /** The number of buffers that still hold something. */
    function Pending(): nat
      reads this
    {
      (if userWorkScheduleDays == [] then 0 else 1) +
      (if userWorkScheduleDaysLogs == [] then 0 else 1)
    }

    method PreUpdate(entity: LifecycleObject, changes: ChangeSet, em: EntityManager, now: Instant)
      modifies this`userWorkScheduleDaysLogs
      ensures !(entity.ScheduleObject? && StatusChanged(changes)) ==>
                userWorkScheduleDaysLogs == old(userWorkScheduleDaysLogs)
      ensures entity.ScheduleObject? && StatusChanged(changes) ==>
                var n := |old(userWorkScheduleDaysLogs)|;
                && |userWorkScheduleDaysLogs| == n + 1
                && userWorkScheduleDaysLogs[..n] == old(userWorkScheduleDaysLogs)
                && fresh(userWorkScheduleDaysLogs[n])
                && userWorkScheduleDaysLogs[n].userWorkSchedule == entity.schedule
                && userWorkScheduleDaysLogs[n].logDate == now
                && userWorkScheduleDaysLogs[n].owner == GetCurrentUser(em)
                && userWorkScheduleDaysLogs[n].notice
                     == StatusNotice(changes["status"].0, changes["status"].1)
    {
      if !entity.ScheduleObject? {
        return;
      }
      if "status" in changes && !Identical(changes["status"].0, changes["status"].1) {
        AddUserWorkScheduleLog(em, entity.schedule,
          StatusNotice(changes["status"].0, changes["status"].1), now);
      }
    }

    method AddUserWorkScheduleLog(em: EntityManager, schedule: UserWorkSchedule, notice: string, now: Instant)
      modifies this`userWorkScheduleDaysLogs
      ensures |userWorkScheduleDaysLogs| == |old(userWorkScheduleDaysLogs)| + 1
      ensures userWorkScheduleDaysLogs[..|old(userWorkScheduleDaysLogs)|] == old(userWorkScheduleDaysLogs)
      ensures var log := userWorkScheduleDaysLogs[|old(userWorkScheduleDaysLogs)|];
                && fresh(log)
                && log.userWorkSchedule == schedule && log.logDate == now
                && log.owner == GetCurrentUser(em) && log.notice == notice
    {
      var log := new UserWorkScheduleLog(schedule, now, GetCurrentUser(em), notice);
      userWorkScheduleDaysLogs := userWorkScheduleDaysLogs + [log];
    }

    /** Nothing happens before a schedule is inserted. */
    method PrePersist(entity: LifecycleObject)
      ensures unchanged(this)
    {
      if !entity.ScheduleObject? {
        return;
      }
    }

    /** After a schedule is inserted: one day per day definition of its
        period (`dayDefinitions`, the result of the repository query for
        the schedule's date range), each attached to the schedule,
        persisted and buffered. A schedule without a profile fails with a
        type error as soon as there is a day to generate. */
    method PostPersist(entity: LifecycleObject, dayDefinitions: seq<DayDefinition>, em: EntityManager)
      returns (outcome: Outcome)
      modifies this`userWorkScheduleDays, em`managed
      modifies (if entity.ScheduleObject? then {entity.schedule} else {})`userWorkScheduleDays
      ensures entity.OtherObject? ==> outcome == Pass && unchanged(this, em)
      ensures entity.ScheduleObject? && old(entity.schedule.workScheduleProfile).None? && dayDefinitions != [] ==>
                outcome == Fail(NullProfileTypeError) && unchanged(this, em, entity.schedule)
      ensures entity.ScheduleObject? && (old(entity.schedule.workScheduleProfile).Some? || dayDefinitions == []) ==>
                && outcome == Pass
                && |userWorkScheduleDays| == |old(userWorkScheduleDays)| + |dayDefinitions|
      ensures entity.ScheduleObject? && outcome.Pass? ==>
                var schedule, n := entity.schedule, |old(userWorkScheduleDays)|;
                var added := userWorkScheduleDays[n..];
                && userWorkScheduleDays[..n] == old(userWorkScheduleDays)
                && NoDup(added)
                && (forall i :: 0 <= i < |dayDefinitions| ==>
                      && fresh(added[i])
                      && added[i].CopiedFrom(dayDefinitions[i], schedule.workScheduleProfile.value)
                      && added[i].userWorkSchedule == schedule)
                && schedule.userWorkScheduleDays == old(schedule.userWorkScheduleDays) + added
                && em.managed == old(em.managed) + added
    {
      if !entity.ScheduleObject? {
        return Pass;
      }
      var schedule := entity.schedule;
      if schedule.workScheduleProfile.None? && dayDefinitions != [] {
        return Fail(NullProfileTypeError);
      }
      ghost var added: seq<UserWorkScheduleDay> := [];
      for i := 0 to |dayDefinitions|
        invariant |added| == i
        invariant userWorkScheduleDays == old(userWorkScheduleDays) + added
        invariant schedule.workScheduleProfile == old(schedule.workScheduleProfile)
        invariant NoDup(added)
        invariant forall k :: 0 <= k < i ==>
                    && fresh(added[k])
                    && added[k].CopiedFrom(dayDefinitions[k], schedule.workScheduleProfile.value)
                    && added[k].userWorkSchedule == schedule
        invariant schedule.userWorkScheduleDays == old(schedule.userWorkScheduleDays) + added
        invariant em.managed == old(em.managed) + added
      {
        var profile := schedule.workScheduleProfile.value;
        var day := AddUserScheduleDays(em, dayDefinitions[i], schedule, profile);
        userWorkScheduleDays := userWorkScheduleDays + [day];
        NoDupSnoc(added, day);
        added := added + [day];
      }
      assert userWorkScheduleDays[|old(userWorkScheduleDays)|..] == added;
      return Pass;
    }

    /** One generated day: built from the definition and the profile,
        attached to the schedule and persisted. */
    method AddUserScheduleDays(em: EntityManager, definition: DayDefinition,
                               schedule: UserWorkSchedule, profile: WorkScheduleProfile)
      returns (day: UserWorkScheduleDay)
      modifies em`managed, schedule`userWorkScheduleDays
      ensures fresh(day)
      ensures day.CopiedFrom(definition, profile) && day.userWorkSchedule == schedule
      ensures schedule.userWorkScheduleDays == old(schedule.userWorkScheduleDays) + [day]
      ensures em.managed == old(em.managed) + [day]
    {
      day := new UserWorkScheduleDay.FromDefinition(definition, profile);
      var _ := schedule.AddUserWorkScheduleDay(day);
      em.Persist(day);
    }

    /** Every buffered day points at a schedule: postFlush re-adds each day
        to the schedule it points at. */
    ghost predicate BufferedDaysAttached()
      reads this, userWorkScheduleDays
    {
      forall d :: d in userWorkScheduleDays ==> d.userWorkSchedule != null
    }

    /** After the flush: the buffered days are re-added to their schedules
        and persisted, the buffer is emptied and flushed; then the same for
        the buffered log records. Each buffer is emptied before its own
        nested flush, so the postFlush that nested flush triggers finds it
        empty. */
    method PostFlush(em: EntityManager)
      requires BufferedDaysAttached()
      modifies this`userWorkScheduleDays, this`userWorkScheduleDaysLogs, em`managed, em`flushCount
      modifies userWorkScheduleDays`userWorkSchedule, Schedules(userWorkScheduleDays)`userWorkScheduleDays
      decreases Pending(), 0
      ensures userWorkScheduleDays == [] && userWorkScheduleDaysLogs == []
      ensures em.managed
                == PersistAll(old(em.managed), old(userWorkScheduleDays) + old(userWorkScheduleDaysLogs))
      ensures em.flushCount == old(em.flushCount) + old(Pending())
      ensures forall d :: d in old(userWorkScheduleDays) ==>
                && d.userWorkSchedule == old(d.userWorkSchedule)
                && d.userWorkSchedule != null
                && d in d.userWorkSchedule.userWorkScheduleDays
      ensures forall s :: s in old(Schedules(userWorkScheduleDays)) && old(NoDup(s.userWorkScheduleDays)) ==>
                NoDup(s.userWorkScheduleDays)
    {
      ghost var days, logs := userWorkScheduleDays, userWorkScheduleDaysLogs;
      ghost var afterDays := PersistAll(old(em.managed), days);
      if userWorkScheduleDays != [] {
        PersistBufferedDays(em, userWorkScheduleDays, Schedules(userWorkScheduleDays));
        userWorkScheduleDays := [];
        assert em.managed == afterDays;
        assert userWorkScheduleDays + userWorkScheduleDaysLogs == logs;
        NestedFlush(em);
      }
      assert || (userWorkScheduleDaysLogs == [] && em.managed == PersistAll(afterDays, logs))
             || (userWorkScheduleDaysLogs == logs && em.managed == afterDays);
      if userWorkScheduleDaysLogs != [] {
        PersistBufferedLogs(em);
        userWorkScheduleDaysLogs := [];
        NestedFlush(em);
      }
      PersistAllAppend(old(em.managed), days, logs);
    }

    /** The loop over the buffered days: each is re-added to the schedule it
        points at and persisted. */
    method PersistBufferedDays(em: EntityManager, days: seq<UserWorkScheduleDay>, ghost schedules: set<UserWorkSchedule>)
      requires forall d :: d in days ==> d.userWorkSchedule in schedules
      modifies em`managed, days`userWorkSchedule, schedules`userWorkScheduleDays
      ensures em.managed == PersistAll(old(em.managed), days)
      ensures forall d :: d in days ==>
                && d.userWorkSchedule == old(d.userWorkSchedule)
                && d in d.userWorkSchedule.userWorkScheduleDays
      ensures forall s :: s in schedules && NoDup(old(s.userWorkScheduleDays)) ==> NoDup(s.userWorkScheduleDays)
    {
      ghost var owners := seq(|days|, k requires 0 <= k < |days| reads days => days[k].userWorkSchedule);
      for i := 0 to |days|
        invariant em.managed == PersistAll(old(em.managed), days[..i])
        invariant forall k :: 0 <= k < |days| ==> days[k].userWorkSchedule == owners[k] != null
        invariant forall k :: 0 <= k < i ==> days[k] in owners[k].userWorkScheduleDays
        invariant forall s :: s in schedules && NoDup(old(s.userWorkScheduleDays)) ==> NoDup(s.userWorkScheduleDays)
      {
        ReAddDay(em, days, owners, i);
        PersistAllStep(old(em.managed), days, i);
      }
      assert days[..|days|] == days;
      forall d | d in days
        ensures d.userWorkSchedule == old(d.userWorkSchedule) && d in d.userWorkSchedule.userWorkScheduleDays
      {
        var k :| 0 <= k < |days| && days[k] == d;
        assert d.userWorkSchedule == owners[k];
      }
    }

    /** One round of that loop: `days[i]` is re-added to the schedule it
        points at and persisted; the days before it stay listed. */
    method ReAddDay(em: EntityManager, days: seq<UserWorkScheduleDay>, ghost owners: seq<UserWorkSchedule?>, i: nat)
      requires i < |days| == |owners|
      requires forall k :: 0 <= k < |days| ==> days[k].userWorkSchedule == owners[k] != null
      requires forall k :: 0 <= k < i ==> days[k] in owners[k].userWorkScheduleDays
      modifies em`managed, {days[i]}`userWorkSchedule, {owners[i]}`userWorkScheduleDays
      ensures forall k :: 0 <= k < |days| ==> days[k].userWorkSchedule == owners[k]
      ensures forall k :: 0 <= k <= i ==> days[k] in owners[k].userWorkScheduleDays
      ensures owners[i].userWorkScheduleDays == AddOnce(old(owners[i].userWorkScheduleDays), days[i])
      ensures em.managed == AddOnce(old(em.managed), days[i])
    {
      var day, schedule := days[i], days[i].userWorkSchedule;
      var _ := schedule.AddUserWorkScheduleDay(day);
      em.Persist(day);
      forall k | 0 <= k < i ensures days[k] in owners[k].userWorkScheduleDays {
        assert days[k] in old(owners[k].userWorkScheduleDays);
      }
    }

    /** The loop over the buffered log records: each is persisted. */
    method PersistBufferedLogs(em: EntityManager)
      modifies em`managed
      ensures em.managed == PersistAll(old(em.managed), userWorkScheduleDaysLogs)
    {
      var logs := userWorkScheduleDaysLogs;
      for i := 0 to |logs|
        invariant em.managed == PersistAll(old(em.managed), logs[..i])
      {
        em.Persist(logs[i]);
        assert logs[..i + 1] == logs[..i] + [logs[i]];
      }
      assert logs[..|logs|] == logs;
    }

    /** `$em->flush()` issued from inside postFlush: the flush is counted
        and Doctrine dispatches postFlush to this listener again. */
    method NestedFlush(em: EntityManager)
      requires BufferedDaysAttached()
      modifies this`userWorkScheduleDays, this`userWorkScheduleDaysLogs, em`managed, em`flushCount
      modifies userWorkScheduleDays`userWorkSchedule, Schedules(userWorkScheduleDays)`userWorkScheduleDays
      decreases Pending(), 1
      ensures userWorkScheduleDays == [] && userWorkScheduleDaysLogs == []
      ensures em.managed
                == PersistAll(old(em.managed), old(userWorkScheduleDays) + old(userWorkScheduleDaysLogs))
      ensures em.flushCount == old(em.flushCount) + 1 + old(Pending())
      ensures forall d :: d in old(userWorkScheduleDays) ==>
                && d.userWorkSchedule == old(d.userWorkSchedule)
                && d.userWorkSchedule != null
                && d in d.userWorkSchedule.userWorkScheduleDays
      ensures forall s :: s in old(Schedules(userWorkScheduleDays)) && old(NoDup(s.userWorkScheduleDays)) ==>
                NoDup(s.userWorkScheduleDays)
    {
      em.Flush();
      PostFlush(em);
    }
  }
}
