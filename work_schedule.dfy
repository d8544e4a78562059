/** A user's work schedule for a period, the schedule days generated from
    it, and the fields whose changes are recorded in the schedule's log. */
module WorkSchedule {
  import opened Common
  import opened Collections
  import opened Format
  import Organization

  datatype Date = Date(year: int, month: int, day: int)

  /** A UserWorkScheduleStatus row, known by its id. */
  datatype ScheduleStatus = ScheduleStatus(id: string)

  /** The values of a WorkScheduleProfile that are copied into each day. */
  datatype WorkScheduleProfile = WorkScheduleProfile(
    dailyWorkingTime: real,
    dayStartTimeFrom: string,
    dayStartTimeTo: string,
    dayEndTimeFrom: string,
    dayEndTimeTo: string)

  /** A DayDefinition row: a calendar day and whether it is a working day. */
  datatype DayDefinition = DayDefinition(id: string, workingDay: bool)

  /** The fields marked loggable on UserWorkSchedule and their message
      templates ("Zmiana statusu z %s na %s", "Zmiana profilu z %s na %s");
      no other field is loggable. */
  const LoggableFields: map<string, string> := map[
    "status" := TwoSlotTemplate("Zmiana statusu z ", " na "),
    "workScheduleProfile" := TwoSlotTemplate("Zmiana profilu z ", " na ")
  ]

  /** Exactly `status` and `workScheduleProfile` are loggable. */
  lemma LoggableFieldNames()
    ensures LoggableFields.Keys == {"status", "workScheduleProfile"}
  {
  }

  /** Filling the `status` template puts the old and the new value in order. */
  lemma StatusTemplate(oldText: string, newText: string)
    ensures Supported(LoggableFields["status"]) && Placeholders(LoggableFields["status"]) == 2
    ensures Sprintf(LoggableFields["status"], [oldText, newText])
              == "Zmiana statusu z " + oldText + " na " + newText
  {
    FillTwoSlots("Zmiana statusu z ", " na ", oldText, newText);
  }

  /** Filling the `workScheduleProfile` template likewise. */
  lemma ProfileTemplate(oldText: string, newText: string)
    ensures Supported(LoggableFields["workScheduleProfile"])
    ensures Placeholders(LoggableFields["workScheduleProfile"]) == 2
    ensures Sprintf(LoggableFields["workScheduleProfile"], [oldText, newText])
              == "Zmiana profilu z " + oldText + " na " + newText
  {
    FillTwoSlots("Zmiana profilu z ", " na ", oldText, newText);
  }

  class UserWorkScheduleDay {
    var dayDefinition: DayDefinition
    var dailyWorkingTime: real
    var workingDay: bool
    var dayStartTimeFrom: string
    var dayStartTimeTo: string
    var dayEndTimeFrom: string
    var dayEndTimeTo: string
    var userWorkSchedule: UserWorkSchedule?

    /** A new day with the chain of setters the listener applies: the day
        definition and its working-day flag, the profile's working time
        and start/end windows. */
    constructor FromDefinition(definition: DayDefinition, profile: WorkScheduleProfile)
      ensures CopiedFrom(definition, profile) && userWorkSchedule == null
    {
      dayDefinition := definition;
      dailyWorkingTime := profile.dailyWorkingTime;
      workingDay := definition.workingDay;
      dayStartTimeFrom := profile.dayStartTimeFrom;
      dayStartTimeTo := profile.dayStartTimeTo;
      dayEndTimeFrom := profile.dayEndTimeFrom;
      dayEndTimeTo := profile.dayEndTimeTo;
      userWorkSchedule := null;
    }

    ghost predicate CopiedFrom(definition: DayDefinition, profile: WorkScheduleProfile)
      reads this
    {
      && dayDefinition == definition
      && workingDay == definition.workingDay
      && dailyWorkingTime == profile.dailyWorkingTime
      && dayStartTimeFrom == profile.dayStartTimeFrom
      && dayStartTimeTo == profile.dayStartTimeTo
      && dayEndTimeFrom == profile.dayEndTimeFrom
      && dayEndTimeTo == profile.dayEndTimeTo
    }

    method SetUserWorkSchedule(s: UserWorkSchedule?) returns (self: UserWorkScheduleDay)
      modifies this`userWorkSchedule
      ensures userWorkSchedule == s && self == this
    {
      userWorkSchedule := s;
      self := this;
    }
  }

  class UserWorkSchedule {
    var fromDate: Option<Date>
    var toDate: Option<Date>
    var status: Option<ScheduleStatus>
    var owner: Organization.User?
    var workScheduleProfile: Option<WorkScheduleProfile>
    var userWorkScheduleDays: seq<UserWorkScheduleDay>

    constructor ()
      ensures userWorkScheduleDays == []
      ensures fromDate == None && toDate == None && status == None
      ensures owner == null && workScheduleProfile == None
    {
      fromDate, toDate, status := None, None, None;
      owner := null;
      workScheduleProfile := None;
      userWorkScheduleDays := [];
    }

    method SetFromDate(d: Date) returns (self: UserWorkSchedule)
      modifies this`fromDate
      ensures fromDate == Some(d) && self == this
    {
      fromDate := Some(d);
      self := this;
    }

    method SetToDate(d: Date) returns (self: UserWorkSchedule)
      modifies this`toDate
      ensures toDate == Some(d) && self == this
    {
      toDate := Some(d);
      self := this;
    }

    method SetStatus(s: ScheduleStatus) returns (self: UserWorkSchedule)
      modifies this`status
      ensures status == Some(s) && self == this
    {
      status := Some(s);
      self := this;
    }

    method SetOwner(u: Organization.User?) returns (self: UserWorkSchedule)
      modifies this`owner
      ensures owner == u && self == this
    {
      owner := u;
      self := this;
    }

    method SetWorkScheduleProfile(p: Option<WorkScheduleProfile>) returns (self: UserWorkSchedule)
      modifies this`workScheduleProfile
      ensures workScheduleProfile == p && self == this
    {
      workScheduleProfile := p;
      self := this;
    }

    /** Every day listed here points back at this schedule. */
    ghost predicate DaysLinked()
      reads this, userWorkScheduleDays
    {
      forall d :: d in userWorkScheduleDays ==> d.userWorkSchedule == this
    }

    method AddUserWorkScheduleDay(day: UserWorkScheduleDay) returns (self: UserWorkSchedule)
      modifies this`userWorkScheduleDays, day`userWorkSchedule
      ensures self == this
      ensures userWorkScheduleDays == AddOnce(old(userWorkScheduleDays), day)
      ensures old(day !in userWorkScheduleDays) ==> day.userWorkSchedule == this
      ensures old(day in userWorkScheduleDays) ==> day.userWorkSchedule == old(day.userWorkSchedule)
      ensures old(DaysLinked()) ==> DaysLinked()
    {
      if day !in userWorkScheduleDays {
        userWorkScheduleDays := userWorkScheduleDays + [day];
        var _ := day.SetUserWorkSchedule(this);
      }
      self := this;
    }

    method RemoveUserWorkScheduleDay(day: UserWorkScheduleDay) returns (self: UserWorkSchedule)
      modifies this`userWorkScheduleDays, day`userWorkSchedule
      ensures self == this
      ensures userWorkScheduleDays == RemoveFirst(old(userWorkScheduleDays), day)
      ensures old(day in userWorkScheduleDays && day.userWorkSchedule == this) ==>
                day.userWorkSchedule == null
      ensures !old(day in userWorkScheduleDays && day.userWorkSchedule == this) ==>
                day.userWorkSchedule == old(day.userWorkSchedule)
      ensures old(DaysLinked() && NoDup(userWorkScheduleDays)) ==>
                DaysLinked() && day !in userWorkScheduleDays
    {
      ghost var before := userWorkScheduleDays;
      if day in userWorkScheduleDays {
        userWorkScheduleDays := RemoveFirst(userWorkScheduleDays, day);
        if day.userWorkSchedule == this {
          var _ := day.SetUserWorkSchedule(null);
        }
      }
      if NoDup(before) {
        RemoveFirstNoDup(before, day);
      }
      self := this;
    }
  }
}
