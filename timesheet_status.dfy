/** The timesheet approval workflow's status table and the fixture that
    loads it: for each status, its title and, per role, the statuses a
    user holding that role may move a timesheet to. */
module TimesheetStatus {
  import opened Common
  import opened Collections
  import opened Persistence
  import Organization

  const OWNER_EDIT: string := "TIMESHEET-STATUS-OWNER-EDIT"
  const OWNER_ACCEPT: string := "TIMESHEET-STATUS-OWNER-ACCEPT"
  const MANAGER_ACCEPT: string := "TIMESHEET-STATUS-MANAGER-ACCEPT"
  const HR_ACCEPT: string := "TIMESHEET-STATUS-HR-ACCEPT"

  const ROLE_HR: string := "ROLE_HR"
  const ROLE_DEPARTMENT_MANAGER: string := "ROLE_DEPARTMENT_MANAGER"

  /** One role's entry in a status's rules: the statuses it may move to. */
  datatype RoleRule = RoleRule(role: string, targets: seq<string>)

  /** One row of the table: the status id, its title and its rules, in the
      order the rules are written. */
  datatype StatusEntry = StatusEntry(key: string, title: string, rules: seq<RoleRule>)

  /** The table, in the order of its keys (an ordered PHP array). */
  const Statuses: seq<StatusEntry> := [
    StatusEntry(OWNER_EDIT, "Edytowana przez pracownika", [
      RoleRule(Organization.ROLE_USER, [OWNER_ACCEPT]),
      RoleRule(ROLE_HR, [OWNER_ACCEPT, MANAGER_ACCEPT, HR_ACCEPT])
    ]),
    StatusEntry(OWNER_ACCEPT, "Zatwierdzona przez pracownika", [
      RoleRule(ROLE_DEPARTMENT_MANAGER, [OWNER_EDIT, MANAGER_ACCEPT]),
      RoleRule(ROLE_HR, [OWNER_EDIT, MANAGER_ACCEPT, HR_ACCEPT])
    ]),
    StatusEntry(MANAGER_ACCEPT, "Zatwierdzona przez przełożonego", [
      RoleRule(ROLE_HR, [OWNER_EDIT, OWNER_ACCEPT, MANAGER_ACCEPT, HR_ACCEPT])
    ]),
    StatusEntry(HR_ACCEPT, "Zatwierdzona przez HR", [
      RoleRule(ROLE_HR, [OWNER_EDIT, OWNER_ACCEPT, MANAGER_ACCEPT])
    ])
  ]

  /** The keys of a table, in order. */
  function Keys(table: seq<StatusEntry>): seq<string>
  {
    seq(|table|, i requires 0 <= i < |table| => table[i].key)
  }

  /** The row of a status: the first with that key, if any. */
  function FindStatus(table: seq<StatusEntry>, key: string): (r: Option<StatusEntry>)
    ensures r.Some? ==> r.value in table && r.value.key == key
    ensures r.None? ==> forall e :: e in table ==> e.key != key
  {
    if table == [] then None
    else if table[0].key == key then Some(table[0])
    else FindStatus(table[1..], key)
  }

  /** A role's rule in a row's rules: the first for that role, if any. */
  function FindRule(rules: seq<RoleRule>, role: string): (r: Option<seq<string>>)
    ensures r.Some? ==> exists rule :: rule in rules && rule.role == role && rule.targets == r.value
    ensures r.None? ==> forall rule :: rule in rules ==> rule.role != role
  {
    if rules == [] then None
    else if rules[0].role == role then Some(rules[0].targets)
    else FindRule(rules[1..], role)
  }

  /** The statuses a role may move a timesheet from `status` to, or None
      when the table has no such status or no rule for that role there. */
  function AllowedTargets(status: string, role: string): (r: Option<seq<string>>)
    ensures r.Some? ==> FindStatus(Statuses, status).Some?
    ensures r.Some? ==> forall t :: t in r.value ==> t in Keys(Statuses)
  {
    match FindStatus(Statuses, status)
    case None => None
    case Some(entry) =>
      var r := FindRule(entry.rules, role);
      assert r.Some? ==> forall t :: t in r.value ==> t in Keys(Statuses) by {
        if r.Some? {
          forall t | t in r.value ensures t in Keys(Statuses) {
            assert Keys(Statuses) == [OWNER_EDIT, OWNER_ACCEPT, MANAGER_ACCEPT, HR_ACCEPT];
          }
        }
      }
      r
  }

  /** No status appears twice in the table. */
  lemma DistinctKeys()
    ensures NoDup(Keys(Statuses))
  {
    assert Keys(Statuses) == [OWNER_EDIT, OWNER_ACCEPT, MANAGER_ACCEPT, HR_ACCEPT];
  }

  /** The table has exactly four statuses, each once. */
  lemma FourStatuses()
    ensures Keys(Statuses) == [OWNER_EDIT, OWNER_ACCEPT, MANAGER_ACCEPT, HR_ACCEPT]
    ensures NoDup(Keys(Statuses))
    ensures forall s :: FindStatus(Statuses, s).Some? <==> s in Keys(Statuses)
  {
    var keys := Keys(Statuses);
    assert keys == [OWNER_EDIT, OWNER_ACCEPT, MANAGER_ACCEPT, HR_ACCEPT];
    forall s ensures FindStatus(Statuses, s).Some? <==> s in keys {
      if s in keys {
        var i :| 0 <= i < |keys| && keys[i] == s;
        assert Statuses[i] in Statuses;
      }
    }
  }

  /** Every target of every rule is a status of the table. */
  lemma TableClosed()
    ensures forall e, rule, t :: e in Statuses && rule in e.rules && t in rule.targets ==>
              FindStatus(Statuses, t).Some?
  {
    FourStatuses();
  }

  /** An employee may only submit a timesheet being edited for acceptance. */
  lemma UserAtOwnerEdit()
    ensures AllowedTargets(OWNER_EDIT, Organization.ROLE_USER) == Some([OWNER_ACCEPT])
  {
  }

  /** An employee has no rule once the timesheet has left OWNER-EDIT. */
  lemma UserOnlyAtOwnerEdit(status: string)
    requires status != OWNER_EDIT
    ensures AllowedTargets(status, Organization.ROLE_USER) == None
  {
  }

  /** A department manager may send an accepted timesheet back or accept
      it, but not accept it for HR. */
  lemma ManagerAtOwnerAccept()
    ensures AllowedTargets(OWNER_ACCEPT, ROLE_DEPARTMENT_MANAGER) == Some([OWNER_EDIT, MANAGER_ACCEPT])
    ensures HR_ACCEPT !in AllowedTargets(OWNER_ACCEPT, ROLE_DEPARTMENT_MANAGER).value
  {
  }

  /** HR has a rule at every status of the table. */
  lemma HrEverywhere(status: string)
    requires FindStatus(Statuses, status).Some?
    ensures AllowedTargets(status, ROLE_HR).Some?
  {
  }

  /** At HR-ACCEPT only HR has a rule, and it does not lead back to
      HR-ACCEPT. */
  lemma OnlyHrAtHrAccept(role: string)
    ensures AllowedTargets(HR_ACCEPT, role).Some? <==> role == ROLE_HR
    ensures role == ROLE_HR ==> HR_ACCEPT !in AllowedTargets(HR_ACCEPT, role).value
  {
  }

  /** A UserTimesheetStatus row: id, name and the rules as stored; every
      field is unset until its setter runs. */
  class UserTimesheetStatus {
    var id: Option<string>
    var name: Option<string>
    var rules: Option<seq<RoleRule>>

    constructor ()
      ensures id == None && name == None && rules == None
    {
      id, name, rules := None, None, None;
    }

    method SetId(v: string) returns (self: UserTimesheetStatus)
      modifies this`id
      ensures id == Some(v) && self == this
    {
      id := Some(v);
      self := this;
    }

    method SetName(v: string) returns (self: UserTimesheetStatus)
      modifies this`name
      ensures name == Some(v) && self == this
    {
      name := Some(v);
      self := this;
    }

    method SetRules(v: seq<RoleRule>) returns (self: UserTimesheetStatus)
      modifies this`rules
      ensures rules == Some(v) && self == this
    {
      rules := Some(v);
      self := this;
    }

    /** The row holds exactly what the table says of `entry`. */
    ghost predicate LoadedFrom(entry: StatusEntry)
      reads this
    {
      id == Some(entry.key) && name == Some(entry.title) && rules == Some(entry.rules)
    }
  }

  /** The references after registering `rows[i]` under the key of
      `table[i]`, one after the other, on top of `base`: a later key
      overwrites. */
  function Registered(base: map<string, UserTimesheetStatus>, table: seq<StatusEntry>, rows: seq<UserTimesheetStatus>)
    : (r: map<string, UserTimesheetStatus>)
    requires |table| == |rows|
    ensures forall k :: k in r <==> k in base || k in Keys(table)
    ensures forall k :: k in base && k !in Keys(table) ==> r[k] == base[k]
  {
    if table == [] then base
    else
      var n := |table| - 1;
      assert Keys(table) == Keys(table[..n]) + [table[n].key];
      Registered(base, table[..n], rows[..n])[table[n].key := rows[n]]
  }

  /** Registering one more row on top of the earlier ones. */
  lemma RegisteredSnoc(base: map<string, UserTimesheetStatus>, table: seq<StatusEntry>,
                       rows: seq<UserTimesheetStatus>, row: UserTimesheetStatus)
    requires |rows| < |table|
    ensures Registered(base, table[..|rows| + 1], rows + [row])
            == Registered(base, table[..|rows|], rows)[table[|rows|].key := row]
  {
    var i := |rows|;
    assert table[..i + 1][..i] == table[..i];
    assert (rows + [row])[..i] == rows;
  }

  /** With distinct keys, each row is found under its own key. */
  lemma {:induction false} RegisteredAt(base: map<string, UserTimesheetStatus>, table: seq<StatusEntry>,
                                        rows: seq<UserTimesheetStatus>, i: nat)
    requires |table| == |rows| && NoDup(Keys(table)) && i < |table|
    ensures table[i].key in Registered(base, table, rows)
    ensures Registered(base, table, rows)[table[i].key] == rows[i]
  {
    var n := |table| - 1;
    if i < n {
      var keys := Keys(table);
      NoDupInit(keys);
      assert keys[..n] == Keys(table[..n]);
      RegisteredAt(base, table[..n], rows[..n], i);
      assert keys[i] != keys[n];
    }
  }

  /** Rows loaded from rows of distinct keys are distinct objects. */
  lemma LoadedRowsDistinct(table: seq<StatusEntry>, rows: seq<UserTimesheetStatus>)
    requires |rows| == |table| && NoDup(Keys(table))
    requires forall i :: 0 <= i < |table| ==> rows[i].LoadedFrom(table[i])
    ensures NoDup(rows)
  {
    var keys := Keys(table);
    forall p, q | 0 <= p < q < |rows| ensures rows[p] != rows[q] {
      assert keys[p] != keys[q];
      assert rows[p].id == Some(keys[p]) && rows[q].id == Some(keys[q]);
    }
  }

  /** The fixture: the references it registers, by name. */
  class UserTimesheetStatusFixtures {
    var references: map<string, UserTimesheetStatus>

    constructor ()
      ensures references == map[]
    {
      references := map[];
    }

    /** `load`: the rows of the table, then one flush. */
    method Load(manager: EntityManager) returns (ghost created: seq<UserTimesheetStatus>)
      modifies this`references, manager`managed, manager`flushCount
      ensures |created| == |Statuses|
      ensures forall i :: 0 <= i < |Statuses| ==> fresh(created[i]) && created[i].LoadedFrom(Statuses[i])
      ensures NoDup(created)
      ensures manager.managed == old(manager.managed) + created
      ensures forall k :: k in references <==> k in old(references) || k in Keys(Statuses)
      ensures forall i :: 0 <= i < |Statuses| ==>
                Statuses[i].key in references && references[Statuses[i].key] == created[i]
      ensures forall k :: k in old(references) && k !in Keys(Statuses) ==> references[k] == old(references[k])
      ensures manager.flushCount == old(manager.flushCount) + 1
    {
      DistinctKeys();
      created := LoadRows(manager, Statuses);
      LoadedRowsDistinct(Statuses, created);
      forall i | 0 <= i < |Statuses|
        ensures Statuses[i].key in references && references[Statuses[i].key] == created[i]
      {
        RegisteredAt(old(references), Statuses, created, i);
      }
      manager.Flush();
    }

    /** The loop of `load`: one status row per table key, in table order,
        built, persisted and registered under its key. */
    method LoadRows(manager: EntityManager, table: seq<StatusEntry>) returns (ghost created: seq<UserTimesheetStatus>)
      modifies this`references, manager`managed
      ensures |created| == |table|
      ensures forall i :: 0 <= i < |table| ==> fresh(created[i]) && created[i].LoadedFrom(table[i])
      ensures manager.managed == old(manager.managed) + created
      ensures references == Registered(old(references), table, created)
    {
      created := [];
      for i := 0 to |table|
        invariant |created| == i
        invariant forall k :: 0 <= k < i ==> fresh(created[k]) && created[k].LoadedFrom(table[k])
        invariant manager.managed == old(manager.managed) + created
        invariant references == Registered(old(references), table[..i], created)
      {
        var status := LoadRow(manager, table[i]);
        RegisteredSnoc(old(references), table, created, status);
        created := created + [status];
      }
      assert table[..|table|] == table;
    }

    /** One round of that loop. */
    method LoadRow(manager: EntityManager, entry: StatusEntry) returns (status: UserTimesheetStatus)
      modifies this`references, manager`managed
      ensures fresh(status) && status.LoadedFrom(entry)
      ensures manager.managed == old(manager.managed) + [status]
      ensures references == old(references)[entry.key := status]
    {
      status := new UserTimesheetStatus();
      var _ := status.SetId(entry.key);
      var _ := status.SetName(entry.title);
      var _ := status.SetRules(entry.rules);
      manager.Persist(status);
      references := references[entry.key := status];
    }
  }
}
