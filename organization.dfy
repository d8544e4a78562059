/** Users, departments and sections, and the two-sided associations
    between them that the entities keep up to date in place. */
module Organization {
  import opened Common
  import opened Collections

  /** Every user holds this role, whatever is stored. */
  const ROLE_USER: string := "ROLE_USER"

  /** The part of a section that users and departments touch: the
      department it belongs to (the owning side of Department.sections). */
  class Section {
    var department: Department?

    constructor ()
      ensures department == null
    {
      department := null;
    }

    method SetDepartment(d: Department?) returns (self: Section)
      modifies this`department
      ensures department == d && self == this
    {
      department := d;
      self := this;
    }
  }

  class User {
    var username: Option<string>
    var roles: seq<string>
    var department: Department?
    var section: Section?
    var managedDepartments: seq<Department>
    var managedSections: seq<Section>

    constructor ()
      ensures username == None && roles == []
      ensures department == null && section == null
      ensures managedDepartments == [] && managedSections == []
    {
      username := None;
      roles := [];
      department := null;
      section := null;
      managedDepartments := [];
      managedSections := [];
    }

    /** The username cast to a string: a user without one has the empty name. */
    function GetUsername(): (r: string)
      reads this
      ensures username.None? ==> r == ""
      ensures username.Some? ==> r == username.value
    {
      match username
      case None => ""
      case Some(name) => name
    }

    method SetUsername(name: string) returns (self: User)
      modifies this`username
      ensures username == Some(name) && self == this
    {
      username := Some(name);
      self := this;
    }

    /** The stored roles with ROLE_USER appended, duplicates removed.
        Being a function, it leaves the stored roles as they are. */
    function GetRoles(): (r: seq<string>)
      reads this
      ensures ROLE_USER in r
      ensures NoDup(r)
      ensures forall x :: x in roles ==> x in r
      ensures forall x :: x in r ==> x in roles || x == ROLE_USER
    {
      Dedup(roles + [ROLE_USER])
    }

    /** When the stored roles are distinct and lack ROLE_USER, the effective
        roles are exactly the stored ones followed by ROLE_USER. */
    lemma GetRolesOfDistinctRoles()
      requires NoDup(roles) && ROLE_USER !in roles
      ensures GetRoles() == roles + [ROLE_USER]
    {
      var s := roles + [ROLE_USER];
      forall i, j | 0 <= i < j < |s| ensures s[i] != s[j] {
        if j == |s| - 1 {
          assert s[i] == roles[i];
        }
      }
      DedupOfNoDup(s);
    }

    method SetRoles(newRoles: seq<string>) returns (self: User)
      modifies this`roles
      ensures roles == newRoles && self == this
    {
      roles := newRoles;
      self := this;
    }

    method SetDepartment(d: Department?) returns (self: User)
      modifies this`department
      ensures department == d && self == this
    {
      department := d;
      self := this;
    }

    method SetSection(s: Section?) returns (self: User)
      modifies this`section
      ensures section == s && self == this
    {
      section := s;
      self := this;
    }

    /** This user and `d` agree on whether the user manages `d`. */
    ghost predicate ManagesLinked(d: Department)
      reads this, d
    {
      d in managedDepartments <==> this in d.managers
    }

    method AddManagedDepartment(d: Department) returns (self: User)
      modifies this`managedDepartments, d`managers
      ensures self == this
      ensures managedDepartments == AddOnce(old(managedDepartments), d)
      ensures old(d in managedDepartments) ==> d.managers == old(d.managers)
      ensures old(d !in managedDepartments) ==> d.managers == AddOnce(old(d.managers), this)
      ensures old(ManagesLinked(d)) ==> ManagesLinked(d)
    {
      if d !in managedDepartments {
        managedDepartments := managedDepartments + [d];
        var _ := d.AddManager(this);
      }
      self := this;
    }

    method RemoveManagedDepartment(d: Department) returns (self: User)
      modifies this`managedDepartments, d`managers
      ensures self == this
      ensures managedDepartments == RemoveFirst(old(managedDepartments), d)
      ensures old(d in managedDepartments) ==> d.managers == RemoveFirst(old(d.managers), this)
      ensures old(d !in managedDepartments) ==> d.managers == old(d.managers)
      ensures old(NoDup(managedDepartments) && NoDup(d.managers) && ManagesLinked(d)) ==>
                d !in managedDepartments && this !in d.managers
    {
      ghost var before, managersBefore := managedDepartments, d.managers;
      if d in managedDepartments {
        managedDepartments := RemoveFirst(managedDepartments, d);
        var _ := d.RemoveManager(this);
      }
      if NoDup(before) && NoDup(managersBefore) && (d in before <==> this in managersBefore) {
        RemoveFirstNoDup(before, d);
        RemoveFirstNoDup(managersBefore, this);
      }
      self := this;
    }

    method AddManagedSection(s: Section) returns (self: User)
      modifies this`managedSections
      ensures self == this
      ensures managedSections == AddOnce(old(managedSections), s)
    {
      if s !in managedSections {
        managedSections := managedSections + [s];
      }
      self := this;
    }

    method RemoveManagedSection(s: Section) returns (self: User)
      modifies this`managedSections
      ensures self == this
      ensures managedSections == RemoveFirst(old(managedSections), s)
    {
      if s in managedSections {
        managedSections := RemoveFirst(managedSections, s);
      }
      self := this;
    }

    /** The pre-persist / pre-flush validation: it throws exactly when the
        user has both a section and a department and the department's
        sections do not include that section. */
    function CheckSameSectionAsDepartment(): (r: Outcome)
      reads this, department
      ensures r.Fail? <==>
                section != null && department != null && section !in department.sections
      ensures r.Fail? ==> r.error == SectionNotBelongToDepartment
    {
      if section != null && department != null && section !in department.sections
      then Fail(SectionNotBelongToDepartment)
      else Pass
    }
  }

  class Department {
    var name: Option<string>
    var shortName: Option<string>
    var active: Option<bool>
    var users: seq<User>
    var sections: seq<Section>
    var managers: seq<User>

    constructor ()
      ensures users == [] && sections == [] && managers == []
      ensures name == None && shortName == None && active == None
    {
      name, shortName, active := None, None, None;
      users, sections, managers := [], [], [];
    }

    method SetName(n: string) returns (self: Department)
      modifies this`name
      ensures name == Some(n) && self == this
    {
      name := Some(n);
      self := this;
    }

    method SetShortName(n: string) returns (self: Department)
      modifies this`shortName
      ensures shortName == Some(n) && self == this
    {
      shortName := Some(n);
      self := this;
    }

    method SetActive(b: bool) returns (self: Department)
      modifies this`active
      ensures active == Some(b) && self == this
    {
      active := Some(b);
      self := this;
    }

    /** Every user listed here points back at this department. */
    ghost predicate UsersLinked()
      reads this, users
    {
      forall u :: u in users ==> u.department == this
    }

    /** Every section listed here points back at this department. */
    ghost predicate SectionsLinked()
      reads this, sections
    {
      forall s :: s in sections ==> s.department == this
    }

    method AddUser(u: User) returns (self: Department)
      modifies this`users, u`department
      ensures self == this
      ensures users == AddOnce(old(users), u)
      ensures old(u !in users) ==> u.department == this
      ensures old(u in users) ==> u.department == old(u.department)
      ensures old(UsersLinked()) ==> UsersLinked()
    {
      if u !in users {
        users := users + [u];
        var _ := u.SetDepartment(this);
      }
      self := this;
    }

    method RemoveUser(u: User) returns (self: Department)
      modifies this`users, u`department
      ensures self == this
      ensures users == RemoveFirst(old(users), u)
      ensures old(u in users && u.department == this) ==> u.department == null
      ensures !old(u in users && u.department == this) ==> u.department == old(u.department)
      ensures old(UsersLinked() && NoDup(users)) ==> UsersLinked() && u !in users
    {
      ghost var before := users;
      if u in users {
        users := RemoveFirst(users, u);
        if u.department == this {
          var _ := u.SetDepartment(null);
        }
      }
      if NoDup(before) {
        RemoveFirstNoDup(before, u);
      }
      self := this;
    }

    method AddSection(s: Section) returns (self: Department)
      modifies this`sections, s`department
      ensures self == this
      ensures sections == AddOnce(old(sections), s)
      ensures old(s !in sections) ==> s.department == this
      ensures old(s in sections) ==> s.department == old(s.department)
      ensures old(SectionsLinked()) ==> SectionsLinked()
    {
      if s !in sections {
        sections := sections + [s];
        var _ := s.SetDepartment(this);
      }
      self := this;
    }

    method RemoveSection(s: Section) returns (self: Department)
      modifies this`sections, s`department
      ensures self == this
      ensures sections == RemoveFirst(old(sections), s)
      ensures old(s in sections && s.department == this) ==> s.department == null
      ensures !old(s in sections && s.department == this) ==> s.department == old(s.department)
      ensures old(SectionsLinked() && NoDup(sections)) ==> SectionsLinked() && s !in sections
    {
      ghost var before := sections;
      if s in sections {
        sections := RemoveFirst(sections, s);
        if s.department == this {
          var _ := s.SetDepartment(null);
        }
      }
      if NoDup(before) {
        RemoveFirstNoDup(before, s);
      }
      self := this;
    }

    /** Only the department side changes: no call back into the user. */
    method AddManager(m: User) returns (self: Department)
      modifies this`managers
      ensures self == this
      ensures managers == AddOnce(old(managers), m)
    {
      if m !in managers {
        managers := managers + [m];
      }
      self := this;
    }

    method RemoveManager(m: User) returns (self: Department)
      modifies this`managers
      ensures self == this
      ensures managers == RemoveFirst(old(managers), m)
    {
      if m in managers {
        managers := RemoveFirst(managers, m);
      }
      self := this;
    }
  }
}
