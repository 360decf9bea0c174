/**
 * EmployeeService: the business rules the service applies on top of the
 * repository.  Its read operations are functions of the stored list; create,
 * update and delete are methods of class EmployeeService, which change the
 * repository object the service holds.  LocalDate.now() is the parameter
 * `today`.  DataAccessException and its wrapping in ServiceException are not
 * modelled, because the file is not.
 */
module Service {
  import opened Wrappers
  import opened JavaInts
  import opened Errors
  import opened JavaText
  import opened Dates
  import opened EmployeeModel
  import opened Repository

  // ---- validateEmployee ----

  /** What validateEmployee demands: both names with text and 2..50 UTF-16 code
      units (String.length) as stored, at least 18 whole years old today, a salary in range, a join date on
      or after the 18th birthday as plusYears computes it, and a department with text.
      Unlike the setters it does not reject a join date in the future. */
  predicate MeetsServiceRules(e: EmployeeRecord, today: LocalDate) {
    && HasText(e.firstName) && MIN_NAME_LENGTH <= Utf16Length(e.firstName.value) <= MAX_NAME_LENGTH
    && HasText(e.lastName) && MIN_NAME_LENGTH <= Utf16Length(e.lastName.value) <= MAX_NAME_LENGTH
    && e.dateOfBirth.Some? && PeriodYears(e.dateOfBirth.value, today) >= MIN_AGE
    && MIN_SALARY <= e.salary <= MAX_SALARY
    && e.joinDate.Some? && !IsBefore(e.joinDate.value, PlusYears(e.dateOfBirth.value, MIN_AGE))
    && HasText(e.department)
  }

  /** validateEmployee: the checks in order; the first that fails throws. */
  function ValidateEmployee(employee: Option<EmployeeRecord>, today: LocalDate): (o: Outcome<Error>)
    ensures o.Pass? <==> employee.Some? && MeetsServiceRules(employee.value, today)
    ensures o.Fail? ==> o.error.BusinessValidation?
    ensures employee.None? ==> o == Fail(BusinessValidation(EmployeeNull))
  {
    if employee.None? then Fail(BusinessValidation(EmployeeNull))
    else
      var e := employee.value;
      if !HasText(e.firstName) then Fail(BusinessValidation(FirstNameRequired))
      else if Utf16Length(e.firstName.value) < MIN_NAME_LENGTH || Utf16Length(e.firstName.value) > MAX_NAME_LENGTH then
        Fail(BusinessValidation(FirstNameLength))
      else if !HasText(e.lastName) then Fail(BusinessValidation(LastNameRequired))
      else if Utf16Length(e.lastName.value) < MIN_NAME_LENGTH || Utf16Length(e.lastName.value) > MAX_NAME_LENGTH then
        Fail(BusinessValidation(LastNameLength))
      else if e.dateOfBirth.None? then Fail(BusinessValidation(DateOfBirthRequired))
      else if IsAfter(e.dateOfBirth.value, MinusYears(today, MIN_AGE)) then
        AgeByMinusYears(e.dateOfBirth.value, today, MIN_AGE);
        Fail(BusinessValidation(TooYoung))
      else if e.salary < MIN_SALARY then Fail(BusinessValidation(SalaryNegative))
      else if e.salary > MAX_SALARY then Fail(BusinessValidation(SalaryTooHigh))
      else if e.joinDate.None? then Fail(BusinessValidation(JoinDateRequired))
      else if IsBefore(e.joinDate.value, PlusYears(e.dateOfBirth.value, MIN_AGE)) then
        Fail(BusinessValidation(TooYoungAtJoin))
      else if !HasText(e.department) then Fail(BusinessValidation(DepartmentRequired))
      else
        AgeByMinusYears(e.dateOfBirth.value, today, MIN_AGE);
        Pass
  }

  /** An employee that satisfies every setter rule passes validateEmployee too, as long
      as its names and department are not made only of Unicode spaces that trim()
      keeps (see WhitespaceNameSetterOnly). */
  lemma ServiceAcceptsSetterValid(e: EmployeeRecord, today: LocalDate)
    requires WellFormed(e) && SatisfiesSetterRules(e, today)
    requires HasText(e.firstName) && HasText(e.lastName) && HasText(e.department)
    ensures ValidateEmployee(Some(e), today) == Pass
  {
    AgeByPlusYears(e.dateOfBirth.value, e.joinDate.value, MIN_AGE);
  }

  /** setFirstName accepts a name of two ideographic spaces (trim() keeps them), but
      validateEmployee rejects it, since hasText counts them as whitespace. */
  lemma WhitespaceNameSetterOnly(today: LocalDate)
    ensures var name := "\U{3000}\U{3000}";
      var r := SetFirstNameStep(Blank, Some(name));
      && r == Success(Blank.(firstName := Some(name)))
      && ValidateEmployee(Some(r.value), today) == Fail(BusinessValidation(FirstNameRequired))
  {
    var name := "\U{3000}\U{3000}";
    assert IsTrimmed(name);
    TrimOfTrimmed(name);
    assert IsBlank(name);
  }

  /** For someone born on 29 February the two join-date rules disagree: on 28 February
      of their 18th year setJoinDate rejects the date, validateEmployee accepts it. */
  lemma JoinRulesDisagreeOnLeapDay()
    ensures var dob, join, today := Ymd(2004, 2, 29), Ymd(2022, 2, 28), Ymd(2024, 6, 1);
      && SetJoinDateStep(Blank.(dateOfBirth := Some(dob)), Some(join), today) ==
         Failure(BusinessValidation(TooYoungAtJoin))
      && !IsBefore(join, PlusYears(dob, MIN_AGE))
  {
    var dob, join := Ymd(2004, 2, 29), Ymd(2022, 2, 28);
    AgeByPlusYears(dob, join, MIN_AGE);
  }

  // ---- checkForExistingEmployee and createEmployee ----

  /** checkForExistingEmployee: a positive id that is already stored is a duplicate;
      id 0 and negative ids are never checked. */
  function CheckForExistingEmployee(store: seq<EmployeeRecord>, e: EmployeeRecord): (o: Outcome<Error>)
    ensures o.Pass? <==> e.id <= 0 || !HasId(store, e.id)
    ensures o.Fail? ==> o.error == BusinessValidation(DuplicateId)
  {
    if e.id > 0 && ExistsById(store, e.id) then Fail(BusinessValidation(DuplicateId)) else Pass
  }

  /** The checks of createEmployee before it saves: validateEmployee, then the
      duplicate check. */
  function CreateChecks(store: seq<EmployeeRecord>, employee: Option<EmployeeRecord>, today: LocalDate): (o: Outcome<Error>)
    ensures o.Pass? <==>
      employee.Some? && MeetsServiceRules(employee.value, today) &&
      (employee.value.id <= 0 || !HasId(store, employee.value.id))
    ensures o.Fail? ==> o.error.BusinessValidation?
  {
    match ValidateEmployee(employee, today)
    case Fail(error) => Fail(error)
    case Pass => CheckForExistingEmployee(store, employee.value)
  }

  /** The state of an Employee argument that may be null. */
  function RecordOf(employee: Option<Employee>): Option<EmployeeRecord>
    reads if employee.Some? then {employee.value} else {}
  {
    if employee.Some? then Some(employee.value.Record()) else None
  }

  /** A created employee with a positive id is then found by getEmployeeById. */
  lemma CreatedIsFound(store: seq<EmployeeRecord>, e: EmployeeRecord, today: LocalDate)
    requires CreateChecks(store, Some(e), today).Pass? && e.id > 0
    ensures GetEmployeeById(store + [e], e.id) == Success(e)
  {
    SaveThenFind(store, e);
  }

  /** Creating a second employee with the positive id of one just created fails:
      validateEmployee may reject it first, and otherwise the id is a duplicate. */
  lemma CreateTwiceRejected(store: seq<EmployeeRecord>, e: EmployeeRecord, again: EmployeeRecord, today: LocalDate)
    requires CreateChecks(store, Some(e), today).Pass? && e.id > 0 && again.id == e.id
    ensures CreateChecks(store + [e], Some(again), today).Fail?
    ensures MeetsServiceRules(again, today) ==>
      CreateChecks(store + [e], Some(again), today) == Fail(BusinessValidation(DuplicateId))
  {
    assert e in store + [e];
  }

  // ---- Unique ids ----

  /** No positive id occurs twice.  Id 0 may repeat: createEmployee does not check it. */
  predicate UniquePositiveIds(s: seq<EmployeeRecord>) {
    s == [] || ((s[0].id > 0 ==> !HasId(s[1..], s[0].id)) && UniquePositiveIds(s[1..]))
  }

  /** createEmployee keeps positive ids unique. */
  lemma {:induction false} CreateKeepsIdsUnique(store: seq<EmployeeRecord>, e: EmployeeRecord, today: LocalDate)
    requires UniquePositiveIds(store)
    requires CreateChecks(store, Some(e), today).Pass?
    ensures UniquePositiveIds(store + [e])
  {
    AppendKeepsIdsUnique(store, e);
  }

  lemma {:induction false} AppendKeepsIdsUnique(store: seq<EmployeeRecord>, e: EmployeeRecord)
    requires UniquePositiveIds(store)
    requires e.id <= 0 || !HasId(store, e.id)
    ensures UniquePositiveIds(store + [e])
  {
    if store != [] {
      var s := store + [e];
      assert s[1..] == store[1..] + [e];
      assert s[0] == store[0];
      assert forall x :: x in store[1..] ==> x in store;
      AppendKeepsIdsUnique(store[1..], e);
      if store[0].id > 0 {
        assert store[0] in store;
        assert forall x :: x in s[1..] ==> x in store[1..] || x == e;
      }
    } else {
      assert [] + [e] == [e];
    }
  }

  /** A filter keeps positive ids unique: deleteEmployee does. */
  lemma {:induction false} FilterKeepsIdsUnique(s: seq<EmployeeRecord>, p: EmployeeRecord -> bool)
    requires UniquePositiveIds(s)
    ensures UniquePositiveIds(Filter(s, p))
  {
    if s != [] {
      FilterKeepsIdsUnique(s[1..], p);
      var rest := Filter(s[1..], p);
      if p(s[0]) {
        assert Filter(s, p) == [s[0]] + rest;
        assert ([s[0]] + rest)[1..] == rest;
      } else {
        assert Filter(s, p) == rest;
      }
    }
  }

  /** deleteEmployee keeps positive ids unique. */
  lemma DeleteKeepsIdsUnique(store: seq<EmployeeRecord>, id: int32)
    requires UniquePositiveIds(store) && DeleteById(store, id).Success?
    ensures UniquePositiveIds(DeleteById(store, id).value)
  {
    FilterKeepsIdsUnique(store, OtherId(id));
  }

  /** update's map never changes an id, so it keeps positive ids unique. */
  lemma {:induction false} ReplaceKeepsIdsUnique(store: seq<EmployeeRecord>, e: EmployeeRecord)
    requires UniquePositiveIds(store)
    ensures UniquePositiveIds(ReplaceById(store, e))
  {
    if store != [] {
      var r := ReplaceById(store, e);
      assert r[1..] == ReplaceById(store[1..], e);
      ReplaceKeepsIdsUnique(store[1..], e);
      ReplaceKeepsHasId(store[1..], e, store[0].id);
    }
  }

  lemma ReplaceKeepsHasId(store: seq<EmployeeRecord>, e: EmployeeRecord, id: int32)
    ensures HasId(ReplaceById(store, e), id) <==> HasId(store, id)
  {
    var r := ReplaceById(store, e);
    if HasId(r, id) {
      var x :| x in r && x.id == id;
      var i :| 0 <= i < |r| && r[i] == x;
      assert store[i] in store;
    }
    if HasId(store, id) {
      var x :| x in store && x.id == id;
      var i :| 0 <= i < |store| && store[i] == x;
      assert r[i] in r;
    }
  }

  // ---- getEmployeeById, the searches ----

  /** getEmployeeById: ids below 1 are rejected before the repository is asked, and
      the repository's EmployeeNotFoundException becomes NotFoundException. */
  function GetEmployeeById(store: seq<EmployeeRecord>, id: int32): (r: Result<EmployeeRecord, Error>)
    ensures r.Success? <==> id > 0 && HasId(store, id)
    ensures r.Success? ==> r == FindById(store, id)
    ensures r.Failure? ==>
      r.error == if id <= 0 then BusinessValidation(InvalidEmployeeId) else NotFound(id as int)
  {
    if id <= 0 then Failure(BusinessValidation(InvalidEmployeeId))
    else match FindById(store, id)
      case Success(e) => Success(e)
      case Failure(_) => Failure(NotFound(id as int))
  }

  /** searchEmployeesByName: a term of fewer than two UTF-16 code units after
      trimming is rejected; otherwise the lower-cased term goes to the repository, whose own
      emptiness check then cannot fire. */
  function SearchEmployeesByName(store: seq<EmployeeRecord>, name: string): (r: Result<seq<EmployeeRecord>, Error>)
    ensures r.Failure? ==> r.error in {BusinessValidation(SearchTermTooShort), NullPointer}
    ensures r == Failure(BusinessValidation(SearchTermTooShort)) <==> Utf16Length(Trim(name)) < 2
    ensures r.Success? ==> r.value == Filter(store, NameFilter(ToLower(name)))
    ensures Utf16Length(Trim(name)) >= 2 ==> r == FilterByName(store, ToLower(name))
  {
    if Utf16Length(Trim(name)) < 2 then Failure(BusinessValidation(SearchTermTooShort))
    else
      TrimLower(name);
      ToLowerIdempotent(name);
      FindByNameContaining(store, Some(ToLower(name)))
  }

  /** One letter beyond U+FFFF is two UTF-16 units, so it is a long enough search
      term, and the search runs. */
  lemma SupplementarySearchTerm(store: seq<EmployeeRecord>)
    ensures SearchEmployeesByName(store, "\U{1D49C}") == FilterByName(store, ToLower("\U{1D49C}"))
  {
    var term := "\U{1D49C}";
    assert Utf16Length(term) == 2;
    TrimOfTrimmed(term);
  }

  /** validateSalaryRange: the repository's three checks, as BusinessValidationException. */
  function ValidateSalaryRange(from: Option<real>, to: Option<real>): (o: Outcome<Error>)
    ensures o.Pass? <==> ValidateSalaryParameters(from, to).Pass?
    ensures o.Fail? ==> o.error.BusinessValidation?
  {
    if from.Some? && from.value < 0.0 then Fail(BusinessValidation(MinSalaryNegative))
    else if to.Some? && to.value < 0.0 then Fail(BusinessValidation(MaxSalaryNegative))
    else if from.Some? && to.Some? && from.value > to.value then Fail(BusinessValidation(MinSalaryExceedsMax))
    else Pass
  }

  /** filterEmployeesBySalary: the service's check runs first, so the repository's
      IllegalArgumentException never reaches the caller. */
  function FilterEmployeesBySalary(store: seq<EmployeeRecord>, from: Option<real>, to: Option<real>): (r: Result<seq<EmployeeRecord>, Error>)
    ensures r.Success? <==> SalaryBoundsOk(from, to)
    ensures r.Failure? ==> r.error.BusinessValidation?
    ensures r.Success? ==> forall e :: e in r.value <==>
      e in store && (from.None? || from.value <= e.salary) && (to.None? || e.salary <= to.value)
    ensures r.Success? ==> r.value == Filter(store, InSalaryRange(from, to))
  {
    match ValidateSalaryRange(from, to)
    case Fail(error) => Failure(error)
    case Pass => FindBySalaryRange(store, from, to)
  }

  /** getEmployees: a name with text wins and is trimmed before the search; else
      a salary bound selects the range query; else every employee. */
  function GetEmployees(store: seq<EmployeeRecord>, name: Option<string>, from: Option<real>, to: Option<real>): (r: Result<seq<EmployeeRecord>, Error>)
    ensures HasText(name) ==>
      && (r == Failure(BusinessValidation(SearchTermTooShort)) <==> Utf16Length(Trim(name.value)) < 2)
      && (Utf16Length(Trim(name.value)) >= 2 ==> r == FilterByName(store, ToLower(Trim(name.value))))
    ensures !HasText(name) && (from.Some? || to.Some?) ==>
      && (r.Success? <==> SalaryBoundsOk(from, to))
      && (r.Failure? ==> r.error.BusinessValidation?)
      && (r.Success? ==> r.value == Filter(store, InSalaryRange(from, to)))
    ensures !HasText(name) && from.None? && to.None? ==> r == Success(store)
  {
    if HasText(name) then
      TrimIdempotent(name.value);
      SearchEmployeesByName(store, Trim(name.value))
    else if from.Some? || to.Some? then FilterEmployeesBySalary(store, from, to)
    else Success(store)
  }

  /** The lambda of getEmployeesByDepartment: department.equalsIgnoreCase(e.getDepartment()). */
  function InDepartment(department: string): EmployeeRecord -> bool {
    (e: EmployeeRecord) => EqualsIgnoreCase(department, e.department)
  }

  /** getEmployeesByDepartment: the employees whose department equals the argument
      up to case; an argument without text is rejected. */
  function GetEmployeesByDepartment(store: seq<EmployeeRecord>, department: Option<string>): (r: Result<seq<EmployeeRecord>, Error>)
    ensures r.Failure? <==> !HasText(department)
    ensures r.Failure? ==> r.error == BusinessValidation(DepartmentEmpty)
    ensures r.Success? ==> forall e :: e in r.value <==>
      e in store && e.department.Some? && ToLower(e.department.value) == ToLower(department.value)
    ensures r.Success? ==> r.value == Filter(store, InDepartment(department.value))
  {
    if !HasText(department) then Failure(BusinessValidation(DepartmentEmpty))
    else Success(Filter(store, InDepartment(department.value)))
  }

  /** The department query does not depend on the case of its argument. */
  lemma DepartmentQueryIgnoresCase(store: seq<EmployeeRecord>, department: string)
    ensures GetEmployeesByDepartment(store, Some(department)) ==
            GetEmployeesByDepartment(store, Some(ToLower(department)))
  {
    HasTextLower(department);
    ToLowerIdempotent(department);
    FilterCongruent(store, InDepartment(department), InDepartment(ToLower(department)));
  }

  // ---- applyUpdates and updateEmployee ----

  /** The state applyUpdates leaves: the target's fields, and whether a setter threw. */
  datatype Applied = Applied(record: EmployeeRecord, outcome: Outcome<Error>)

  /** One guarded setter call of applyUpdates: skipped when its guard is false or an
      earlier setter threw; a setter that throws leaves the fields as they were. */
  function Continue(a: Applied, guard: bool, step: Result<EmployeeRecord, Error>): Applied {
    if a.outcome.Fail? || !guard then a
    else if step.Success? then Applied(step.value, Pass)
    else Applied(a.record, Fail(step.error))
  }

  /** The text of a reference that may be null (empty for null; only read under a guard). */
  function TextOf(s: Option<string>): string {
    if s.Some? then s.value else []
  }

  // The six guarded setter calls of applyUpdates, in order.
  function UpdateFirstName(a: Applied, s: EmployeeRecord): Applied {
    Continue(a, HasText(s.firstName), SetFirstNameStep(a.record, Some(Trim(TextOf(s.firstName)))))
  }

  function UpdateLastName(a: Applied, s: EmployeeRecord): Applied {
    Continue(a, HasText(s.lastName), SetLastNameStep(a.record, Some(Trim(TextOf(s.lastName)))))
  }

  function UpdateDateOfBirth(a: Applied, s: EmployeeRecord, today: LocalDate): Applied {
    Continue(a, s.dateOfBirth.Some?, SetDateOfBirthStep(a.record, s.dateOfBirth, today))
  }

  function UpdateSalary(a: Applied, s: EmployeeRecord): Applied {
    Continue(a, s.salary > 0.0, SetSalaryStep(a.record, s.salary))
  }

  function UpdateJoinDate(a: Applied, s: EmployeeRecord, today: LocalDate): Applied {
    Continue(a, s.joinDate.Some?, SetJoinDateStep(a.record, s.joinDate, today))
  }

  function UpdateDepartment(a: Applied, s: EmployeeRecord): Applied {
    Continue(a, HasText(s.department), SetDepartmentStep(a.record, Some(Trim(TextOf(s.department)))))
  }

  /** applyUpdates: each field of the source that is set (a name or department with
      text, a date, a positive salary) is passed through the target's setter. */
  function ApplyUpdatesSteps(e: EmployeeRecord, s: EmployeeRecord, today: LocalDate): Applied {
    UpdateEmployment(UpdatePerson(Applied(e, Pass), s, today), s, today)
  }

  /** The first three calls: the names and the date of birth. */
  function UpdatePerson(a: Applied, s: EmployeeRecord, today: LocalDate): Applied {
    UpdateDateOfBirth(UpdateLastName(UpdateFirstName(a, s), s), s, today)
  }

  /** The last three calls: the salary, the join date and the department. */
  function UpdateEmployment(a: Applied, s: EmployeeRecord, today: LocalDate): Applied {
    UpdateDepartment(UpdateJoinDate(UpdateSalary(a, s), s, today), s)
  }

  /** The target with every set field of the source taken over. */
  function Merged(e: EmployeeRecord, s: EmployeeRecord): EmployeeRecord {
    e.(firstName := if HasText(s.firstName) then Some(Trim(s.firstName.value)) else e.firstName,
       lastName := if HasText(s.lastName) then Some(Trim(s.lastName.value)) else e.lastName,
       dateOfBirth := if s.dateOfBirth.Some? then s.dateOfBirth else e.dateOfBirth,
       salary := if s.salary > 0.0 then RoundCents(s.salary) else e.salary,
       joinDate := if s.joinDate.Some? then s.joinDate else e.joinDate,
       department := if HasText(s.department) then Some(Trim(s.department.value)) else e.department)
  }

  /** applyUpdates never changes the id; when no setter throws, the target ends up
      with every set field of the source (names and department trimmed, the salary
      rounded to cents) and keeps its own value for every other field. */
  lemma ApplyUpdatesMerges(e: EmployeeRecord, s: EmployeeRecord, today: LocalDate)
    ensures ApplyUpdatesSteps(e, s, today).record.id == e.id
    ensures ApplyUpdatesSteps(e, s, today).outcome.Pass? ==> ApplyUpdatesSteps(e, s, today).record == Merged(e, s)
  {
    var a := UpdatePerson(Applied(e, Pass), s, today);
    PersonMerges(e, s, today);
    if a.outcome.Pass? {
      EmploymentMerges(a.record, s, today);
    }
  }

  lemma PersonMerges(e: EmployeeRecord, s: EmployeeRecord, today: LocalDate)
    ensures var a := UpdatePerson(Applied(e, Pass), s, today);
      && a.record.id == e.id
      && (a.outcome.Pass? ==> a.record == Merged(e, s).(salary := e.salary, joinDate := e.joinDate, department := e.department))
  {
    TrimIdempotent(TextOf(s.firstName));
    TrimIdempotent(TextOf(s.lastName));
  }

  lemma EmploymentMerges(e: EmployeeRecord, s: EmployeeRecord, today: LocalDate)
    ensures var a := UpdateEmployment(Applied(e, Pass), s, today);
      && a.record.id == e.id
      && (a.outcome.Pass? ==> a.record == Merged(e, s).(firstName := e.firstName, lastName := e.lastName, dateOfBirth := e.dateOfBirth))
  {
    TrimIdempotent(TextOf(s.department));
  }

  /** An update payload with nothing set (Java's default values) changes nothing. */
  lemma EmptyUpdatesChangeNothing(e: EmployeeRecord, today: LocalDate)
    ensures ApplyUpdatesSteps(e, Blank, today) == Applied(e, Pass)
  {
  }

  /** applyUpdates on the Employee object: a setter that throws ends it, leaving
      the fields the earlier setters changed as they now are. */
  method ApplyUpdates(target: Employee, source: EmployeeRecord, today: LocalDate) returns (outcome: Outcome<Error>)
    requires target.Valid()
    modifies target
    ensures target.Valid()
    ensures Applied(target.Record(), outcome) == ApplyUpdatesSteps(old(target.Record()), source, today)
  {
    outcome := ApplyPersonUpdates(target, source, today);
    if outcome.Pass? {
      outcome := ApplyEmploymentUpdates(target, source, today);
    }
  }

  method ApplyPersonUpdates(target: Employee, source: EmployeeRecord, today: LocalDate) returns (outcome: Outcome<Error>)
    requires target.Valid()
    modifies target
    ensures target.Valid()
    ensures Applied(target.Record(), outcome) == UpdatePerson(Applied(old(target.Record()), Pass), source, today)
  {
    outcome := Pass;
    ghost var a0 := Applied(target.Record(), Pass);
    if HasText(source.firstName) {
      outcome := target.SetFirstName(Some(Trim(source.firstName.value)));
    }
    ghost var a1 := UpdateFirstName(a0, source);
    assert Applied(target.Record(), outcome) == a1;
    if outcome.Fail? {
      assert UpdatePerson(a0, source, today) == a1;
      return;
    }
    if HasText(source.lastName) {
      outcome := target.SetLastName(Some(Trim(source.lastName.value)));
    }
    ghost var a2 := UpdateLastName(a1, source);
    assert Applied(target.Record(), outcome) == a2;
    if outcome.Fail? {
      assert UpdatePerson(a0, source, today) == a2;
      return;
    }
    if source.dateOfBirth.Some? {
      outcome := target.SetDateOfBirth(source.dateOfBirth, today);
    }
    assert Applied(target.Record(), outcome) == UpdateDateOfBirth(a2, source, today);
  }

  method ApplyEmploymentUpdates(target: Employee, source: EmployeeRecord, today: LocalDate) returns (outcome: Outcome<Error>)
    requires target.Valid()
    modifies target
    ensures target.Valid()
    ensures Applied(target.Record(), outcome) == UpdateEmployment(Applied(old(target.Record()), Pass), source, today)
  {
    outcome := Pass;
    ghost var a := Applied(target.Record(), Pass);
    if source.salary > 0.0 {
      outcome := target.SetSalary(source.salary);
    }
    a := UpdateSalary(a, source);
    assert Applied(target.Record(), outcome) == a;
    if outcome.Fail? { return; }
    if source.joinDate.Some? {
      outcome := target.SetJoinDate(source.joinDate, today);
    }
    a := UpdateJoinDate(a, source, today);
    assert Applied(target.Record(), outcome) == a;
    if outcome.Fail? { return; }
    if HasText(source.department) {
      outcome := target.SetDepartment(Some(Trim(source.department.value)));
    }
  }

  /** updateEmployee up to the repository call: look the employee up, apply the
      updates to a copy (a null payload throws NullPointerException), validate. */
  function UpdateSteps(store: seq<EmployeeRecord>, id: int32, updates: Option<EmployeeRecord>, today: LocalDate): Result<EmployeeRecord, Error> {
    var existing :- GetEmployeeById(store, id);
    if updates.None? then Failure(NullPointer)
    else
      var a := ApplyUpdatesSteps(existing, updates.value, today);
      if a.outcome.Fail? then Failure(a.outcome.error)
      else match ValidateEmployee(Some(a.record), today)
        case Fail(error) => Failure(error)
        case Pass => Success(a.record)
  }

  /** A successful update keeps the id, stores the stored employee merged with the
      payload, meets the service rules, and is what getEmployeeById then returns. */
  lemma UpdateMeaning(store: seq<EmployeeRecord>, id: int32, updates: Option<EmployeeRecord>, today: LocalDate)
    requires UpdateSteps(store, id, updates, today).Success?
    ensures var v := UpdateSteps(store, id, updates, today).value;
      && v.id == id
      && v == Merged(FindById(store, id).value, updates.value)
      && MeetsServiceRules(v, today)
      && GetEmployeeById(ReplaceById(store, v), id) == Success(v)
  {
    var existing := FindById(store, id).value;
    ApplyUpdatesMerges(existing, updates.value, today);
    var v := UpdateSteps(store, id, updates, today).value;
    UpdateThenFind(store, v, id);
  }

  // ---- The service object ----

  class EmployeeService {
    const repository: EmployeeFileRepository

    ghost predicate Valid()
      reads this, repository
    {
      repository.Valid()
    }

    constructor (repository: EmployeeFileRepository)
      requires repository.Valid()
      ensures this.repository == repository && Valid()
    {
      this.repository := repository;
    }

    /** createEmployee: validate, reject a duplicate positive id, then save. */
    method CreateEmployee(employee: Option<Employee>, today: LocalDate) returns (r: Result<Employee, Error>)
      requires Valid() && (employee.Some? ==> employee.value.Valid())
      modifies repository
      ensures Valid()
      ensures var check := CreateChecks(old(repository.employees), RecordOf(employee), today);
        && (r.Success? <==> check.Pass?)
        && (r.Success? ==>
              r.value == employee.value &&
              repository.employees == old(repository.employees) + [employee.value.Record()])
        && (r.Failure? ==> r.error == check.error && repository.employees == old(repository.employees))
    {
      var o := ValidateEmployee(RecordOf(employee), today);
      if o.Fail? {
        return Failure(o.error);
      }
      o := CheckForExistingEmployee(repository.employees, employee.value.Record());
      if o.Fail? {
        return Failure(o.error);
      }
      var saved := repository.Save(employee.value);
      r := Success(saved);
    }

    /** updateEmployee: the stored employee, updated and validated, replaces every
        stored employee with its id; on any failure the file is left alone. */
    method UpdateEmployee(id: int32, updates: Option<EmployeeRecord>, today: LocalDate) returns (r: Result<Employee, Error>)
      requires Valid()
      modifies repository
      ensures Valid()
      ensures var spec := UpdateSteps(old(repository.employees), id, updates, today);
        && (r.Success? <==> spec.Success?)
        && (r.Success? ==>
              fresh(r.value) && r.value.Valid() && r.value.Record() == spec.value &&
              repository.employees == ReplaceById(old(repository.employees), spec.value))
        && (r.Failure? ==> r.error == spec.error && repository.employees == old(repository.employees))
    {
      var found := GetEmployeeById(repository.employees, id);
      if found.Failure? {
        return Failure(found.error);
      }
      var existing := new Employee.Copy(found.value);
      if updates.None? {
        return Failure(NullPointer);
      }
      var o := ApplyUpdates(existing, updates.value, today);
      if o.Fail? {
        return Failure(o.error);
      }
      o := ValidateEmployee(Some(existing.Record()), today);
      if o.Fail? {
        return Failure(o.error);
      }
      var updated := repository.Update(existing);
      r := Success(updated);
    }

    /** deleteEmployee: the repository's EmployeeNotFoundException becomes NotFoundException. */
    method DeleteEmployee(id: int32) returns (outcome: Outcome<Error>)
      requires Valid()
      modifies repository
      ensures Valid()
      ensures var r := DeleteById(old(repository.employees), id);
        && (outcome.Pass? <==> r.Success?)
        && (outcome.Fail? ==> outcome.error == NotFound(id as int))
        && repository.employees == (if r.Success? then r.value else old(repository.employees))
    {
      var o := repository.Delete(id);
      if o.Fail? {
        outcome := Fail(NotFound(id as int));
      } else {
        outcome := Pass;
      }
    }

    /** createEmployeeFromStrings: the same steps as Employee.fromStrings; the
        NumberFormatException it catches is already turned into a validation error. */
    method CreateEmployeeFromStrings(id: int32, firstName: Option<string>, lastName: Option<string>,
                                     dobText: Option<string>, salaryText: Option<string>, joinText: Option<string>,
                                     department: Option<string>, today: LocalDate)
      returns (r: Result<Employee, Error>)
      ensures var spec := FromStringsSteps(id, firstName, lastName, dobText, salaryText, joinText, department, today);
        && (r.Success? <==> spec.Success?)
        && (r.Success? ==> fresh(r.value) && r.value.Valid() && r.value.Record() == spec.value)
        && (r.Failure? ==> r.error == spec.error)
    {
      r := Employee.FromStrings(id, firstName, lastName, dobText, salaryText, joinText, department, today);
    }
  }
}
