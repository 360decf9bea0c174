/**
 * The Employee entity.  Every field is private and assigned only through a
 * setter that validates first and throws BusinessValidationException before
 * assigning, so a failed set changes nothing.  The setters are modelled twice:
 * as pure steps on the record of field values (the *Step functions), and as
 * the methods of class Employee, whose contracts tie each call to its step.
 * LocalDate.now() is the parameter `today`.
 */
module EmployeeModel {
  import opened Wrappers
  import opened JavaInts
  import opened Errors
  import opened JavaText
  import opened Dates
  import JavaNumbers

  const MIN_NAME_LENGTH := 2
  const MAX_NAME_LENGTH := 50
  const MIN_SALARY: real := 0.0
  const MAX_SALARY: real := 1000000.0
  const MIN_AGE := 18

  /** The seven fields of an Employee; None stands for a null reference. */
  datatype EmployeeRecord = EmployeeRecord(
    id: int32,
    firstName: Option<string>,
    lastName: Option<string>,
    dateOfBirth: Option<LocalDate>,
    salary: real,
    joinDate: Option<LocalDate>,
    department: Option<string>)

  /** The fields of `new Employee()`: Java's default values. */
  const Blank := EmployeeRecord(0, None, None, None, 0.0, None, None)

  /** Math.round(x * 100) / 100.0: half-up rounding to whole cents. */
  function RoundCents(x: real): (r: real)
    ensures x - 0.005 < r <= x + 0.005
  {
    (x * 100.0 + 0.5).Floor as real / 100.0
  }

  /** A whole number of cents. */
  predicate IsCents(x: real) {
    (x * 100.0).Floor as real == x * 100.0
  }

  lemma FloorOfHalf(k: int)
    ensures (k as real + 0.5).Floor == k
  {
  }

  /** A rounded amount is whole cents, and rounding whole cents changes nothing. */
  lemma RoundCentsIdempotent(x: real)
    ensures IsCents(RoundCents(x))
    ensures IsCents(x) ==> RoundCents(x) == x
  {
    var k := (x * 100.0 + 0.5).Floor;
    assert RoundCents(x) * 100.0 == k as real;
    if IsCents(x) {
      var m := (x * 100.0).Floor;
      FloorOfHalf(m);
      assert x * 100.0 + 0.5 == m as real + 0.5;
    }
  }

  /** Rounding keeps a salary inside the accepted range, whose ends are whole cents. */
  lemma RoundCentsInRange(x: real)
    requires MIN_SALARY <= x <= MAX_SALARY
    ensures MIN_SALARY <= RoundCents(x) <= MAX_SALARY
  {
  }

  /** 1234.567 is stored as 1234.57. */
  lemma RoundCentsExample()
    ensures RoundCents(1234.567) == 1234.57
  {
    assert 1234.567 * 100.0 + 0.5 == 123457.2;
  }

  /** A stored (already trimmed) text is its own trim. */
  lemma TrimKeepsTrimmed(text: Option<string>)
    ensures text.Some? && IsTrimmed(text.value) ==> Trim(text.value) == text.value
  {
    if text.Some? && IsTrimmed(text.value) {
      TrimOfTrimmed(text.value);
    }
  }

  predicate ValidName(s: string) {
    IsTrimmed(s) && MIN_NAME_LENGTH <= Utf16Length(s) <= MAX_NAME_LENGTH
  }

  predicate ValidDepartment(s: string) {
    IsTrimmed(s) && s != []
  }

  /** What the setters guarantee of every assigned field, independent of the date:
      the invariant of class Employee. */
  predicate WellFormed(e: EmployeeRecord) {
    && e.id >= 0
    && (e.firstName.Some? ==> ValidName(e.firstName.value))
    && (e.lastName.Some? ==> ValidName(e.lastName.value))
    && MIN_SALARY <= e.salary <= MAX_SALARY && IsCents(e.salary)
    && (e.department.Some? ==> ValidDepartment(e.department.value))
  }

  /** The state after a step: the new record, or the old one when the step threw. */
  function After(e: EmployeeRecord, r: Result<EmployeeRecord, Error>): EmployeeRecord {
    if r.Success? then r.value else e
  }

  // ---- The setters, as steps on the record ----

  /** setId: negative ids are rejected; 0 is accepted. */
  function SetIdStep(e: EmployeeRecord, id: int32): (r: Result<EmployeeRecord, Error>)
    ensures r.Success? <==> id >= 0
    ensures r.Success? ==> r.value == e.(id := id)
    ensures r.Failure? ==> r.error == BusinessValidation(IdNegative)
    ensures WellFormed(e) ==> WellFormed(After(e, r))
  {
    if id < 0 then Failure(BusinessValidation(IdNegative)) else Success(e.(id := id))
  }

  /** The shared rule of setFirstName and setLastName: required, then 2..50
      UTF-16 code units (String.length) after trimming; the trimmed text is what
      is stored. */
  function CheckName(name: Option<string>, required: Violation, length: Violation): (r: Result<string, Error>)
    ensures r.Success? <==> name.Some? && MIN_NAME_LENGTH <= Utf16Length(Trim(name.value)) <= MAX_NAME_LENGTH
    ensures r.Success? ==> r.value == Trim(name.value) && ValidName(r.value)
    ensures r.Failure? ==>
      r.error == BusinessValidation(if name.None? || Trim(name.value) == [] then required else length)
  {
    if name.None? || Trim(name.value) == [] then Failure(BusinessValidation(required))
    else
      var trimmed := Trim(name.value);
      if Utf16Length(trimmed) < MIN_NAME_LENGTH || Utf16Length(trimmed) > MAX_NAME_LENGTH then Failure(BusinessValidation(length))
      else Success(trimmed)
  }

  /** All characters beyond U+FFFF: String.length counts two units for each. */
  lemma {:induction false} Utf16LengthAllWide(s: string)
    requires forall i :: 0 <= i < |s| ==> s[i] as int >= 0x1_0000
    ensures Utf16Length(s) == 2 * |s|
  {
    if s != [] {
      Utf16LengthAllWide(s[..|s| - 1]);
    }
  }

  /** Names are measured in UTF-16 units: one mathematical script letter U+1D49C is
      a two-unit name and is accepted, while 26 of them make 52 units and are
      rejected as too long. */
  lemma SupplementaryNames()
    ensures CheckName(Some("\U{1D49C}"), FirstNameRequired, FirstNameLength) == Success("\U{1D49C}")
    ensures var long := seq(26, i => '\U{1D49C}');
      CheckName(Some(long), FirstNameRequired, FirstNameLength) == Failure(BusinessValidation(FirstNameLength))
  {
    var one := "\U{1D49C}";
    Utf16LengthAllWide(one);
    TrimOfTrimmed(one);
    var long := seq(26, i => '\U{1D49C}');
    Utf16LengthAllWide(long);
    TrimOfTrimmed(long);
    TrimEmptyIff(long);
    assert !IsTrimmable(long[0]);
  }

  function SetFirstNameStep(e: EmployeeRecord, name: Option<string>): (r: Result<EmployeeRecord, Error>)
    ensures r.Success? <==> CheckName(name, FirstNameRequired, FirstNameLength).Success?
    ensures r.Success? ==> r.value == e.(firstName := Some(Trim(name.value)))
    ensures r.Failure? ==> r.error == CheckName(name, FirstNameRequired, FirstNameLength).error
    ensures WellFormed(e) ==> WellFormed(After(e, r))
    ensures WellFormed(e) && name == e.firstName ==> After(e, r) == e
  {
    TrimKeepsTrimmed(name);
    var n :- CheckName(name, FirstNameRequired, FirstNameLength);
    Success(e.(firstName := Some(n)))
  }

  function SetLastNameStep(e: EmployeeRecord, name: Option<string>): (r: Result<EmployeeRecord, Error>)
    ensures r.Success? <==> CheckName(name, LastNameRequired, LastNameLength).Success?
    ensures r.Success? ==> r.value == e.(lastName := Some(Trim(name.value)))
    ensures r.Failure? ==> r.error == CheckName(name, LastNameRequired, LastNameLength).error
    ensures WellFormed(e) ==> WellFormed(After(e, r))
    ensures WellFormed(e) && name == e.lastName ==> After(e, r) == e
  {
    TrimKeepsTrimmed(name);
    var n :- CheckName(name, LastNameRequired, LastNameLength);
    Success(e.(lastName := Some(n)))
  }

  /** setDateOfBirth accepts exactly the people who are at least 18 whole years old
      today; someone born exactly 18 years ago is accepted. */
  function SetDateOfBirthStep(e: EmployeeRecord, dob: Option<LocalDate>, today: LocalDate): (r: Result<EmployeeRecord, Error>)
    ensures r.Success? <==> dob.Some? && PeriodYears(dob.value, today) >= MIN_AGE
    ensures r.Success? ==> r.value == e.(dateOfBirth := dob)
    ensures r.Failure? ==> r.error == BusinessValidation(if dob.None? then DateOfBirthRequired else TooYoung)
    ensures WellFormed(e) ==> WellFormed(After(e, r))
  {
    if dob.None? then Failure(BusinessValidation(DateOfBirthRequired))
    else
      AgeByMinusYears(dob.value, today, MIN_AGE);
      if IsAfter(dob.value, MinusYears(today, MIN_AGE)) then Failure(BusinessValidation(TooYoung))
      else Success(e.(dateOfBirth := dob))
  }

  /** setSalary accepts [0, 1,000,000], both ends included, and stores the amount
      rounded to whole cents. */
  function SetSalaryStep(e: EmployeeRecord, salary: real): (r: Result<EmployeeRecord, Error>)
    ensures r.Success? <==> MIN_SALARY <= salary <= MAX_SALARY
    ensures r.Success? ==> r.value == e.(salary := RoundCents(salary))
    ensures r.Failure? ==> r.error == BusinessValidation(if salary < MIN_SALARY then SalaryNegative else SalaryTooHigh)
    ensures WellFormed(e) ==> WellFormed(After(e, r))
    ensures WellFormed(e) && salary == e.salary ==> After(e, r) == e
  {
    if salary < MIN_SALARY then Failure(BusinessValidation(SalaryNegative))
    else if salary > MAX_SALARY then Failure(BusinessValidation(SalaryTooHigh))
    else
      RoundCentsIdempotent(salary);
      RoundCentsInRange(salary);
      Success(e.(salary := RoundCents(salary)))
  }

  /** setJoinDate rejects a future date and, only when the date of birth is
      already set, a date less than 18 whole years after it. */
  function SetJoinDateStep(e: EmployeeRecord, join: Option<LocalDate>, today: LocalDate): (r: Result<EmployeeRecord, Error>)
    ensures r.Success? <==>
      join.Some? && !IsAfter(join.value, today)
      && (e.dateOfBirth.Some? ==> PeriodYears(e.dateOfBirth.value, join.value) >= MIN_AGE)
    ensures r.Success? ==> r.value == e.(joinDate := join)
    ensures r.Failure? ==> r.error == BusinessValidation(
      if join.None? then JoinDateRequired
      else if IsAfter(join.value, today) then JoinDateInFuture
      else TooYoungAtJoin)
    ensures WellFormed(e) ==> WellFormed(After(e, r))
  {
    if join.None? then Failure(BusinessValidation(JoinDateRequired))
    else if IsAfter(join.value, today) then Failure(BusinessValidation(JoinDateInFuture))
    else if e.dateOfBirth.Some? && PeriodYears(e.dateOfBirth.value, join.value) < MIN_AGE then
      Failure(BusinessValidation(TooYoungAtJoin))
    else Success(e.(joinDate := join))
  }

  /** setDepartment rejects null or trim-empty input and stores the trimmed text. */
  function SetDepartmentStep(e: EmployeeRecord, department: Option<string>): (r: Result<EmployeeRecord, Error>)
    ensures r.Success? <==> department.Some? && Trim(department.value) != []
    ensures r.Success? ==>
      r.value == e.(department := Some(Trim(department.value))) && ValidDepartment(r.value.department.value)
    ensures r.Failure? ==> r.error == BusinessValidation(DepartmentRequired)
    ensures WellFormed(e) ==> WellFormed(After(e, r))
    ensures WellFormed(e) && department == e.department ==> After(e, r) == e
  {
    TrimKeepsTrimmed(department);
    if department.None? || Trim(department.value) == [] then Failure(BusinessValidation(DepartmentRequired))
    else Success(e.(department := Some(Trim(department.value))))
  }

  // ---- validate(): every setter again, on the object's own fields ----

  function ValidateSteps(e: EmployeeRecord, today: LocalDate): Result<EmployeeRecord, Error> {
    var e1 :- SetIdStep(e, e.id);
    var e2 :- SetFirstNameStep(e1, e1.firstName);
    var e3 :- SetLastNameStep(e2, e2.lastName);
    var e4 :- SetDateOfBirthStep(e3, e3.dateOfBirth, today);
    var e5 :- SetSalaryStep(e4, e4.salary);
    var e6 :- SetJoinDateStep(e5, e5.joinDate, today);
    SetDepartmentStep(e6, e6.department)
  }

  /** All the setter rules at once: every reference field set, at least 18 today,
      joined no later than today and at least 18 whole years after birth. */
  predicate SatisfiesSetterRules(e: EmployeeRecord, today: LocalDate) {
    && e.firstName.Some? && e.lastName.Some? && e.dateOfBirth.Some? && e.joinDate.Some? && e.department.Some?
    && PeriodYears(e.dateOfBirth.value, today) >= MIN_AGE
    && !IsAfter(e.joinDate.value, today)
    && PeriodYears(e.dateOfBirth.value, e.joinDate.value) >= MIN_AGE
  }

  /** validate() succeeds exactly on the objects that satisfy every setter rule, and
      whether it succeeds or not, it leaves the fields as they were. */
  lemma ValidateMeaning(e: EmployeeRecord, today: LocalDate)
    requires WellFormed(e)
    ensures ValidateSteps(e, today).Success? <==> SatisfiesSetterRules(e, today)
    ensures ValidateSteps(e, today).Success? ==> ValidateSteps(e, today).value == e
  {
    if e.firstName.None? {
      ValidateWithoutFirstName(e, today);
    } else if e.lastName.None? {
      ValidateWithoutLastName(e, today);
    } else if SetDateOfBirthStep(e, e.dateOfBirth, today).Failure? {
      ValidateStopsAtDateOfBirth(e, today);
    } else if SetJoinDateStep(e, e.joinDate, today).Failure? {
      ValidateStopsAtJoinDate(e, today);
    } else {
      ValidateReachesDepartment(e, today);
      DepartmentAgain(e);
    }
  }

  // Every setter, given back the field it stored, either rejects it or leaves the
  // record as it was.  One small lemma per setter keeps each proof's context small.

  lemma IdAgain(e: EmployeeRecord)
    requires WellFormed(e)
    ensures SetIdStep(e, e.id) == Success(e)
  {
  }

  lemma DateOfBirthAgain(e: EmployeeRecord, today: LocalDate)
    requires WellFormed(e)
    ensures SetDateOfBirthStep(e, e.dateOfBirth, today).Success? ==> SetDateOfBirthStep(e, e.dateOfBirth, today) == Success(e)
  {
  }

  lemma SalaryAgain(e: EmployeeRecord)
    requires WellFormed(e)
    ensures SetSalaryStep(e, e.salary) == Success(e)
  {
  }

  lemma JoinDateAgain(e: EmployeeRecord, today: LocalDate)
    requires WellFormed(e)
    ensures SetJoinDateStep(e, e.joinDate, today).Success? ==> SetJoinDateStep(e, e.joinDate, today) == Success(e)
  {
  }

  // validate() on a well-formed record, one lemma per setter at which it can stop.

  lemma ValidateWithoutFirstName(e: EmployeeRecord, today: LocalDate)
    requires WellFormed(e) && e.firstName.None?
    ensures ValidateSteps(e, today) == Failure(BusinessValidation(FirstNameRequired))
  {
    FirstNameAgain(e);
    IdAgain(e);
  }

  lemma ValidateWithoutLastName(e: EmployeeRecord, today: LocalDate)
    requires WellFormed(e) && e.firstName.Some? && e.lastName.None?
    ensures ValidateSteps(e, today) == Failure(BusinessValidation(LastNameRequired))
  {
    FirstNameAgain(e);
    LastNameAgain(e);
    IdAgain(e);
  }

  lemma ValidateStopsAtDateOfBirth(e: EmployeeRecord, today: LocalDate)
    requires WellFormed(e) && e.firstName.Some? && e.lastName.Some?
    requires SetDateOfBirthStep(e, e.dateOfBirth, today).Failure?
    ensures ValidateSteps(e, today) == SetDateOfBirthStep(e, e.dateOfBirth, today)
  {
    FirstNameAgain(e);
    LastNameAgain(e);
    IdAgain(e);
  }

  lemma ValidateStopsAtJoinDate(e: EmployeeRecord, today: LocalDate)
    requires WellFormed(e) && e.firstName.Some? && e.lastName.Some?
    requires SetDateOfBirthStep(e, e.dateOfBirth, today).Success? && SetJoinDateStep(e, e.joinDate, today).Failure?
    ensures ValidateSteps(e, today) == SetJoinDateStep(e, e.joinDate, today)
  {
    FirstNameAgain(e);
    LastNameAgain(e);
    IdAgain(e);
    DateOfBirthAgain(e, today);
    SalaryAgain(e);
  }

  lemma ValidateReachesDepartment(e: EmployeeRecord, today: LocalDate)
    requires WellFormed(e) && e.firstName.Some? && e.lastName.Some?
    requires SetDateOfBirthStep(e, e.dateOfBirth, today).Success? && SetJoinDateStep(e, e.joinDate, today).Success?
    ensures ValidateSteps(e, today) == SetDepartmentStep(e, e.department)
  {
    FirstNameAgain(e);
    LastNameAgain(e);
    IdAgain(e);
    DateOfBirthAgain(e, today);
    SalaryAgain(e);
    JoinDateAgain(e, today);
  }

  /** Setting a stored first name again fails only on null and otherwise changes nothing. */
  lemma FirstNameAgain(e: EmployeeRecord)
    requires WellFormed(e)
    ensures SetFirstNameStep(e, e.firstName) ==
      if e.firstName.Some? then Success(e) else Failure(BusinessValidation(FirstNameRequired))
  {
    if e.firstName.None? {
      assert SetFirstNameStep(e, e.firstName) == Failure(BusinessValidation(FirstNameRequired));
    } else {
      assert After(e, SetFirstNameStep(e, e.firstName)) == e;
      assert SetFirstNameStep(e, e.firstName).Success?;
    }
  }

  lemma LastNameAgain(e: EmployeeRecord)
    requires WellFormed(e)
    ensures SetLastNameStep(e, e.lastName) ==
      if e.lastName.Some? then Success(e) else Failure(BusinessValidation(LastNameRequired))
  {
    if e.lastName.None? {
      assert SetLastNameStep(e, e.lastName) == Failure(BusinessValidation(LastNameRequired));
    } else {
      assert After(e, SetLastNameStep(e, e.lastName)) == e;
      assert SetLastNameStep(e, e.lastName).Success?;
    }
  }

  lemma DepartmentAgain(e: EmployeeRecord)
    requires WellFormed(e)
    ensures SetDepartmentStep(e, e.department) ==
      if e.department.Some? then Success(e) else Failure(BusinessValidation(DepartmentRequired))
  {
    if e.department.None? {
      assert SetDepartmentStep(e, e.department) == Failure(BusinessValidation(DepartmentRequired));
    } else {
      assert After(e, SetDepartmentStep(e, e.department)) == e;
      assert SetDepartmentStep(e, e.department).Success?;
    }
  }

  // ---- The full constructor and fromStrings ----

  /** new Employee(id, firstName, ...): the setters in declaration order, so the
      date of birth is known when the join date is checked. */
  function ConstructSteps(id: int32, firstName: Option<string>, lastName: Option<string>,
                          dateOfBirth: Option<LocalDate>, salary: real, joinDate: Option<LocalDate>,
                          department: Option<string>, today: LocalDate): Result<EmployeeRecord, Error>
  {
    var e1 :- SetIdStep(Blank, id);
    var e2 :- SetFirstNameStep(e1, firstName);
    var e3 :- SetLastNameStep(e2, lastName);
    ConstructTail(e3, dateOfBirth, salary, joinDate, department, today)
  }

  /** The constructor after the names: date of birth, salary, join date, department. */
  function ConstructTail(e: EmployeeRecord, dateOfBirth: Option<LocalDate>, salary: real, joinDate: Option<LocalDate>,
                         department: Option<string>, today: LocalDate): Result<EmployeeRecord, Error>
  {
    var e4 :- SetDateOfBirthStep(e, dateOfBirth, today);
    var e5 :- SetSalaryStep(e4, salary);
    var e6 :- SetJoinDateStep(e5, joinDate, today);
    SetDepartmentStep(e6, department)
  }

  /** A constructed Employee keeps the invariant, satisfies the join-at-18 rule and
      passes validate() on the same day. */
  lemma ConstructedIsValid(id: int32, firstName: Option<string>, lastName: Option<string>,
                           dateOfBirth: Option<LocalDate>, salary: real, joinDate: Option<LocalDate>,
                           department: Option<string>, today: LocalDate)
    requires ConstructSteps(id, firstName, lastName, dateOfBirth, salary, joinDate, department, today).Success?
    ensures var e := ConstructSteps(id, firstName, lastName, dateOfBirth, salary, joinDate, department, today).value;
      WellFormed(e) && SatisfiesSetterRules(e, today) && ValidateSteps(e, today) == Success(e)
  {
    assert WellFormed(Blank);
    var e1 := SetIdStep(Blank, id).value;
    var e2 := SetFirstNameStep(e1, firstName).value;
    var e3 := SetLastNameStep(e2, lastName).value;
    var e4 := SetDateOfBirthStep(e3, dateOfBirth, today).value;
    var e5 := SetSalaryStep(e4, salary).value;
    var e6 := SetJoinDateStep(e5, joinDate, today).value;
    var e := SetDepartmentStep(e6, department).value;
    assert ConstructSteps(id, firstName, lastName, dateOfBirth, salary, joinDate, department, today) == Success(e);
    assert e.dateOfBirth == e5.dateOfBirth == dateOfBirth;
    ValidateMeaning(e, today);
  }

  /** fromStrings' parseDate: anything LocalDate.parse rejects, null included. */
  function ParseDate(text: Option<string>): (r: Result<LocalDate, Error>)
    ensures r.Failure? ==> r.error == BusinessValidation(InvalidDateFormat)
  {
    if text.None? then Failure(BusinessValidation(InvalidDateFormat))
    else match ParseIsoDate(text.value)
      case Some(d) => Success(d)
      case None => Failure(BusinessValidation(InvalidDateFormat))
  }

  /** fromStrings' parseSalary: NumberFormatException becomes a validation error, but
      Double.parseDouble(null) throws NullPointerException, which is not caught. */
  function ParseSalary(text: Option<string>): (r: Result<real, Error>)
    ensures text.None? <==> r == Failure(NullPointer)
  {
    if text.None? then Failure(NullPointer)
    else match JavaNumbers.ParseDouble(text.value)
      case Some(x) => Success(x)
      case None => Failure(BusinessValidation(InvalidSalaryFormat))
  }

  /** Employee.fromStrings: the setters in the same order, each date or amount
      parsed just before its setter runs. */
  function FromStringsSteps(id: int32, firstName: Option<string>, lastName: Option<string>,
                            dobText: Option<string>, salaryText: Option<string>, joinText: Option<string>,
                            department: Option<string>, today: LocalDate): Result<EmployeeRecord, Error>
  {
    var e1 :- SetIdStep(Blank, id);
    var e2 :- SetFirstNameStep(e1, firstName);
    var e3 :- SetLastNameStep(e2, lastName);
    FromStringsTail(e3, dobText, salaryText, joinText, department, today)
  }

  /** fromStrings after the names: each text is parsed just before its setter runs,
      so a bad date of birth is reported before a bad salary text. */
  function FromStringsTail(e: EmployeeRecord, dobText: Option<string>, salaryText: Option<string>,
                           joinText: Option<string>, department: Option<string>, today: LocalDate): Result<EmployeeRecord, Error>
  {
    var dob :- ParseDate(dobText);
    var e4 :- SetDateOfBirthStep(e, Some(dob), today);
    var salary :- ParseSalary(salaryText);
    var e5 :- SetSalaryStep(e4, salary);
    var join :- ParseDate(joinText);
    var e6 :- SetJoinDateStep(e5, Some(join), today);
    SetDepartmentStep(e6, department)
  }

  /** Given the ISO text of the dates and the plain text of an amount of cents,
      fromStrings builds the same Employee as the full constructor. */
  lemma FromStringsAgreesWithConstructor(id: int32, firstName: Option<string>, lastName: Option<string>,
                                         dob: LocalDate, cents: nat, salary: real, join: LocalDate,
                                         department: Option<string>, today: LocalDate)
    requires 0 <= dob.year <= 9999 && 0 <= join.year <= 9999
    requires salary == cents as real / 100.0
    ensures FromStringsSteps(id, firstName, lastName, Some(FormatIsoDate(dob)), Some(JavaNumbers.CentsText(cents)),
                             Some(FormatIsoDate(join)), department, today)
         == ConstructSteps(id, firstName, lastName, Some(dob), salary, Some(join), department, today)
  {
    ParseDateOfFormat(dob);
    ParseDateOfFormat(join);
    ParseSalaryOfCents(cents, salary);
    FromStringsOfParsed(id, firstName, lastName, Some(FormatIsoDate(dob)), Some(JavaNumbers.CentsText(cents)),
                        Some(FormatIsoDate(join)), department, today, dob, salary, join);
  }

  lemma ParseSalaryOfCents(cents: nat, salary: real)
    requires salary == cents as real / 100.0
    ensures ParseSalary(Some(JavaNumbers.CentsText(cents))) == Success(salary)
  {
    JavaNumbers.ParseCentsText(cents);
  }

  lemma ParseDateOfFormat(d: LocalDate)
    requires 0 <= d.year <= 9999
    ensures ParseDate(Some(FormatIsoDate(d))) == Success(d)
  {
    FormatThenParse(d);
  }

  /** When all three texts parse, fromStrings is the constructor on the parsed values. */
  lemma FromStringsOfParsed(id: int32, firstName: Option<string>, lastName: Option<string>,
                            dobText: Option<string>, salaryText: Option<string>, joinText: Option<string>,
                            department: Option<string>, today: LocalDate,
                            dob: LocalDate, salary: real, join: LocalDate)
    requires ParseDate(dobText) == Success(dob) && ParseSalary(salaryText) == Success(salary)
    requires ParseDate(joinText) == Success(join)
    ensures FromStringsSteps(id, firstName, lastName, dobText, salaryText, joinText, department, today)
         == ConstructSteps(id, firstName, lastName, Some(dob), salary, Some(join), department, today)
  {
    var r1 := SetIdStep(Blank, id);
    if r1.Failure? { return; }
    var r2 := SetFirstNameStep(r1.value, firstName);
    if r2.Failure? { return; }
    var r3 := SetLastNameStep(r2.value, lastName);
    if r3.Failure? { return; }
    var r4 := SetDateOfBirthStep(r3.value, Some(dob), today);
    if r4.Failure? { return; }
    var r5 := SetSalaryStep(r4.value, salary);
    if r5.Failure? { return; }
  }

  /** The setters check the join date only against a date of birth that is already
      set, so setting the join date first and the date of birth afterwards can
      build an object that validate() then rejects. */
  lemma OrderDependentJoinCheck()
    ensures var today := Ymd(2024, 6, 1);
      var e1 := SetJoinDateStep(Blank, Some(Ymd(2010, 1, 1)), today);
      e1.Success? &&
      var e2 := SetDateOfBirthStep(e1.value, Some(Ymd(2000, 1, 1)), today);
      e2.Success? && !SatisfiesSetterRules(e2.value, today)
  {
    var today := Ymd(2024, 6, 1);
    assert PeriodYears(Ymd(2000, 1, 1), today) == 24;
    assert PeriodYears(Ymd(2000, 1, 1), Ymd(2010, 1, 1)) == 10;
  }

  // ---- The object ----

  class Employee {
    var id: int32
    var firstName: Option<string>
    var lastName: Option<string>
    var dateOfBirth: Option<LocalDate>
    var salary: real
    var joinDate: Option<LocalDate>
    var department: Option<string>

    function Record(): EmployeeRecord
      reads this
    {
      EmployeeRecord(id, firstName, lastName, dateOfBirth, salary, joinDate, department)
    }

    ghost predicate Valid()
      reads this
    {
      WellFormed(Record())
    }

    /** new Employee() */
    constructor ()
      ensures Valid() && Record() == Blank
    {
      id, firstName, lastName, dateOfBirth := 0, None, None, None;
      salary, joinDate, department := 0.0, None, None;
    }

    /** A copy of a stored record, as the repository hands it out. */
    constructor Copy(r: EmployeeRecord)
      requires WellFormed(r)
      ensures Valid() && Record() == r
    {
      id, firstName, lastName, dateOfBirth := r.id, r.firstName, r.lastName, r.dateOfBirth;
      salary, joinDate, department := r.salary, r.joinDate, r.department;
    }

    method SetId(newId: int32) returns (outcome: Outcome<Error>)
      requires Valid()
      modifies this
      ensures Valid()
      ensures outcome == ToOutcome(SetIdStep(old(Record()), newId))
      ensures Record() == After(old(Record()), SetIdStep(old(Record()), newId))
    {
      if newId < 0 {
        return Fail(BusinessValidation(IdNegative));
      }
      id := newId;
      outcome := Pass;
    }

    method SetFirstName(name: Option<string>) returns (outcome: Outcome<Error>)
      requires Valid()
      modifies this
      ensures Valid()
      ensures outcome == ToOutcome(SetFirstNameStep(old(Record()), name))
      ensures Record() == After(old(Record()), SetFirstNameStep(old(Record()), name))
    {
      if name.None? || Trim(name.value) == [] {
        return Fail(BusinessValidation(FirstNameRequired));
      }
      var trimmed := Trim(name.value);
      if Utf16Length(trimmed) < MIN_NAME_LENGTH || Utf16Length(trimmed) > MAX_NAME_LENGTH {
        return Fail(BusinessValidation(FirstNameLength));
      }
      firstName := Some(trimmed);
      outcome := Pass;
    }

    method SetLastName(name: Option<string>) returns (outcome: Outcome<Error>)
      requires Valid()
      modifies this
      ensures Valid()
      ensures outcome == ToOutcome(SetLastNameStep(old(Record()), name))
      ensures Record() == After(old(Record()), SetLastNameStep(old(Record()), name))
    {
      if name.None? || Trim(name.value) == [] {
        return Fail(BusinessValidation(LastNameRequired));
      }
      var trimmed := Trim(name.value);
      if Utf16Length(trimmed) < MIN_NAME_LENGTH || Utf16Length(trimmed) > MAX_NAME_LENGTH {
        return Fail(BusinessValidation(LastNameLength));
      }
      lastName := Some(trimmed);
      outcome := Pass;
    }

    method SetDateOfBirth(dob: Option<LocalDate>, today: LocalDate) returns (outcome: Outcome<Error>)
      requires Valid()
      modifies this
      ensures Valid()
      ensures outcome == ToOutcome(SetDateOfBirthStep(old(Record()), dob, today))
      ensures Record() == After(old(Record()), SetDateOfBirthStep(old(Record()), dob, today))
    {
      if dob.None? {
        return Fail(BusinessValidation(DateOfBirthRequired));
      }
      if IsAfter(dob.value, MinusYears(today, MIN_AGE)) {
        return Fail(BusinessValidation(TooYoung));
      }
      dateOfBirth := dob;
      outcome := Pass;
    }

    method SetSalary(amount: real) returns (outcome: Outcome<Error>)
      requires Valid()
      modifies this
      ensures Valid()
      ensures outcome == ToOutcome(SetSalaryStep(old(Record()), amount))
      ensures Record() == After(old(Record()), SetSalaryStep(old(Record()), amount))
    {
      if amount < MIN_SALARY {
        return Fail(BusinessValidation(SalaryNegative));
      }
      if amount > MAX_SALARY {
        return Fail(BusinessValidation(SalaryTooHigh));
      }
      RoundCentsIdempotent(amount);
      RoundCentsInRange(amount);
      salary := RoundCents(amount);
      outcome := Pass;
    }

    method SetJoinDate(join: Option<LocalDate>, today: LocalDate) returns (outcome: Outcome<Error>)
      requires Valid()
      modifies this
      ensures Valid()
      ensures outcome == ToOutcome(SetJoinDateStep(old(Record()), join, today))
      ensures Record() == After(old(Record()), SetJoinDateStep(old(Record()), join, today))
    {
      if join.None? {
        return Fail(BusinessValidation(JoinDateRequired));
      }
      if IsAfter(join.value, today) {
        return Fail(BusinessValidation(JoinDateInFuture));
      }
      if dateOfBirth.Some? && PeriodYears(dateOfBirth.value, join.value) < MIN_AGE {
        return Fail(BusinessValidation(TooYoungAtJoin));
      }
      joinDate := join;
      outcome := Pass;
    }

    method SetDepartment(name: Option<string>) returns (outcome: Outcome<Error>)
      requires Valid()
      modifies this
      ensures Valid()
      ensures outcome == ToOutcome(SetDepartmentStep(old(Record()), name))
      ensures Record() == After(old(Record()), SetDepartmentStep(old(Record()), name))
    {
      if name.None? || Trim(name.value) == [] {
        return Fail(BusinessValidation(DepartmentRequired));
      }
      department := Some(Trim(name.value));
      outcome := Pass;
    }

    /** validate(): re-runs every setter on the current fields.  It never changes
        the object, and it passes exactly when the object satisfies every setter rule. */
    method Validate(today: LocalDate) returns (outcome: Outcome<Error>)
      requires Valid()
      modifies this
      ensures Valid() && Record() == old(Record())
      ensures outcome == ToOutcome(ValidateSteps(old(Record()), today))
      ensures outcome.Pass? <==> SatisfiesSetterRules(Record(), today)
    {
      ghost var e := Record();
      ValidateMeaning(e, today);
      outcome := SetId(id);
      IdAgain(e);
      outcome := SetFirstName(firstName);
      FirstNameAgain(e);
      if outcome.Fail? {
        ValidateWithoutFirstName(e, today);
        return;
      }
      outcome := SetLastName(lastName);
      LastNameAgain(e);
      if outcome.Fail? {
        ValidateWithoutLastName(e, today);
        return;
      }
      outcome := SetDateOfBirth(dateOfBirth, today);
      DateOfBirthAgain(e, today);
      if outcome.Fail? {
        ValidateStopsAtDateOfBirth(e, today);
        return;
      }
      outcome := SetSalary(salary);
      SalaryAgain(e);
      outcome := SetJoinDate(joinDate, today);
      JoinDateAgain(e, today);
      if outcome.Fail? {
        ValidateStopsAtJoinDate(e, today);
        return;
      }
      outcome := SetDepartment(department);
      DepartmentAgain(e);
      ValidateReachesDepartment(e, today);
    }

    /** new Employee(id, firstName, lastName, dateOfBirth, salary, joinDate, department):
        a fresh object, or the exception of the first setter that rejects its argument. */
    static method Create(id: int32, firstName: Option<string>, lastName: Option<string>,
                         dateOfBirth: Option<LocalDate>, salary: real, joinDate: Option<LocalDate>,
                         department: Option<string>, today: LocalDate)
      returns (r: Result<Employee, Error>)
      ensures var spec := ConstructSteps(id, firstName, lastName, dateOfBirth, salary, joinDate, department, today);
        && (r.Success? <==> spec.Success?)
        && (r.Success? ==> fresh(r.value) && r.value.Valid() && r.value.Record() == spec.value)
        && (r.Failure? ==> r.error == spec.error)
    {
      var e := new Employee();
      var o := e.SetId(id);
      if o.Fail? { return Failure(o.error); }
      o := e.SetFirstName(firstName);
      if o.Fail? { return Failure(o.error); }
      o := e.SetLastName(lastName);
      if o.Fail? { return Failure(o.error); }
      o := e.SetRemainingFields(dateOfBirth, salary, joinDate, department, today);
      if o.Fail? { return Failure(o.error); }
      r := Success(e);
    }

    /** The rest of the constructor: the four setters after the names, in order. */
    method SetRemainingFields(dateOfBirth: Option<LocalDate>, salary: real, joinDate: Option<LocalDate>,
                              department: Option<string>, today: LocalDate) returns (outcome: Outcome<Error>)
      requires Valid()
      modifies this
      ensures Valid()
      ensures var spec := ConstructTail(old(Record()), dateOfBirth, salary, joinDate, department, today);
        && (outcome.Pass? <==> spec.Success?)
        && (outcome.Pass? ==> Record() == spec.value)
        && (outcome.Fail? ==> outcome.error == spec.error)
    {
      outcome := SetDateOfBirth(dateOfBirth, today);
      if outcome.Fail? { return; }
      outcome := SetSalary(salary);
      if outcome.Fail? { return; }
      outcome := SetJoinDate(joinDate, today);
      if outcome.Fail? { return; }
      outcome := SetDepartment(department);
    }

    /** Employee.fromStrings. */
    static method FromStrings(id: int32, firstName: Option<string>, lastName: Option<string>,
                              dobText: Option<string>, salaryText: Option<string>, joinText: Option<string>,
                              department: Option<string>, today: LocalDate)
      returns (r: Result<Employee, Error>)
      ensures var spec := FromStringsSteps(id, firstName, lastName, dobText, salaryText, joinText, department, today);
        && (r.Success? <==> spec.Success?)
        && (r.Success? ==> fresh(r.value) && r.value.Valid() && r.value.Record() == spec.value)
        && (r.Failure? ==> r.error == spec.error)
    {
      var e := new Employee();
      var o := e.SetId(id);
      if o.Fail? { return Failure(o.error); }
      o := e.SetFirstName(firstName);
      if o.Fail? { return Failure(o.error); }
      o := e.SetLastName(lastName);
      if o.Fail? { return Failure(o.error); }
      o := e.SetParsedFields(dobText, salaryText, joinText, department, today);
      if o.Fail? { return Failure(o.error); }
      r := Success(e);
    }

    /** The rest of fromStrings: parse each text, then call its setter. */
    method SetParsedFields(dobText: Option<string>, salaryText: Option<string>, joinText: Option<string>,
                           department: Option<string>, today: LocalDate) returns (outcome: Outcome<Error>)
      requires Valid()
      modifies this
      ensures Valid()
      ensures var spec := FromStringsTail(old(Record()), dobText, salaryText, joinText, department, today);
        && (outcome.Pass? <==> spec.Success?)
        && (outcome.Pass? ==> Record() == spec.value)
        && (outcome.Fail? ==> outcome.error == spec.error)
    {
      var dob := ParseDate(dobText);
      if dob.Failure? { return Fail(dob.error); }
      outcome := SetDateOfBirth(Some(dob.value), today);
      if outcome.Fail? { return; }
      var amount := ParseSalary(salaryText);
      if amount.Failure? { return Fail(amount.error); }
      outcome := SetSalary(amount.value);
      if outcome.Fail? { return; }
      var join := ParseDate(joinText);
      if join.Failure? { return Fail(join.error); }
      outcome := SetJoinDate(Some(join.value), today);
      if outcome.Fail? { return; }
      outcome := SetDepartment(department);
    }
  }
}
