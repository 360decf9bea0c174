# Employee service: a verified model of its core

The employee service stores employee records in a JSON file. It lets a caller:

- create, read, update and delete employees;
- search them by name, salary range or department.

This project models in Dafny the four classes that hold the service's logic, and proves what they promise:

- **`Employee`** (module `EmployeeModel`, file `Employee.dfy`). The entity has seven fields, and each setter validates its argument before it assigns. The model also covers the full constructor, `validate()` and `fromStrings`.
  - The setters are written twice. Each is a pure step on an `EmployeeRecord` (`SetIdStep` … `SetDepartmentStep`). Each is also a method of `class Employee`, whose contract ties the call to its step.
  - The class invariant `Valid()` says what the setters guarantee of every field they assign.
- **`EmployeeFileRepository`** (module `Repository`, file `Repository.dfy`).
  - The data file is modelled by the list of records it parses to.
  - The stream queries (`findById`, `existsById`, `findByNameContaining`, `findBySalaryRange`) are functions of that list.
  - `save`, `update` and `delete` are methods of `class EmployeeFileRepository`, which holds the list in its field `employees`.
- **`EmployeeService`** (module `Service`, file `Service.dfy`).
  - `validateEmployee`, the duplicate-id check, the `getEmployees` dispatch and the searches are functions of the stored list.
  - `applyUpdates` changes an `Employee` object through its setters.
  - `createEmployee`, `updateEmployee` and `deleteEmployee` are methods of `class EmployeeService` and change the repository object.
- **`ApplicationProperties`** (module `Config`, file `ApplicationProperties.dfy`). This is a class with the six `employee.*` settings and their defaults, plus:
  - setters that reject bad values;
  - the checks of the thread-pool sizes;
  - path resolution.

The Java library behaviour the code relies on is modelled in small supporting modules:

| Module | File | What it models |
|---|---|---|
| `JavaText` | `JavaText.dfy` | `String.trim`, `String.length` in UTF-16 units, `isBlank`, `StringUtils.hasText`, `toLowerCase`, `contains`, `equalsIgnoreCase` |
| `Dates` | `Dates.dfy` | `LocalDate`, `plusYears`/`minusYears`, `Period.between(..).getYears()`, ISO-8601 parse and format |
| `JavaNumbers` | `JavaNumbers.dfy` | the decimal grammar of `Double.parseDouble` |
| `Decimal` | `JavaText.dfy` | decimal digit strings, as `LocalDate` and `Double` read and write them |
| `JavaInts` | `Wrappers.dfy` | Java's 32-bit `int`, as the newtype `int32` |
| `Wrappers` | `Wrappers.dfy` | `Option` for a reference that may be null; `Result` and `Outcome` for a value or void return against a thrown exception |
| `Errors` | `Errors.dfy` | the exceptions, as values |

`LocalDate.now()` is modelled as the parameter `today`. Salaries are `real`, and `Math.round(x * 100) / 100.0` is modelled exactly on reals.

Some behaviour of the code that a reader might not expect, modelled as written:

- `setId` accepts id 0, although its own error message says "ID must be a positive number" (`Employee.java:69-70`).
- `update` with an id that is not stored leaves the list unchanged. The `map` at `EmployeeFileRepository.java:146-148` replaces matching employees and never adds one.
- `setJoinDate` rejects a join date when `Period.between(dob, join).getYears() < 18` (`Employee.java:131`). `validateEmployee` rejects it when `join.isBefore(dob.plusYears(18))` (`EmployeeService.java:141`). The two disagree for someone born on 29 February (`Service.JoinRulesDisagreeOnLeapDay`).
- `validateEmployee` has no check that the join date is not in the future (`EmployeeService.java:110-147`); `setJoinDate` has one.
- Name lengths are `String.length()`, which counts UTF-16 code units: a character beyond U+FFFF counts two. The model measures them with `JavaText.Utf16Length`.

## Model

Source paths are relative to the repository root.

| member | source | states |
|---|---|---|
| EmployeeModel.RoundCents | src/main/java/com/example/employeeservice/model/Employee.java:121 | Math.round(x * 100) / 100.0 lies within half a cent of x (exactly half a cent rounds up) |
| EmployeeModel.RoundCentsIdempotent | src/main/java/com/example/employeeservice/model/Employee.java:121 | the stored salary is a whole number of cents, and a salary already in whole cents is stored unchanged |
| EmployeeModel.RoundCentsInRange | src/main/java/com/example/employeeservice/model/Employee.java:112-121 | rounding an accepted salary keeps it inside [0, 1,000,000] |
| EmployeeModel.RoundCentsExample | src/main/java/com/example/employeeservice/model/Employee.java:121 | 1234.567 is stored as 1234.57 |
| EmployeeModel.SetIdStep | src/main/java/com/example/employeeservice/model/Employee.java:68-73 | setId succeeds iff the id is not negative (0 accepted); on success only the id changes; otherwise BusinessValidation(IdNegative); the invariant is kept |
| EmployeeModel.CheckName | src/main/java/com/example/employeeservice/model/Employee.java:75-99 | a name is accepted iff it is non-null and its trimmed String.length(), in UTF-16 code units, is in [2, 50]; the trimmed text is the result; a null or trim-empty name is "required", any other rejection is "length" |
| EmployeeModel.SupplementaryNames | src/main/java/com/example/employeeservice/model/Employee.java:79-80 | one letter U+1D49C is a two-unit name and is accepted; 26 of them are 52 units and are rejected as too long |
| EmployeeModel.SetFirstNameStep | src/main/java/com/example/employeeservice/model/Employee.java:75-86 | setFirstName succeeds iff the name rule holds, stores exactly the trimmed name and nothing else, and otherwise throws the name rule's required or length error; setting the stored name again changes nothing |
| EmployeeModel.SetLastNameStep | src/main/java/com/example/employeeservice/model/Employee.java:88-99 | as for the first name, on the last name field |
| EmployeeModel.SetDateOfBirthStep | src/main/java/com/example/employeeservice/model/Employee.java:101-110 | setDateOfBirth succeeds iff the date is given and the Period from birth to today is at least 18 whole years; only the date of birth changes; null throws DateOfBirthRequired, a later date TooYoung |
| EmployeeModel.SetSalaryStep | src/main/java/com/example/employeeservice/model/Employee.java:112-122 | setSalary succeeds iff 0 <= salary <= 1,000,000 (both ends accepted); it stores the amount rounded to cents; below range is SalaryNegative, above is SalaryTooHigh |
| EmployeeModel.SetJoinDateStep | src/main/java/com/example/employeeservice/model/Employee.java:124-136 | setJoinDate succeeds iff the date is given, is not after today, and, only when a date of birth is already set, lies at least 18 whole years after it; the error is JoinDateRequired, JoinDateInFuture or TooYoungAtJoin, checked in that order |
| EmployeeModel.SetDepartmentStep | src/main/java/com/example/employeeservice/model/Employee.java:138-143 | setDepartment succeeds iff the text is non-null and not trim-empty, and stores it trimmed |
| EmployeeModel.IdAgain | src/main/java/com/example/employeeservice/model/Employee.java:148 | re-setting the stored id on a well-formed object succeeds and changes nothing |
| EmployeeModel.FirstNameAgain | src/main/java/com/example/employeeservice/model/Employee.java:149 | re-setting the stored first name fails only when it is null and otherwise changes nothing (trim is idempotent) |
| EmployeeModel.LastNameAgain | src/main/java/com/example/employeeservice/model/Employee.java:150 | the same for the last name |
| EmployeeModel.DateOfBirthAgain | src/main/java/com/example/employeeservice/model/Employee.java:151 | re-setting the stored date of birth, when accepted, changes nothing |
| EmployeeModel.SalaryAgain | src/main/java/com/example/employeeservice/model/Employee.java:152 | re-setting the stored salary succeeds and changes nothing (it is already whole cents in range) |
| EmployeeModel.JoinDateAgain | src/main/java/com/example/employeeservice/model/Employee.java:153 | re-setting the stored join date, when accepted, changes nothing |
| EmployeeModel.DepartmentAgain | src/main/java/com/example/employeeservice/model/Employee.java:154 | re-setting the stored department fails only when it is null and otherwise changes nothing |
| EmployeeModel.ValidateWithoutFirstName | src/main/java/com/example/employeeservice/model/Employee.java:146-149 | validate() on an object without a first name throws "first name required" |
| EmployeeModel.ValidateWithoutLastName | src/main/java/com/example/employeeservice/model/Employee.java:146-150 | validate() on an object with a first name but no last name throws "last name required" |
| EmployeeModel.ValidateStopsAtDateOfBirth | src/main/java/com/example/employeeservice/model/Employee.java:146-151 | when the date of birth is rejected, validate() throws exactly what setDateOfBirth throws |
| EmployeeModel.ValidateStopsAtJoinDate | src/main/java/com/example/employeeservice/model/Employee.java:146-153 | when the join date is rejected, validate() throws exactly what setJoinDate throws |
| EmployeeModel.ValidateReachesDepartment | src/main/java/com/example/employeeservice/model/Employee.java:146-154 | when the names and dates are accepted, validate() ends as setDepartment does |
| EmployeeModel.ValidateMeaning | src/main/java/com/example/employeeservice/model/Employee.java:146-155 | on a well-formed object validate() succeeds iff every setter rule holds (all references set, 18 today, join not in the future and 18 years after birth), and then leaves the fields unchanged |
| EmployeeModel.ConstructedIsValid | src/main/java/com/example/employeeservice/model/Employee.java:27-36 | an object the full constructor builds is well-formed, satisfies every setter rule (join at 18 included) and passes validate() unchanged |
| EmployeeModel.ParseDate | src/main/java/com/example/employeeservice/model/Employee.java:172-178 | every failure to parse a date text is BusinessValidation(InvalidDateFormat) |
| EmployeeModel.ParseSalary | src/main/java/com/example/employeeservice/model/Employee.java:180-186 | a null salary text gives NullPointerException (not caught), and only a null text does |
| EmployeeModel.ParseDateOfFormat | src/main/java/com/example/employeeservice/model/Employee.java:172-178 | the ISO text of any date of years 0000-9999 parses back to that date |
| EmployeeModel.ParseSalaryOfCents | src/main/java/com/example/employeeservice/model/Employee.java:180-186 | the plain decimal text of an amount of cents parses to that amount |
| EmployeeModel.FromStringsOfParsed | src/main/java/com/example/employeeservice/model/Employee.java:158-170 | when the three texts parse, fromStrings builds exactly what the full constructor builds from the parsed values, success or the same exception |
| EmployeeModel.FromStringsAgreesWithConstructor | src/main/java/com/example/employeeservice/model/Employee.java:158-170 | fromStrings on the ISO texts of two dates and the text of an amount of cents agrees with the full constructor on those values |
| EmployeeModel.OrderDependentJoinCheck | src/main/java/com/example/employeeservice/model/Employee.java:124-136 | setting the join date before the date of birth lets both setters succeed on an object that breaks the join-at-18 rule |
| EmployeeModel.Employee.constructor | src/main/java/com/example/employeeservice/model/Employee.java:24-25 | new Employee() holds Java's default values and keeps the invariant |
| EmployeeModel.Employee.Copy | src/main/java/com/example/employeeservice/model/EmployeeFileRepository.java:57-58 | an object read back from the file holds exactly the stored record and keeps the invariant |
| EmployeeModel.Employee.SetId | src/main/java/com/example/employeeservice/model/Employee.java:68-73 | the method throws or returns as SetIdStep says, the fields become the step's record or stay as they were, and the invariant is kept |
| EmployeeModel.Employee.SetFirstName | src/main/java/com/example/employeeservice/model/Employee.java:75-86 | the same, against SetFirstNameStep |
| EmployeeModel.Employee.SetLastName | src/main/java/com/example/employeeservice/model/Employee.java:88-99 | the same, against SetLastNameStep |
| EmployeeModel.Employee.SetDateOfBirth | src/main/java/com/example/employeeservice/model/Employee.java:101-110 | the same, against SetDateOfBirthStep |
| EmployeeModel.Employee.SetSalary | src/main/java/com/example/employeeservice/model/Employee.java:112-122 | the same, against SetSalaryStep |
| EmployeeModel.Employee.SetJoinDate | src/main/java/com/example/employeeservice/model/Employee.java:124-136 | the same, against SetJoinDateStep |
| EmployeeModel.Employee.SetDepartment | src/main/java/com/example/employeeservice/model/Employee.java:138-143 | the same, against SetDepartmentStep |
| EmployeeModel.Employee.Validate | src/main/java/com/example/employeeservice/model/Employee.java:146-155 | validate() never changes the object and passes exactly when the object satisfies every setter rule |
| EmployeeModel.Employee.Create | src/main/java/com/example/employeeservice/model/Employee.java:27-36 | the constructor returns a fresh valid object holding ConstructSteps' record, or throws the first setter's exception |
| EmployeeModel.Employee.FromStrings | src/main/java/com/example/employeeservice/model/Employee.java:158-170 | fromStrings returns a fresh valid object holding FromStringsSteps' record, or throws the first exception of a parse or a setter |
| EmployeeModel.Employee.SetRemainingFields | src/main/java/com/example/employeeservice/model/Employee.java:32-35 | the constructor's last four setter calls, in order, leave the object and outcome ConstructTail describes, keeping the invariant |
| EmployeeModel.Employee.SetParsedFields | src/main/java/com/example/employeeservice/model/Employee.java:165-168 | fromStrings' last four steps, each text parsed just before its setter, leave the object and outcome FromStringsTail describes |
| Dates.AgeByMinusYears | src/main/java/com/example/employeeservice/model/Employee.java:105 | "born no later than today minus n years" holds iff the Period from birth to today is at least n whole years |
| Dates.AgeByPlusYears | src/main/java/com/example/employeeservice/service/EmployeeService.java:141 | how the plusYears form of the join rule relates to the Period form |
| Dates.FormatThenParse | src/main/java/com/example/employeeservice/model/Employee.java:172-178 | LocalDate.parse reads back the ISO text of a date |
| JavaNumbers.ParseCentsText | src/main/java/com/example/employeeservice/model/Employee.java:180-186 | Double.parseDouble reads back the decimal text of an amount of cents |
| JavaText.Utf16Length | src/main/java/com/example/employeeservice/model/Employee.java:80 | String.length() is between the number of characters and twice it |
| JavaText.Utf16LengthCounts | src/main/java/com/example/employeeservice/model/Employee.java:80 | String.length() is the number of characters plus one for each character beyond U+FFFF |
| JavaText.TrimIdempotent | src/main/java/com/example/employeeservice/model/Employee.java:79 | trimming a trimmed name changes nothing |
| JavaText.TrimEmptyIff | src/main/java/com/example/employeeservice/model/Employee.java:76 | trim().isEmpty() holds iff every character is at most U+0020 |
| Repository.Filter | src/main/java/com/example/employeeservice/model/EmployeeFileRepository.java:98-101 | a stream filter keeps exactly the elements that satisfy the predicate and is no longer than its input |
| Repository.FilterAppend | src/main/java/com/example/employeeservice/model/EmployeeFileRepository.java:98-101 | filtering keeps the list order: the filter of a concatenation is the concatenation of the filters |
| Repository.FilterShorter | src/main/java/com/example/employeeservice/model/EmployeeFileRepository.java:161 | removeIf removes something iff some element matches |
| Repository.FindById | src/main/java/com/example/employeeservice/model/EmployeeFileRepository.java:67-76 | findById succeeds iff some stored employee has the id, returns a stored employee with that id, and otherwise throws EmployeeNotFound(id) |
| Repository.FindByIdIsFirst | src/main/java/com/example/employeeservice/model/EmployeeFileRepository.java:69-72 | findById returns the first employee with the id, whatever follows it |
| Repository.ExistsById | src/main/java/com/example/employeeservice/model/EmployeeFileRepository.java:79-89 | existsById is true iff some stored employee has the id |
| Repository.FilterByName | src/main/java/com/example/employeeservice/model/EmployeeFileRepository.java:98-101 | the name stream fails with NullPointerException iff it reaches a null name, and otherwise keeps, in order, the employees whose lower-cased first or last name contains the term |
| Repository.FindByNameContaining | src/main/java/com/example/employeeservice/model/EmployeeFileRepository.java:92-105 | a null or trim-empty name is IllegalArgument(NameEmpty), and only such a name; a result holds exactly the employees whose lower-cased first or last name contains the lower-cased term, and for a term with text it is the name filter over the list, in list order |
| Repository.NameSearchTotal | src/main/java/com/example/employeeservice/model/EmployeeFileRepository.java:99-100 | on a list whose employees all have both names, a non-empty search never fails |
| Repository.ValidateSalaryParameters | src/main/java/com/example/employeeservice/model/EmployeeFileRepository.java:183-193 | passes iff neither bound is negative and from <= to when both are given; every failure is an IllegalArgumentException |
| Repository.FindBySalaryRange | src/main/java/com/example/employeeservice/model/EmployeeFileRepository.java:108-126 | succeeds iff the bounds are acceptable; a result holds exactly the employees with from <= salary <= to, an absent bound unconstrained, and is the filter of the list by that range, in list order with repeats kept |
| Repository.UnboundedRangeIsAll | src/main/java/com/example/employeeservice/model/EmployeeFileRepository.java:120 | with neither bound the range query returns the whole list in order |
| Repository.SalaryRangeBetween | src/main/java/com/example/employeeservice/model/EmployeeFileRepository.java:113-114 | over salaries 1000, 5000, 10000, the range [2000, 8000] returns exactly the 5000 employee |
| Repository.SalaryRangeUpTo | src/main/java/com/example/employeeservice/model/EmployeeFileRepository.java:117-118 | over the same salaries, (null, 8000] returns the 1000 and 5000 employees, in order |
| Repository.SalaryRangeFrom | src/main/java/com/example/employeeservice/model/EmployeeFileRepository.java:115-116 | over the same salaries, [2000, null) returns the 5000 and 10000 employees, in order |
| Repository.ReplaceById | src/main/java/com/example/employeeservice/model/EmployeeFileRepository.java:146-148 | update's map keeps the length, replaces exactly the employees with the argument's id and keeps every other one in place |
| Repository.DeleteById | src/main/java/com/example/employeeservice/model/EmployeeFileRepository.java:157-169 | delete succeeds iff the id is stored, then keeps exactly the employees with another id, as the filter of the list in list order; otherwise it throws EmployeeNotFound(id) |
| Repository.SaveThenFind | src/main/java/com/example/employeeservice/model/EmployeeFileRepository.java:129-139 | after save, findById of the saved id returns the saved employee, unless an earlier one already had that id |
| Repository.UpdateThenFind | src/main/java/com/example/employeeservice/model/EmployeeFileRepository.java:142-154 | after update, findById of the updated id returns the new employee when the id was stored; every other lookup is unchanged |
| Repository.UpdateAbsentIsIdentity | src/main/java/com/example/employeeservice/model/EmployeeFileRepository.java:146-148 | updating an id that is not stored leaves the list unchanged |
| Repository.DeleteTwiceFails | src/main/java/com/example/employeeservice/model/EmployeeFileRepository.java:157-169 | after a successful delete(id), a second delete(id) throws EmployeeNotFound(id) |
| Repository.DeleteKeepsOrder | src/main/java/com/example/employeeservice/model/EmployeeFileRepository.java:161 | deleting the one employee with an id keeps all the others, in their order |
| Repository.EmployeeFileRepository.constructor | src/main/java/com/example/employeeservice/model/EmployeeFileRepository.java:24-47 | the repository holds the records of its data file, each well-formed |
| Repository.EmployeeFileRepository.Save | src/main/java/com/example/employeeservice/model/EmployeeFileRepository.java:129-139 | save appends the employee to the list, even if its id is already stored, and returns the same object |
| Repository.EmployeeFileRepository.Update | src/main/java/com/example/employeeservice/model/EmployeeFileRepository.java:142-154 | update replaces every stored employee with the argument's id and returns the same object |
| Repository.EmployeeFileRepository.Delete | src/main/java/com/example/employeeservice/model/EmployeeFileRepository.java:157-169 | delete removes every employee with the id, or throws EmployeeNotFound and leaves the list alone |
| Repository.SaveAsWritten | src/main/java/com/example/employeeservice/model/EmployeeFileRepository.java:129-139 | save on the list as findAll returns it: it appends on a file holding an array, and on a blank file it throws UnsupportedOperationException |
| Repository.DeleteAsWritten | src/main/java/com/example/employeeservice/model/EmployeeFileRepository.java:157-169 | delete on the list as findAll returns it: it throws UnsupportedOperationException on a blank file |
| Repository.BlankFileRejectsUpdates | src/main/java/com/example/employeeservice/model/EmployeeFileRepository.java:54-55 | a blank file and "[]" read as the same empty list, but save and delete fail on the blank file with UnsupportedOperationException |
| Repository.UpdatesFollowReadAll | src/main/java/com/example/employeeservice/model/EmployeeFileRepository.java:57-58 | on a file holding an array, save and delete as written change exactly the list findAll returns |
| Service.ValidateEmployee | src/main/java/com/example/employeeservice/service/EmployeeService.java:110-147 | validateEmployee passes iff the employee is non-null and meets every service rule (names with text and 2..50 UTF-16 units as stored, 18 today, salary in range, join not before the 18th birthday by plusYears, department with text); every failure is a BusinessValidationException, null giving "employee cannot be null" |
| Service.ServiceAcceptsSetterValid | src/main/java/com/example/employeeservice/service/EmployeeService.java:110-147 | an employee that satisfies every setter rule, with names and department that have text, passes validateEmployee |
| Service.WhitespaceNameSetterOnly | src/main/java/com/example/employeeservice/service/EmployeeService.java:114-115 | a name of two ideographic spaces passes setFirstName but validateEmployee rejects it |
| Service.JoinRulesDisagreeOnLeapDay | src/main/java/com/example/employeeservice/service/EmployeeService.java:141-143 | for a 29 February birth, the service's join rule accepts a join date the setter rejects |
| Service.CheckForExistingEmployee | src/main/java/com/example/employeeservice/service/EmployeeService.java:176-184 | passes iff the id is not positive or not stored; otherwise the DuplicateId validation error |
| Service.CreateChecks | src/main/java/com/example/employeeservice/service/EmployeeService.java:32-36 | createEmployee gets past its checks iff the employee is non-null, meets the service rules and has a non-positive or new id |
| Service.CreatedIsFound | src/main/java/com/example/employeeservice/service/EmployeeService.java:32-42 | a created employee with a positive id is then returned by getEmployeeById |
| Service.CreateTwiceRejected | src/main/java/com/example/employeeservice/service/EmployeeService.java:32-42 | creating again with the positive id just created fails, with DuplicateId when the second employee is otherwise valid |
| Service.CreateKeepsIdsUnique | src/main/java/com/example/employeeservice/service/EmployeeService.java:32-42 | createEmployee keeps positive ids unique in the store |
| Service.AppendKeepsIdsUnique | src/main/java/com/example/employeeservice/service/EmployeeService.java:176-184 | appending an employee with a non-positive or new id keeps positive ids unique |
| Service.FilterKeepsIdsUnique | src/main/java/com/example/employeeservice/model/EmployeeFileRepository.java:161 | removing employees keeps positive ids unique |
| Service.DeleteKeepsIdsUnique | src/main/java/com/example/employeeservice/service/EmployeeService.java:87-95 | deleteEmployee keeps positive ids unique |
| Service.ReplaceKeepsHasId | src/main/java/com/example/employeeservice/model/EmployeeFileRepository.java:146-148 | update's map neither adds nor removes an id |
| Service.ReplaceKeepsIdsUnique | src/main/java/com/example/employeeservice/service/EmployeeService.java:74-85 | updateEmployee keeps positive ids unique |
| Service.GetEmployeeById | src/main/java/com/example/employeeservice/service/EmployeeService.java:44-55 | succeeds iff the id is positive and stored, giving what findById gives; an id <= 0 is rejected before the store is asked, and a missing id is NotFound(id) |
| Service.SearchEmployeesByName | src/main/java/com/example/employeeservice/service/EmployeeService.java:186-195 | rejected as too short iff the trimmed term has fewer than 2 UTF-16 units; the repository's "name empty" error can then never arise; otherwise the result is the repository's name filter on the lower-cased term |
| Service.SupplementarySearchTerm | src/main/java/com/example/employeeservice/service/EmployeeService.java:188-191 | a one-letter term beyond U+FFFF is two units long, so the search runs |
| Service.ValidateSalaryRange | src/main/java/com/example/employeeservice/service/EmployeeService.java:227-237 | passes exactly when the repository's own check passes, but as a BusinessValidationException |
| Service.FilterEmployeesBySalary | src/main/java/com/example/employeeservice/service/EmployeeService.java:197-204 | succeeds iff the bounds are acceptable, never with the repository's IllegalArgumentException; a result holds exactly the employees in range, as the filter of the list in list order |
| Service.GetEmployees | src/main/java/com/example/employeeservice/service/EmployeeService.java:57-68 | a name with text wins: it fails as too short iff its trimmed form has fewer than 2 UTF-16 units, and otherwise is the name filter on the trimmed, lower-cased name; else a given bound selects the range filter, failing iff the bounds are unacceptable; else the whole list |
| Service.GetEmployeesByDepartment | src/main/java/com/example/employeeservice/service/EmployeeService.java:97-108 | fails iff the department has no text; a result holds exactly the employees whose department equals it ignoring case, as the filter of the list in list order |
| Service.DepartmentQueryIgnoresCase | src/main/java/com/example/employeeservice/service/EmployeeService.java:103 | the department query gives the same answer for an argument and its lower-cased form |
| Service.PersonMerges | src/main/java/com/example/employeeservice/service/EmployeeService.java:207-215 | the first three guarded setter calls keep the id and, without an exception, take over exactly the source's set names and date of birth |
| Service.EmploymentMerges | src/main/java/com/example/employeeservice/service/EmployeeService.java:216-224 | the last three keep the id and take over exactly the source's positive salary (rounded), join date and department with text (trimmed) |
| Service.ApplyUpdatesMerges | src/main/java/com/example/employeeservice/service/EmployeeService.java:206-225 | applyUpdates never changes the id; without an exception the target becomes Merged(target, source): each set field taken over, every other kept |
| Service.EmptyUpdatesChangeNothing | src/main/java/com/example/employeeservice/service/EmployeeService.java:206-225 | a payload with nothing set changes nothing and throws nothing |
| Service.ApplyUpdates | src/main/java/com/example/employeeservice/service/EmployeeService.java:206-225 | the method leaves the target and the outcome ApplyUpdatesSteps describes, keeping the invariant |
| Service.ApplyPersonUpdates | src/main/java/com/example/employeeservice/service/EmployeeService.java:207-215 | the first three guarded setter calls on the object, against UpdatePerson |
| Service.ApplyEmploymentUpdates | src/main/java/com/example/employeeservice/service/EmployeeService.java:216-224 | the last three, against UpdateEmployment |
| Service.UpdateMeaning | src/main/java/com/example/employeeservice/service/EmployeeService.java:74-85 | a successful update keeps the id, is the stored employee merged with the payload, meets the service rules and is what getEmployeeById then returns |
| Service.EmployeeService.constructor | src/main/java/com/example/employeeservice/service/EmployeeService.java:27-30 | the service holds the repository it is given |
| Service.EmployeeService.CreateEmployee | src/main/java/com/example/employeeservice/service/EmployeeService.java:32-42 | createEmployee succeeds iff its checks pass; then it appends the employee and returns it; otherwise the store is unchanged |
| Service.EmployeeService.UpdateEmployee | src/main/java/com/example/employeeservice/service/EmployeeService.java:74-85 | updateEmployee succeeds as UpdateSteps says, replacing the employees with that id by the merged one; on any failure the store is unchanged |
| Service.EmployeeService.DeleteEmployee | src/main/java/com/example/employeeservice/service/EmployeeService.java:87-95 | deleteEmployee removes every employee with the id, or fails with NotFound(id) and leaves the store alone |
| Service.EmployeeService.CreateEmployeeFromStrings | src/main/java/com/example/employeeservice/service/EmployeeService.java:158-174 | createEmployeeFromStrings builds what Employee.fromStrings builds, with the same exceptions |
| Config.ApplicationProperties.constructor | src/main/java/com/example/employeeservice/config/ApplicationProperties.java:14-31 | the defaults satisfy every setter rule; core <= max, so both pool checks pass; the resolved path is "./data/employees.json" |
| Config.ApplicationProperties.GetDataFilePath | src/main/java/com/example/employeeservice/config/ApplicationProperties.java:33-40 | returns the stored path, and never fails on a path the default or the setter put there |
| Config.ApplicationProperties.GetMaxThreadPoolSize | src/main/java/com/example/employeeservice/config/ApplicationProperties.java:42-49 | fails iff max < core, and otherwise returns max, which is then at least core |
| Config.ApplicationProperties.ValidateThreadPoolConfiguration | src/main/java/com/example/employeeservice/config/ApplicationProperties.java:121-127 | fails iff core > max: exactly when getMaxThreadPoolSize fails |
| Config.ApplicationProperties.GetResolvedDataFilePath | src/main/java/com/example/employeeservice/config/ApplicationProperties.java:111-119 | an absolute path is returned as it is and any other with "./" before it; on a valid object it never fails |
| Config.ApplicationProperties.SetDataFilePath | src/main/java/com/example/employeeservice/config/ApplicationProperties.java:67-74 | null throws NullPointerException and a path with NUL a ConfigurationException; otherwise only the path changes |
| Config.ApplicationProperties.SetMaxThreadPoolSize | src/main/java/com/example/employeeservice/config/ApplicationProperties.java:76-81 | accepted iff at least 1; only that field changes, and a rejected call changes nothing |
| Config.ApplicationProperties.SetCorePoolSize | src/main/java/com/example/employeeservice/config/ApplicationProperties.java:83-88 | accepted iff at least 1; only that field changes, and a rejected call changes nothing |
| Config.ApplicationProperties.SetQueueCapacity | src/main/java/com/example/employeeservice/config/ApplicationProperties.java:90-95 | accepted iff not negative (0 allowed); only that field changes |
| Config.ApplicationProperties.SetEnableCaching | src/main/java/com/example/employeeservice/config/ApplicationProperties.java:97-102 | null is rejected; otherwise only the flag changes |
| Config.ApplicationProperties.SetThreadNamePrefix | src/main/java/com/example/employeeservice/config/ApplicationProperties.java:104-109 | null or trim-empty is rejected; otherwise the prefix is stored untrimmed, and nothing else changes |

## Left out

- File I/O is not modelled: reading and writing the data file, creating the file and its directory, and JSON through Jackson. The repository is its list of records. `IOException` and the `DataAccessException`/`ServiceException` wrapping never arise in the model.
- Concurrency is not modelled: the `ReentrantLock` around file access and `getEmployeesAsync` on the executor. Each operation is one atomic step.
- Floating point is not modelled. Salaries are exact reals, so NaN, infinities and binary rounding are out of scope.
- `Double.parseDouble` accepts only the decimal grammar: optional sign, digits, point, exponent, and a `d`/`f` suffix. Hexadecimal literals, "NaN" and "Infinity" are not modelled.
- Case folding is ASCII-only. `toLowerCase` and `equalsIgnoreCase` on letters outside A-Z are not modelled.
- EmployeeModel.ParseDate: it reads only an unsigned four-digit year. `LocalDate.parse` also accepts a signed year of more than four digits, such as "+10000-01-01" or "-0001-01-01"; the model returns InvalidDateFormat for those. `Dates.LocalDate` itself allows any year.
- `Paths.get` is modelled by the Unix rule that a path is invalid iff it contains NUL.
- The bean-validation annotations on `ApplicationProperties` (`@NotBlank`, `@Max(100)`, `@Pattern`, …) are not modelled. The framework enforces them, not this code.
- Queries return records, not fresh `Employee` objects. `Employee.Copy` models how `updateEmployee` gets an object from the stored record.
- Service.EmployeeService.UpdateEmployee: the update payload is taken as a record (`Option<EmployeeRecord>`), not an `Employee` object. `applyUpdates` reads only its getters.
- Service.EmployeeService.CreateEmployee: the saved object is returned as it is, matching `save`. Its state is tied to the store by the record it holds, not by aliasing.
- `toString` and the getters are left out: they have no logic.

## Findings

| source | as written | input that shows it | evidently intended | confidence | as-written member | corrected member |
|---|---|---|---|---|---|---|
| src/main/java/com/example/employeeservice/model/EmployeeFileRepository.java:133 | `findAll` returns the immutable `List.of()` for a blank data file (lines 54-55), and `save` calls `add` on it | a data file holding only whitespace (or nothing), then `save(e)` | the blank file reads as an empty list, so `save` appends `e` | high (not executed) | Repository.SaveAsWritten, Repository.BlankFileRejectsUpdates | Repository.EmployeeFileRepository.Save |
| src/main/java/com/example/employeeservice/model/EmployeeFileRepository.java:161 | `delete` calls `removeIf` on the immutable `List.of()` from a blank file, which throws `UnsupportedOperationException` | a blank data file, then `delete(1)` | the id is not found: `EmployeeNotFoundException`, as with a file holding `[]` | high (not executed) | Repository.DeleteAsWritten, Repository.BlankFileRejectsUpdates | Repository.EmployeeFileRepository.Delete |
