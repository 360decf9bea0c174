/**
 * EmployeeFileRepository: the employees held in the JSON data file, the stream
 * queries run over them, and the list updates that save, update and delete
 * write back.  The file is modelled by the list of records it parses to;
 * reading, writing, Jackson and the lock are not modelled.  Every query reads
 * the whole list (findAll) and works on it, so the queries are functions of
 * that list, and the class holds the list as the state the updates change.
 */
module Repository {
  import opened Wrappers
  import opened JavaInts
  import opened Errors
  import opened JavaText
  import opened EmployeeModel

  // ---- Streams over the list ----

  /** stream().filter(p).collect(toList()): the elements that satisfy p, in order. */
  function Filter<T(!new)>(s: seq<T>, p: T -> bool): (r: seq<T>)
    ensures |r| <= |s|
    ensures forall x :: x in r <==> x in s && p(x)
  {
    if s == [] then []
    else
      assert forall x :: x in s <==> x == s[0] || x in s[1..];
      (if p(s[0]) then [s[0]] else []) + Filter(s[1..], p)
  }

  /** Filtering a concatenation filters each part: the filter keeps the list order. */
  lemma {:induction false} FilterAppend<T(!new)>(a: seq<T>, b: seq<T>, p: T -> bool)
    ensures Filter(a + b, p) == Filter(a, p) + Filter(b, p)
  {
    if a != [] {
      assert (a + b)[1..] == a[1..] + b;
      FilterAppend(a[1..], b, p);
    } else {
      assert a + b == b;
    }
  }

  /** A filter that keeps everything returns the list itself. */
  lemma {:induction false} FilterKeepsAll<T(!new)>(s: seq<T>, p: T -> bool)
    requires forall x :: x in s ==> p(x)
    ensures Filter(s, p) == s
  {
    if s != [] {
      assert forall x :: x in s[1..] ==> x in s;
      FilterKeepsAll(s[1..], p);
    }
  }

  /** A filter that keeps every element has kept the whole list; one that drops
      something is shorter.  This is what removeIf's boolean result reports. */
  lemma {:induction false} FilterShorter<T(!new)>(s: seq<T>, p: T -> bool)
    ensures |Filter(s, p)| < |s| <==> exists x :: x in s && !p(x)
  {
    if s != [] {
      FilterShorter(s[1..], p);
      assert forall x :: x in s <==> x == s[0] || x in s[1..];
    }
  }

  /** Two filters that agree on every element give the same list. */
  lemma {:induction false} FilterCongruent<T(!new)>(s: seq<T>, p: T -> bool, q: T -> bool)
    requires forall x :: x in s ==> p(x) == q(x)
    ensures Filter(s, p) == Filter(s, q)
  {
    if s != [] {
      assert forall x :: x in s[1..] ==> x in s;
      FilterCongruent(s[1..], p, q);
    }
  }

  // ---- Lookups by id ----

  /** Some stored employee has the id. */
  predicate HasId(store: seq<EmployeeRecord>, id: int32) {
    exists e :: e in store && e.id == id
  }

  /** findById: the first employee with the id, or EmployeeNotFoundException. */
  function FindById(store: seq<EmployeeRecord>, id: int32): (r: Result<EmployeeRecord, Error>)
    ensures r.Success? <==> HasId(store, id)
    ensures r.Success? ==> r.value in store && r.value.id == id
    ensures r.Failure? ==> r.error == EmployeeNotFound(id as int)
  {
    if store == [] then Failure(EmployeeNotFound(id as int))
    else if store[0].id == id then Success(store[0])
    else
      assert forall x :: x in store <==> x == store[0] || x in store[1..];
      FindById(store[1..], id)
  }

  /** The employee findById returns is the first one with the id, whatever
      follows it. */
  lemma {:induction false} FindByIdIsFirst(store: seq<EmployeeRecord>, id: int32, k: nat)
    requires k < |store| && store[k].id == id
    requires forall j :: 0 <= j < k ==> store[j].id != id
    ensures FindById(store, id) == Success(store[k])
  {
    if k > 0 {
      FindByIdIsFirst(store[1..], id, k - 1);
    }
  }

  /** existsById: anyMatch over the ids. */
  function ExistsById(store: seq<EmployeeRecord>, id: int32): (b: bool)
    ensures b <==> HasId(store, id)
  {
    if store == [] then false
    else
      assert forall x :: x in store <==> x == store[0] || x in store[1..];
      store[0].id == id || ExistsById(store[1..], id)
  }

  // ---- findByNameContaining ----

  /** The lambda of findByNameContaining on one employee: its first name, lower-cased,
      is searched first and its last name only when that fails; a null name that
      the evaluation reaches throws NullPointerException. */
  function NameMatches(e: EmployeeRecord, term: string): Result<bool, Error> {
    if e.firstName.None? then Failure(NullPointer)
    else if Contains(ToLower(e.firstName.value), term) then Success(true)
    else if e.lastName.None? then Failure(NullPointer)
    else Success(Contains(ToLower(e.lastName.value), term))
  }

  /** The employees whose lower-cased first or last name contains the term. */
  function NameFilter(term: string): EmployeeRecord -> bool {
    (e: EmployeeRecord) => NameMatches(e, term) == Success(true)
  }

  /** The stream of findByNameContaining: the lambda runs on each employee in turn,
      and the first NullPointerException ends the stream. */
  function FilterByName(store: seq<EmployeeRecord>, term: string): (r: Result<seq<EmployeeRecord>, Error>)
    ensures r.Success? <==> forall e :: e in store ==> NameMatches(e, term).Success?
    ensures r.Failure? ==> r.error == NullPointer
    ensures r.Success? ==> r.value == Filter(store, NameFilter(term))
  {
    if store == [] then Success([])
    else
      assert forall x :: x in store <==> x == store[0] || x in store[1..];
      var keep :- NameMatches(store[0], term);
      var rest :- FilterByName(store[1..], term);
      Success(if keep then [store[0]] + rest else rest)
  }

  /** findByNameContaining: a null or trim-empty name is an IllegalArgumentException;
      otherwise the name, lower-cased but not trimmed, is the search term. */
  function FindByNameContaining(store: seq<EmployeeRecord>, name: Option<string>): (r: Result<seq<EmployeeRecord>, Error>)
    ensures r == Failure(IllegalArgument(NameEmpty)) <==> name.None? || Trim(name.value) == []
    ensures r.Failure? ==> r.error in {IllegalArgument(NameEmpty), NullPointer}
    ensures r.Success? ==> forall e :: e in r.value <==>
      e in store && e.firstName.Some? &&
      (Contains(ToLower(e.firstName.value), ToLower(name.value)) ||
       (e.lastName.Some? && Contains(ToLower(e.lastName.value), ToLower(name.value))))
    ensures name.Some? && Trim(name.value) != [] ==> r == FilterByName(store, ToLower(name.value))
  {
    if name.None? || Trim(name.value) == [] then Failure(IllegalArgument(NameEmpty))
    else FilterByName(store, ToLower(name.value))
  }

  /** The search cannot fail on a list whose employees all have both names, which
      is the case for every employee that passes validate(). */
  lemma NameSearchTotal(store: seq<EmployeeRecord>, name: string)
    requires forall e :: e in store ==> e.firstName.Some? && e.lastName.Some?
    requires Trim(name) != []
    ensures FindByNameContaining(store, Some(name)).Success?
  {
  }

  // ---- findBySalaryRange ----

  /** The bounds findBySalaryRange accepts: neither negative, and from no larger than to. */
  predicate SalaryBoundsOk(from: Option<real>, to: Option<real>) {
    && (from.Some? ==> from.value >= 0.0)
    && (to.Some? ==> to.value >= 0.0)
    && (from.Some? && to.Some? ==> from.value <= to.value)
  }

  /** validateSalaryParameters: the three checks in order, each an IllegalArgumentException. */
  function ValidateSalaryParameters(from: Option<real>, to: Option<real>): (o: Outcome<Error>)
    ensures o.Pass? <==> SalaryBoundsOk(from, to)
    ensures o.Fail? ==> o.error.IllegalArgument?
  {
    if from.Some? && from.value < 0.0 then Fail(IllegalArgument(FromSalaryNegative))
    else if to.Some? && to.value < 0.0 then Fail(IllegalArgument(ToSalaryNegative))
    else if from.Some? && to.Some? && from.value > to.value then Fail(IllegalArgument(FromSalaryExceedsTo))
    else Pass
  }

  /** The lambda of findBySalaryRange: a bound that is null is not checked. */
  function InSalaryRange(from: Option<real>, to: Option<real>): EmployeeRecord -> bool {
    (e: EmployeeRecord) =>
      if from.Some? && to.Some? then e.salary >= from.value && e.salary <= to.value
      else if from.Some? then e.salary >= from.value
      else if to.Some? then e.salary <= to.value
      else true
  }

  /** findBySalaryRange: the employees whose salary lies within the given bounds,
      both ends included. */
  function FindBySalaryRange(store: seq<EmployeeRecord>, from: Option<real>, to: Option<real>): (r: Result<seq<EmployeeRecord>, Error>)
    ensures r.Success? <==> SalaryBoundsOk(from, to)
    ensures r.Failure? ==> r.error == ValidateSalaryParameters(from, to).error
    ensures r.Success? ==> forall e :: e in r.value <==>
      e in store && (from.None? || from.value <= e.salary) && (to.None? || e.salary <= to.value)
    ensures r.Success? ==> r.value == Filter(store, InSalaryRange(from, to))
  {
    match ValidateSalaryParameters(from, to)
    case Fail(error) => Failure(error)
    case Pass => Success(Filter(store, InSalaryRange(from, to)))
  }

  /** With no bounds at all the range query returns every employee, in file order. */
  lemma UnboundedRangeIsAll(store: seq<EmployeeRecord>)
    ensures FindBySalaryRange(store, None, None) == Success(store)
  {
    FilterKeepsAll(store, InSalaryRange(None, None));
  }

  // Stored salaries 1000, 5000 and 10000: the range [2000, 8000] selects the middle
  // one, an open lower bound the first two, an open upper bound the last two.

  lemma SalaryRangeBetween(a: EmployeeRecord, b: EmployeeRecord, c: EmployeeRecord)
    requires a.salary == 1000.0 && b.salary == 5000.0 && c.salary == 10000.0
    ensures FindBySalaryRange([a, b, c], Some(2000.0), Some(8000.0)) == Success([b])
  {
    var p := InSalaryRange(Some(2000.0), Some(8000.0));
    FilterOfThree(a, b, c, p);
    assert !p(a) && p(b) && !p(c);
    assert Filter([a, b, c], p) == [b];
  }

  lemma SalaryRangeUpTo(a: EmployeeRecord, b: EmployeeRecord, c: EmployeeRecord)
    requires a.salary == 1000.0 && b.salary == 5000.0 && c.salary == 10000.0
    ensures FindBySalaryRange([a, b, c], None, Some(8000.0)) == Success([a, b])
  {
    var p := InSalaryRange(None, Some(8000.0));
    FilterOfThree(a, b, c, p);
    assert p(a) && p(b) && !p(c);
    assert Filter([a, b, c], p) == [a, b];
  }

  lemma SalaryRangeFrom(a: EmployeeRecord, b: EmployeeRecord, c: EmployeeRecord)
    requires a.salary == 1000.0 && b.salary == 5000.0 && c.salary == 10000.0
    ensures FindBySalaryRange([a, b, c], Some(2000.0), None) == Success([b, c])
  {
    var p := InSalaryRange(Some(2000.0), None);
    FilterOfThree(a, b, c, p);
    assert !p(a) && p(b) && p(c);
    assert Filter([a, b, c], p) == [b, c];
  }

  lemma FilterOfThree<T(!new)>(a: T, b: T, c: T, p: T -> bool)
    ensures Filter([a, b, c], p) == (if p(a) then [a] else []) + ((if p(b) then [b] else []) + (if p(c) then [c] else []))
  {
    assert [a, b, c] == [a] + ([b] + [c]);
    FilterAppend([b], [c], p);
    FilterAppend([a], [b] + [c], p);
    FilterOfOne(a, p);
    FilterOfOne(b, p);
    FilterOfOne(c, p);
  }

  lemma FilterOfOne<T(!new)>(x: T, p: T -> bool)
    ensures Filter([x], p) == if p(x) then [x] else []
  {
    assert [x][1..] == [];
  }

  // ---- The list updates of save, update and delete ----

  /** The map of update: every employee with the id of `e` becomes `e`. */
  function ReplaceById(store: seq<EmployeeRecord>, e: EmployeeRecord): (r: seq<EmployeeRecord>)
    ensures |r| == |store|
    ensures forall i :: 0 <= i < |store| ==> r[i] == (if store[i].id == e.id then e else store[i])
  {
    if store == [] then []
    else [if store[0].id == e.id then e else store[0]] + ReplaceById(store[1..], e)
  }

  /** The lambda of delete's removeIf, negated: the employees that stay. */
  function OtherId(id: int32): EmployeeRecord -> bool {
    (e: EmployeeRecord) => e.id != id
  }

  /** The list after delete: removeIf drops every employee with the id, and when it
      removes nothing, delete throws EmployeeNotFoundException instead. */
  function DeleteById(store: seq<EmployeeRecord>, id: int32): (r: Result<seq<EmployeeRecord>, Error>)
    ensures r.Success? <==> HasId(store, id)
    ensures r.Failure? ==> r.error == EmployeeNotFound(id as int)
    ensures r.Success? ==> forall e :: e in r.value <==> e in store && e.id != id
    ensures r.Success? ==> r.value == Filter(store, OtherId(id))
  {
    var kept := Filter(store, OtherId(id));
    FilterShorter(store, OtherId(id));
    if |kept| < |store| then Success(kept) else Failure(EmployeeNotFound(id as int))
  }

  /** A saved employee is found by its id, unless an earlier employee already had
      that id, in which case findById keeps returning the earlier one. */
  lemma {:induction false} SaveThenFind(store: seq<EmployeeRecord>, e: EmployeeRecord)
    ensures FindById(store + [e], e.id) ==
      if HasId(store, e.id) then FindById(store, e.id) else Success(e)
  {
    if store != [] {
      assert (store + [e])[1..] == store[1..] + [e];
      SaveThenFind(store[1..], e);
    }
  }

  /** After update, findById returns the new employee when the id was stored; when
      it was not, update changes nothing.  Other ids are looked up as before. */
  lemma {:induction false} UpdateThenFind(store: seq<EmployeeRecord>, e: EmployeeRecord, id: int32)
    ensures FindById(ReplaceById(store, e), id) ==
      if id == e.id && HasId(store, id) then Success(e) else FindById(store, id)
  {
    if store != [] {
      assert ReplaceById(store, e)[1..] == ReplaceById(store[1..], e);
      UpdateThenFind(store[1..], e, id);
    }
  }

  /** update with an id that is not stored writes back the same list. */
  lemma UpdateAbsentIsIdentity(store: seq<EmployeeRecord>, e: EmployeeRecord)
    requires !HasId(store, e.id)
    ensures ReplaceById(store, e) == store
  {
    forall i | 0 <= i < |store|
      ensures ReplaceById(store, e)[i] == store[i]
    {
      assert store[i] in store;
    }
  }

  /** After a successful delete the id is gone, so deleting it again fails. */
  lemma DeleteTwiceFails(store: seq<EmployeeRecord>, id: int32)
    requires DeleteById(store, id).Success?
    ensures DeleteById(DeleteById(store, id).value, id) == Failure(EmployeeNotFound(id as int))
  {
  }

  /** delete keeps the other employees in their order. */
  lemma DeleteKeepsOrder(a: seq<EmployeeRecord>, e: EmployeeRecord, b: seq<EmployeeRecord>)
    requires !HasId(a, e.id) && !HasId(b, e.id)
    ensures DeleteById(a + [e] + b, e.id) == Success(a + b)
  {
    FilterDropsOne(a, e, b, OtherId(e.id));
    assert |a + b| < |a + [e] + b|;
  }

  lemma FilterDropsOne<T(!new)>(a: seq<T>, x: T, b: seq<T>, p: T -> bool)
    requires forall y :: y in a ==> p(y)
    requires forall y :: y in b ==> p(y)
    requires !p(x)
    ensures Filter(a + [x] + b, p) == a + b
  {
    FilterSkips(x, p);
    FilterAppend(a, [x], p);
    FilterKeepsAll(a, p);
    assert Filter(a + [x], p) == a;
    FilterAppend(a + [x], b, p);
    FilterKeepsAll(b, p);
  }

  lemma FilterSkips<T(!new)>(x: T, p: T -> bool)
    requires !p(x)
    ensures Filter([x], p) == []
  {
    assert [x][1..] == [];
  }

  // ---- The repository object ----

  class EmployeeFileRepository {
    /** The employees the data file holds, in file order. */
    var employees: seq<EmployeeRecord>

    /** Jackson reads every employee through its setters, so each stored one keeps
        the Employee invariant. */
    ghost predicate Valid()
      reads this
    {
      forall e :: e in employees ==> WellFormed(e)
    }

    /** The repository over a data file that holds `stored` (a missing file is
        created holding the empty array). */
    constructor (stored: seq<EmployeeRecord>)
      requires forall e :: e in stored ==> WellFormed(e)
      ensures Valid() && employees == stored
    {
      employees := stored;
    }

    /** save: appends the employee, whether or not its id is already stored, and
        returns the same object. */
    method Save(employee: Employee) returns (saved: Employee)
      requires Valid() && employee.Valid()
      modifies this
      ensures Valid()
      ensures saved == employee && employees == old(employees) + [employee.Record()]
    {
      employees := employees + [employee.Record()];
      saved := employee;
    }

    /** update: replaces every employee with the same id; with none, nothing changes. */
    method Update(employee: Employee) returns (updated: Employee)
      requires Valid() && employee.Valid()
      modifies this
      ensures Valid()
      ensures updated == employee && employees == ReplaceById(old(employees), employee.Record())
    {
      var r := employee.Record();
      var next := ReplaceById(employees, r);
      forall x | x in next
        ensures WellFormed(x)
      {
        var i :| 0 <= i < |next| && next[i] == x;
        assert next[i] == r || next[i] in employees;
      }
      employees := next;
      updated := employee;
    }

    /** delete: removes every employee with the id, or throws EmployeeNotFoundException
        and leaves the file alone. */
    method Delete(id: int32) returns (outcome: Outcome<Error>)
      requires Valid()
      modifies this
      ensures Valid()
      ensures var r := DeleteById(old(employees), id);
        outcome == ToOutcome(r) && employees == (if r.Success? then r.value else old(employees))
    {
      var r := DeleteById(employees, id);
      if r.Success? {
        employees := r.value;
      }
      outcome := ToOutcome(r);
    }
  }

  // ---- A data file that holds only whitespace ----

  /** What the data file holds: only whitespace (an empty file, say), or a JSON array. */
  datatype DataFile = BlankText | JsonArray(records: seq<EmployeeRecord>)

  /** findAll: blank text reads as the immutable List.of(), an array as a mutable list. */
  function ReadAll(f: DataFile): seq<EmployeeRecord> {
    match f
    case BlankText => []
    case JsonArray(records) => records
  }

  /** save as written: add on the immutable List.of() throws UnsupportedOperationException. */
  function SaveAsWritten(f: DataFile, e: EmployeeRecord): (r: Result<DataFile, Error>)
    ensures r.Success? <==> f.JsonArray?
    ensures r.Success? ==> r.value == JsonArray(ReadAll(f) + [e])
    ensures r.Failure? ==> r.error == UnsupportedOperation
  {
    match f
    case BlankText => Failure(UnsupportedOperation)
    case JsonArray(records) => Success(JsonArray(records + [e]))
  }

  /** delete as written: removeIf on List.of() throws UnsupportedOperationException,
      even though nothing would be removed. */
  function DeleteAsWritten(f: DataFile, id: int32): (r: Result<DataFile, Error>)
    ensures r.Success? <==> f.JsonArray? && HasId(ReadAll(f), id)
    ensures r.Success? ==> r.value == JsonArray(DeleteById(ReadAll(f), id).value)
    ensures f.BlankText? ==> r == Failure(UnsupportedOperation)
  {
    match f
    case BlankText => Failure(UnsupportedOperation)
    case JsonArray(records) =>
      var kept :- DeleteById(records, id);
      Success(JsonArray(kept))
  }

  /** Two data files that read as the same empty list behave differently: on blank
      text, save and delete throw UnsupportedOperationException, while on "[]" save
      appends and delete reports that the employee is not found. */
  lemma BlankFileRejectsUpdates(e: EmployeeRecord, id: int32)
    ensures ReadAll(BlankText) == ReadAll(JsonArray([]))
    ensures SaveAsWritten(BlankText, e) == Failure(UnsupportedOperation)
    ensures SaveAsWritten(JsonArray([]), e) == Success(JsonArray([e]))
    ensures DeleteAsWritten(BlankText, id) == Failure(UnsupportedOperation)
    ensures DeleteAsWritten(JsonArray([]), id) == Failure(EmployeeNotFound(id as int))
  {
    assert [] + [e] == [e];
  }

  /** The evident intent: the list findAll returns is the one updated, whatever the
      file's text.  Save and delete of the repository object work on that list; on
      every non-blank file they agree with the code as written. */
  lemma UpdatesFollowReadAll(f: DataFile, e: EmployeeRecord, id: int32)
    requires f.JsonArray?
    ensures SaveAsWritten(f, e) == Success(JsonArray(ReadAll(f) + [e]))
    ensures DeleteAsWritten(f, id).Success? <==> DeleteById(ReadAll(f), id).Success?
    ensures DeleteAsWritten(f, id).Success? ==> DeleteAsWritten(f, id).value.records == DeleteById(ReadAll(f), id).value
  {
  }
}
