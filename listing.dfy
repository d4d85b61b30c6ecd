/**
 * The employee records the dashboard holds and its search filter: a record is
 * kept when the lower-cased search string is a substring of its lower-cased
 * full name, telephone number or position name, and the records that are kept
 * stay in the order they were fetched in.
 */
module Listing {
  import opened Text

  /** One record of the fetched collection, with the fields the dashboard reads. */
  datatype Employee = Employee(employeeId: int, fullname: string, telNo: string, positionName: string)

  /** The filter's predicate: a case-insensitive substring match on any of the three fields. */
  predicate Matches(e: Employee, search: string) {
    Includes(ToLower(e.fullname), ToLower(search)) ||
    Includes(ToLower(e.telNo), ToLower(search)) ||
    Includes(ToLower(e.positionName), ToLower(search))
  }

  /** `employees.filter(emp => Matches(emp, search))`. */
  function Filter(employees: seq<Employee>, search: string): (r: seq<Employee>)
    ensures |r| <= |employees|
    ensures forall e :: e in r <==> e in employees && Matches(e, search)
  {
    if employees == [] then []
    else if Matches(employees[0], search) then [employees[0]] + Filter(employees[1..], search)
    else Filter(employees[1..], search)
  }

  /** `a` is `b` with some elements left out, the rest in their original order. */
  ghost predicate IsSubsequence(a: seq<Employee>, b: seq<Employee>)
    decreases |b|
  {
    if a == [] then true
    else if b == [] then false
    else (a[0] == b[0] && IsSubsequence(a[1..], b[1..])) || IsSubsequence(a, b[1..])
  }

  /** Some position of the lower-cased `field` holds the lower-cased `search`. */
  ghost predicate ContainsIgnoringCase(field: string, search: string) {
    exists i :: OccursAt(ToLower(field), ToLower(search), i)
  }

  /** The match is a case-insensitive substring search on the three fields. */
  lemma MatchesMeaning(e: Employee, search: string)
    ensures Matches(e, search) <==>
      ContainsIgnoringCase(e.fullname, search) ||
      ContainsIgnoringCase(e.telNo, search) ||
      ContainsIgnoringCase(e.positionName, search)
  {
    FieldMatchMeaning(e.fullname, search);
    FieldMatchMeaning(e.telNo, search);
    FieldMatchMeaning(e.positionName, search);
  }

  lemma FieldMatchMeaning(field: string, search: string)
    ensures Includes(ToLower(field), ToLower(search)) <==> ContainsIgnoringCase(field, search)
  {
    IncludesIffOccurs(ToLower(field), ToLower(search));
  }

  /** The search term's own case does not matter: lower-casing it first finds the same records. */
  lemma MatchesIgnoresSearchCase(e: Employee, search: string)
    ensures Matches(e, ToLower(search)) <==> Matches(e, search)
  {
    ToLowerIdempotent(search);
  }

  /** Filtering a concatenation filters each part and keeps them in order. */
  lemma {:induction false} FilterConcat(a: seq<Employee>, b: seq<Employee>, search: string)
    ensures Filter(a + b, search) == Filter(a, search) + Filter(b, search)
  {
    if a == [] {
      assert a + b == b;
    } else {
      assert (a + b)[0] == a[0];
      assert (a + b)[1..] == a[1..] + b;
      FilterConcat(a[1..], b, search);
    }
  }

  /** Together with FilterConcat this pins the filter down: one record is kept exactly when it matches. */
  lemma FilterSingleton(e: Employee, search: string)
    ensures Filter([e], search) == if Matches(e, search) then [e] else []
  {
    assert [e][1..] == [];
  }

  /** The filtered list keeps the fetched order. */
  lemma {:induction false} FilterIsSubsequence(employees: seq<Employee>, search: string)
    ensures IsSubsequence(Filter(employees, search), employees)
    decreases |employees|
  {
    if employees != [] {
      FilterIsSubsequence(employees[1..], search);
      var rest := Filter(employees[1..], search);
      if Matches(employees[0], search) {
        var r := [employees[0]] + rest;
        assert r[0] == employees[0] && r[1..] == rest;
      } else {
        SubsequenceOfTail(rest, employees);
      }
    }
  }

  /** A subsequence of the tail is a subsequence of the whole. */
  lemma SubsequenceOfTail(a: seq<Employee>, b: seq<Employee>)
    requires b != [] && IsSubsequence(a, b[1..])
    ensures IsSubsequence(a, b)
  {
  }

  /** An empty search keeps every record: the empty string is part of every field. */
  lemma {:induction false} FilterEmptySearch(employees: seq<Employee>)
    ensures Filter(employees, "") == employees
  {
    if employees != [] {
      assert Matches(employees[0], "");
      FilterEmptySearch(employees[1..]);
    }
  }
}
