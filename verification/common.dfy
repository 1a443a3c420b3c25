/** Result and option types, and the byte order of identifiers that ordered collections iterate in. */
module Common {

  datatype Option<+T> = None | Some(value: T)

  datatype Result<+T, +E> = Ok(value: T) | Err(error: E)

  lemma MemberOf<T>(s: set<T>) returns (x: T)
    requires s != {}
    ensures x in s
  {
    x :| x in s;
  }

  /** Some element of a set; loops that pick elements this way depend on no order. */
  method PickFrom<T(==)>(s: set<T>) returns (x: T)
    requires s != {}
    ensures x in s
  {
    x :| x in s;
  }

  /** The elements of a set, each once, in some order. */
  method Listed<T(==)>(s: set<T>) returns (r: seq<T>)
    ensures multiset(r) == multiset(s)
    ensures forall x :: x in r <==> x in s
    ensures forall i, j :: 0 <= i < j < |r| ==> r[i] != r[j]
  {
    r := [];
    var rest := s;
    while rest != {}
      invariant rest <= s && multiset(r) + multiset(rest) == multiset(s)
      invariant forall x :: x in r <==> x in s - rest
      invariant forall i, j :: 0 <= i < j < |r| ==> r[i] != r[j]
      decreases rest
    {
      var x := PickFrom(rest);
      r := r + [x];
      rest := rest - {x};
    }
  }

  lemma KeyOf<K, V>(m: map<K, V>, v: V) returns (k: K)
    requires v in m.Values
    ensures k in m && m[k] == v
  {
    k :| k in m && m[k] == v;
  }

  /** Lexicographic order of strings; the order of `BTreeMap` and `BTreeSet` keys. */
  predicate StrLess(a: string, b: string) {
    if b == "" then false
    else if a == "" then true
    else if a[0] != b[0] then a[0] < b[0]
    else StrLess(a[1..], b[1..])
  }

  lemma {:induction false} StrLessTransitive(a: string, b: string, c: string)
    requires StrLess(a, b) && StrLess(b, c)
    ensures StrLess(a, c)
  {
    if a != "" && a[0] == b[0] == c[0] {
      StrLessTransitive(a[1..], b[1..], c[1..]);
    }
  }

  lemma {:induction false} StrLessTotal(a: string, b: string)
    ensures a == b || StrLess(a, b) || StrLess(b, a)
    ensures !(StrLess(a, b) && StrLess(b, a))
    ensures StrLess(a, b) ==> a != b
  {
    if a != "" && b != "" && a[0] == b[0] {
      StrLessTotal(a[1..], b[1..]);
      assert a == [a[0]] + a[1..] && b == [b[0]] + b[1..];
    }
  }

  ghost predicate StrictlySorted(s: seq<string>) {
    forall i, j :: 0 <= i < j < |s| ==> StrLess(s[i], s[j])
  }

  /** Inserts `x` into a strictly sorted sequence that does not hold it. */
  function InsertSorted(s: seq<string>, x: string): (r: seq<string>)
    requires StrictlySorted(s) && x !in s
    ensures StrictlySorted(r) && |r| == |s| + 1
    ensures forall y :: y in r <==> y in s || y == x
  {
    if s == [] then [x]
    else if StrLess(x, s[0]) then
      InsertFrontSorted(s, x);
      [x] + s
    else
      StrLessTotal(x, s[0]);
      var rest := InsertSorted(s[1..], x);
      InsertBackSorted(s, x, rest);
      [s[0]] + rest
  }

  lemma InsertFrontSorted(s: seq<string>, x: string)
    requires StrictlySorted(s) && s != [] && StrLess(x, s[0])
    ensures StrictlySorted([x] + s)
  {
    forall i | 0 < i < |s| ensures StrLess(x, s[i]) { StrLessTransitive(x, s[0], s[i]); }
  }

  lemma InsertBackSorted(s: seq<string>, x: string, rest: seq<string>)
    requires StrictlySorted(s) && s != [] && StrLess(s[0], x)
    requires StrictlySorted(rest) && forall y :: y in rest <==> y in s[1..] || y == x
    ensures StrictlySorted([s[0]] + rest)
    ensures forall y :: y in [s[0]] + rest <==> y in s || y == x
  {
    assert s == [s[0]] + s[1..];
    forall i | 0 <= i < |rest| ensures StrLess(s[0], rest[i]) {
      assert rest[i] in rest;
    }
  }

  /** The elements of a set in ascending order: what iterating a `BTreeSet` yields. */
  method SortedElements(s: set<string>) returns (r: seq<string>)
    ensures StrictlySorted(r)
    ensures forall x :: x in r <==> x in s
  {
    r := [];
    var rest := s;
    while rest != {}
      invariant rest <= s && StrictlySorted(r)
      invariant forall x :: x in r <==> x in s - rest
      decreases rest
    {
      var x :| x in rest;
      r := InsertSorted(r, x);
      rest := rest - {x};
    }
  }
}
