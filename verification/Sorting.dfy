/** Stable sorting by a key order, and what it does not depend on. */
module Sorting {
  import opened Wrappers

  /** Whether `le` compares any two values, consistently. */
  ghost predicate IsOrder<T(!new)>(le: (T, T) -> bool) {
    && (forall a, b :: le(a, b) || le(b, a))
    && forall a, b, c :: le(a, b) && le(b, c) ==> le(a, c)
  }

  /** Put `x` before the first element that does not precede it. */
  function Insert<T>(x: T, s: seq<T>, le: (T, T) -> bool): seq<T> {
    if s == [] then [x]
    else if le(x, s[0]) then [x] + s
    else [s[0]] + Insert(x, s[1..], le)
  }

  /** Python's `sorted`: stable, by `le`. */
  function Sort<T>(s: seq<T>, le: (T, T) -> bool): seq<T> {
    if s == [] then [] else Insert(s[0], Sort(s[1..], le), le)
  }

  function Filter<T>(s: seq<T>, p: T -> bool): seq<T> {
    if s == [] then []
    else if p(s[0]) then [s[0]] + Filter(s[1..], p)
    else Filter(s[1..], p)
  }

  function Map<T, U>(s: seq<T>, f: T -> U): (r: seq<U>)
    ensures |r| == |s| && forall i :: 0 <= i < |s| ==> r[i] == f(s[i])
  {
    if s == [] then [] else [f(s[0])] + Map(s[1..], f)
  }

  /** The images of all elements, if every element has one. */
  function MapSome<T, U>(s: seq<T>, f: T -> Option<U>): (r: Option<seq<U>>)
    ensures r.Some? <==> forall x :: x in s ==> f(x).Some?
    ensures r.Some? ==> |r.value| == |s| && forall i :: 0 <= i < |s| ==> f(s[i]) == Some(r.value[i])
  {
    if s == [] then Some([])
    else
      assert s == s[..|s| - 1] + [s[|s| - 1]];
      var init := MapSome(s[..|s| - 1], f);
      var last := f(s[|s| - 1]);
      if init.Some? && last.Some? then Some(init.value + [last.value]) else None
  }

  ghost predicate Ascending<T>(s: seq<T>, le: (T, T) -> bool) {
    forall i, j :: 0 <= i < j < |s| ==> le(s[i], s[j])
  }

  // --- a sorted list is the same elements, in order ------------------------

  lemma {:induction false} InsertIsAscending<T(!new)>(x: T, s: seq<T>, le: (T, T) -> bool)
    requires IsOrder(le) && Ascending(s, le)
    ensures Ascending(Insert(x, s, le), le) && multiset(Insert(x, s, le)) == multiset([x] + s)
  {
    if s == [] {
    } else if le(x, s[0]) {
      assert forall j :: 0 < j < |s| ==> le(s[0], s[j]);
    } else {
      InsertIsAscending(x, s[1..], le);
      var rest := Insert(x, s[1..], le);
      assert s == [s[0]] + s[1..];
      forall j | 0 <= j < |rest| ensures le(s[0], rest[j]) {
        assert rest[j] in multiset(rest);
        assert rest[j] in [x] + s[1..];
      }
    }
  }

  lemma {:induction false} SortIsAscending<T(!new)>(s: seq<T>, le: (T, T) -> bool)
    requires IsOrder(le)
    ensures Ascending(Sort(s, le), le) && multiset(Sort(s, le)) == multiset(s)
  {
    if s != [] {
      SortIsAscending(s[1..], le);
      InsertIsAscending(s[0], Sort(s[1..], le), le);
      assert s == [s[0]] + s[1..];
    }
  }

  lemma SameElements<T>(s: seq<T>, t: seq<T>)
    requires multiset(s) == multiset(t)
    ensures |s| == |t|
    ensures forall x :: x in s <==> x in t
  {
    assert |multiset(s)| == |s| && |multiset(t)| == |t|;
    forall x ensures x in s <==> x in t {
      assert x in s <==> x in multiset(s);
    }
  }

  lemma ElementsOfConcat<T>(a: seq<T>, x: T, b: seq<T>)
    ensures multiset(a + [x] + b) == multiset(a + b) + multiset{x}
  {
  }

  /** Taking one occurrence of the same element from both sides. */
  lemma RemoveOne<T>(a: seq<T>, b: seq<T>, x: T, c: seq<T>, d: seq<T>)
    requires multiset(a + [x] + b) == multiset(c + [x] + d)
    ensures multiset(a + b) == multiset(c + d)
  {
    ElementsOfConcat(a, x, b);
    ElementsOfConcat(c, x, d);
    Cancel(multiset(a + b), multiset(c + d), x);
  }

  lemma Cancel<T>(m: multiset<T>, n: multiset<T>, x: T)
    requires m + multiset{x} == n + multiset{x}
    ensures m == n
  {
    assert m == (m + multiset{x}) - multiset{x};
  }

  ghost predicate NoTies<T>(s: seq<T>, le: (T, T) -> bool) {
    forall a, b :: a in s && b in s && le(a, b) && le(b, a) ==> a == b
  }

  lemma HeadsAgree<T(!new)>(s: seq<T>, t: seq<T>, le: (T, T) -> bool)
    requires IsOrder(le) && Ascending(s, le) && Ascending(t, le) && s != [] && t != []
    requires (forall x :: x in s <==> x in t) && NoTies(s, le)
    ensures s[0] == t[0]
  {
    assert s[0] in t && t[0] in s;
    assert le(s[0], s[0]) && le(t[0], t[0]);
    assert le(s[0], t[0]) && le(t[0], s[0]);
  }

  lemma {:induction false} AscendingIsUnique<T(!new)>(s: seq<T>, t: seq<T>, le: (T, T) -> bool)
    requires IsOrder(le) && Ascending(s, le) && Ascending(t, le)
    requires multiset(s) == multiset(t) && NoTies(s, le)
    ensures s == t
  {
    SameElements(s, t);
    if s != [] {
      HeadsAgree(s, t, le);
      var s', t' := s[1..], t[1..];
      assert multiset(s') == multiset(t') by {
        assert s == [] + [s[0]] + s' && t == [] + [s[0]] + t' && [] + s' == s' && [] + t' == t';
        RemoveOne([], s', s[0], [], t');
      }
      assert Ascending(s', le) && Ascending(t', le);
      assert NoTies(s', le) by {
        assert forall x :: x in s' ==> x in s;
      }
      AscendingIsUnique(s', t', le);
      assert s == [s[0]] + s' && t == [t[0]] + t';
    }
  }

  /** Without ties, sorting forgets the order it was given. */
  lemma SortIgnoresOrder<T(!new)>(s: seq<T>, t: seq<T>, le: (T, T) -> bool)
    requires IsOrder(le) && multiset(s) == multiset(t) && NoTies(s, le)
    ensures Sort(s, le) == Sort(t, le)
  {
    SortIsAscending(s, le);
    SortIsAscending(t, le);
    SameElements(s, Sort(s, le));
    AscendingIsUnique(Sort(s, le), Sort(t, le), le);
  }

  // --- and remembers exactly the order of ties -----------------------------

  /** All that ties with `x`. */
  ghost function Tied<T>(s: seq<T>, x: T, le: (T, T) -> bool): seq<T> {
    Filter(s, y => le(x, y) && le(y, x))
  }

  lemma {:induction false} InsertIsStable<T(!new)>(x: T, s: seq<T>, z: T, le: (T, T) -> bool)
    requires IsOrder(le) && Ascending(s, le)
    ensures Tied(Insert(x, s, le), z, le) == Tied([x] + s, z, le)
  {
    if s == [] {
      assert [x] + s == [x];
    } else if !le(x, s[0]) {
      InsertIsStable(x, s[1..], z, le);
      var rest := Insert(x, s[1..], le);
      var tied := y => le(z, y) && le(y, z);
      assert ([s[0]] + rest)[1..] == rest && ([x] + s)[1..] == s && ([x] + s[1..])[1..] == s[1..];
      assert !(tied(s[0]) && tied(x));
      assert Filter([x] + s, tied) == (if tied(x) then [x] else []) + ((if tied(s[0]) then [s[0]] else []) + Filter(s[1..], tied));
      assert Filter([x] + s[1..], tied) == (if tied(x) then [x] else []) + Filter(s[1..], tied);
      assert Filter([s[0]] + rest, tied) == (if tied(s[0]) then [s[0]] else []) + Filter(rest, tied);
    }
  }

  lemma {:induction false} SortIsStable<T(!new)>(s: seq<T>, z: T, le: (T, T) -> bool)
    requires IsOrder(le)
    ensures Tied(Sort(s, le), z, le) == Tied(s, z, le)
  {
    if s != [] {
      SortIsStable(s[1..], z, le);
      SortIsAscending(s[1..], le);
      InsertIsStable(s[0], Sort(s[1..], le), z, le);
      assert ([s[0]] + Sort(s[1..], le))[1..] == Sort(s[1..], le);
    }
  }

  lemma {:induction false} FilterTwice<T>(s: seq<T>, p: T -> bool, q: T -> bool)
    requires forall x :: x in s && q(x) ==> p(x)
    ensures Filter(Filter(s, p), q) == Filter(s, q)
  {
    if s != [] {
      FilterTwice(s[1..], p, q);
      assert s[0] in s;
      assert p(s[0]) ==> ([s[0]] + Filter(s[1..], p))[1..] == Filter(s[1..], p);
    }
  }

  lemma TiedOfFiltered<T>(s: seq<T>, p: T -> bool, z: T, le: (T, T) -> bool)
    requires forall y :: y in s && le(z, y) && le(y, z) ==> p(y)
    ensures Tied(Filter(s, p), z, le) == Tied(s, z, le)
  {
    FilterTwice(s, p, y => le(z, y) && le(y, z));
  }

  // --- filtering and mapping a permutation ---------------------------------

  lemma {:induction false} FilterCounts<T>(s: seq<T>, p: T -> bool, x: T)
    ensures multiset(Filter(s, p))[x] == if p(x) then multiset(s)[x] else 0
  {
    if s != [] {
      FilterCounts(s[1..], p, x);
      assert s == [s[0]] + s[1..];
    }
  }

  lemma {:induction false} FilterContains<T>(s: seq<T>, p: T -> bool, x: T)
    ensures x in Filter(s, p) <==> x in s && p(x)
  {
    if s != [] {
      FilterContains(s[1..], p, x);
      assert s == [s[0]] + s[1..];
    }
  }

  lemma {:induction false} FilterIsAscending<T(!new)>(s: seq<T>, p: T -> bool, le: (T, T) -> bool)
    requires Ascending(s, le)
    ensures Ascending(Filter(s, p), le)
  {
    if s != [] {
      FilterIsAscending(s[1..], p, le);
      var rest := Filter(s[1..], p);
      forall j | 0 <= j < |rest| ensures le(s[0], rest[j]) {
        FilterContains(s[1..], p, rest[j]);
      }
    }
  }

  lemma FilterIgnoresOrder<T(!new)>(s: seq<T>, t: seq<T>, p: T -> bool)
    requires multiset(s) == multiset(t)
    ensures multiset(Filter(s, p)) == multiset(Filter(t, p))
  {
    forall x ensures multiset(Filter(s, p))[x] == multiset(Filter(t, p))[x] {
      FilterCounts(s, p, x);
      FilterCounts(t, p, x);
    }
  }

  lemma {:induction false} FilterOfConcat<T>(a: seq<T>, b: seq<T>, p: T -> bool)
    ensures Filter(a + b, p) == Filter(a, p) + Filter(b, p)
  {
    if a == [] {
      assert a + b == b;
    } else {
      FilterOfConcat(a[1..], b, p);
      assert (a + b)[1..] == a[1..] + b;
    }
  }

  lemma {:induction false} MapOfConcat<T, U>(a: seq<T>, b: seq<T>, f: T -> U)
    ensures Map(a + b, f) == Map(a, f) + Map(b, f)
  {
  }

  lemma MapSplits<T, U>(a: seq<T>, x: T, b: seq<T>, f: T -> U)
    ensures multiset(Map(a + [x] + b, f)) == multiset(Map(a + b, f)) + multiset{f(x)}
  {
    MapOfConcat(a + [x], b, f);
    MapOfConcat(a, [x], f);
    MapOfConcat(a, b, f);
    assert Map([x], f) == [f(x)];
    hide Map;
    ElementsOfConcat(Map(a, f), f(x), Map(b, f));
  }

  lemma {:induction false} MapIgnoresOrder<T, U>(s: seq<T>, t: seq<T>, f: T -> U)
    requires multiset(s) == multiset(t)
    ensures multiset(Map(s, f)) == multiset(Map(t, f))
  {
    if s == [] {
      SameElements(s, t);
    } else {
      var x, rest := s[0], s[1..];
      SameElements(s, t);
      var before, after := SplitAt(t, x);
      assert multiset(rest) == multiset(before + after) && s == [] + [x] + rest by {
        assert s == [] + [x] + rest && [] + rest == rest;
        RemoveOne([], rest, x, before, after);
      }
      hide Map;
      MapIgnoresOrder(rest, before + after, f);
      MapSplits([], x, rest, f);
      MapSplits(before, x, after, f);
      assert [] + rest == rest;
    }
  }

  lemma SplitAt<T>(t: seq<T>, x: T) returns (before: seq<T>, after: seq<T>)
    requires x in t
    ensures t == before + [x] + after
  {
    var j :| 0 <= j < |t| && t[j] == x;
    before, after := t[..j], t[j + 1..];
  }

  // --- strings -------------------------------------------------------------

  /** Python's order on strings: by code point, a prefix first. */
  predicate StringLe(a: string, b: string) {
    a == "" || (b != "" && (a[0] < b[0] || (a[0] == b[0] && StringLe(a[1..], b[1..]))))
  }

  lemma {:induction false} StringLeIsTotal(a: string, b: string)
    ensures StringLe(a, b) || StringLe(b, a)
    ensures StringLe(a, b) && StringLe(b, a) ==> a == b
  {
    if a != "" && b != "" {
      StringLeIsTotal(a[1..], b[1..]);
      if a[0] == b[0] {
        assert a == [a[0]] + a[1..] && b == [b[0]] + b[1..];
      }
    }
  }

  lemma {:induction false} StringLeIsTransitive(a: string, b: string, c: string)
    requires StringLe(a, b) && StringLe(b, c)
    ensures StringLe(a, c)
  {
    if a != "" && b != "" && a[0] == b[0] == c[0] {
      StringLeIsTransitive(a[1..], b[1..], c[1..]);
    }
  }

  /** An order on values from the order of their string keys. */
  function ByString<T>(key: T -> string): (T, T) -> bool {
    (a, b) => StringLe(key(a), key(b))
  }

  function ByNumber<T>(key: T -> int): (T, T) -> bool {
    (a, b) => key(a) <= key(b)
  }

  lemma ByStringIsOrder<T(!new)>(key: T -> string)
    ensures IsOrder(ByString(key))
  {
    var le := ByString(key);
    forall a, b ensures le(a, b) || le(b, a) {
      StringLeIsTotal(key(a), key(b));
    }
    forall a, b, c | le(a, b) && le(b, c) ensures le(a, c) {
      StringLeIsTransitive(key(a), key(b), key(c));
    }
  }

  lemma ByNumberIsOrder<T(!new)>(key: T -> int)
    ensures IsOrder(ByNumber(key))
  {
  }
}
