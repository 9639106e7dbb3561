/**
 Shared vocabulary: optional values, results, the code-point order on strings,
 and the library sort the source calls (`sorted`, `list.sort`).
 */
module Base {

  datatype Option<+T> = None | Some(value: T)

  datatype Result<+T, +E> = Ok(value: T) | Err(error: E)

  ghost predicate NoDup<T>(xs: seq<T>)
  {
    forall i, j | 0 <= i < j < |xs| :: xs[i] != xs[j]
  }

  function Elems<T>(xs: seq<T>): set<T>
  {
    set x | x in xs
  }

  /** Where `x` first occurs. */
  function Pos<T(==)>(xs: seq<T>, x: T): (p: nat)
    requires x in xs
    ensures p < |xs| && xs[p] == x && x !in xs[..p]
  {
    if xs[0] == x then 0
    else
      assert xs == [xs[0]] + xs[1..];
      1 + Pos(xs[1..], x)
  }

  /** Strings compare by code point, the first difference deciding. */
  predicate StrLt(a: string, b: string)
  {
    if b == [] then false
    else if a == [] then true
    else a[0] < b[0] || (a[0] == b[0] && StrLt(a[1..], b[1..]))
  }

  lemma {:induction false} StrLtIrreflexive(a: string)
    ensures !StrLt(a, a)
  {
    if a != [] { StrLtIrreflexive(a[1..]); }
  }

  lemma {:induction false} StrLtTransitive(a: string, b: string, c: string)
    requires StrLt(a, b) && StrLt(b, c)
    ensures StrLt(a, c)
  {
    if a != [] && a[0] == b[0] == c[0] { StrLtTransitive(a[1..], b[1..], c[1..]); }
  }

  lemma {:induction false} StrLtTotal(a: string, b: string)
    requires a != b
    ensures StrLt(a, b) || StrLt(b, a)
  {
    if a != [] && b != [] && a[0] == b[0] {
      assert a == [a[0]] + a[1..] && b == [b[0]] + b[1..];
      StrLtTotal(a[1..], b[1..]);
    }
  }

  /** Where `a` and `b` part: after `k` characters, where `a` ends or has the lower code point. */
  ghost predicate PartsBelow(a: string, b: string, k: nat)
  {
    k <= |a| && k < |b| && a[..k] == b[..k] && (k < |a| ==> a[k] < b[k])
  }

  ghost predicate TextBelow(a: string, b: string) { exists k: nat :: PartsBelow(a, b, k) }

  /** The order compares code points at the first place the strings differ; a proper prefix comes first. */
  lemma {:induction false} StrLtIff(a: string, b: string)
    ensures StrLt(a, b) <==> TextBelow(a, b)
  {
    if a == [] && b != [] { assert PartsBelow(a, b, 0); }
    if a != [] && b != [] {
      StrLtIff(a[1..], b[1..]);
      if a[0] < b[0] { assert PartsBelow(a, b, 0); }
      if a[0] == b[0] {
        if k: nat :| PartsBelow(a[1..], b[1..], k) { LaterPart(a, b, k); }
        if k: nat :| PartsBelow(a, b, k) { EarlierPart(a, b, k); }
      }
    }
  }

  lemma LaterPart(a: string, b: string, k: nat)
    requires a != [] && b != [] && a[0] == b[0] && PartsBelow(a[1..], b[1..], k)
    ensures PartsBelow(a, b, k + 1)
  {
    assert a[..k + 1] == [a[0]] + a[1..][..k] && b[..k + 1] == [b[0]] + b[1..][..k];
  }

  lemma EarlierPart(a: string, b: string, k: nat)
    requires a != [] && b != [] && a[0] == b[0] && PartsBelow(a, b, k)
    ensures k > 0 && PartsBelow(a[1..], b[1..], k - 1)
  {
    assert k > 0 ==> a[1..][..k - 1] == a[..k][1..] && b[1..][..k - 1] == b[..k][1..];
  }

  /** `lt` orders the elements of `s` strictly and totally. */
  ghost predicate StrictOrderOn<T(!new)>(lt: (T, T) -> bool, s: set<T>)
  {
    && (forall a | a in s :: !lt(a, a))
    && (forall a, b, c | a in s && b in s && c in s && lt(a, b) && lt(b, c) :: lt(a, c))
    && (forall a, b | a in s && b in s && a != b :: lt(a, b) || lt(b, a))
  }

  lemma StrLtOrders(s: set<string>)
    ensures StrictOrderOn(StrLt, s)
  {
    forall a | a in s ensures !StrLt(a, a) { StrLtIrreflexive(a); }
    forall a, b, c | a in s && b in s && c in s && StrLt(a, b) && StrLt(b, c) ensures StrLt(a, c) {
      StrLtTransitive(a, b, c);
    }
    forall a, b | a in s && b in s && a != b ensures StrLt(a, b) || StrLt(b, a) { StrLtTotal(a, b); }
  }

  ghost predicate StrictlySorted<T(!new)>(lt: (T, T) -> bool, xs: seq<T>)
  {
    forall i, j | 0 <= i < j < |xs| :: lt(xs[i], xs[j])
  }

  /** Insert `x` behind every element that is not above it. */
  function Insert<T>(lt: (T, T) -> bool, x: T, xs: seq<T>): (r: seq<T>)
    ensures multiset(r) == multiset(xs) + multiset{x}
  {
    if xs == [] || lt(x, xs[0]) then
      assert [x] + xs == [x] + xs[..];
      [x] + xs
    else
      assert xs == [xs[0]] + xs[1..];
      [xs[0]] + Insert(lt, x, xs[1..])
  }

  /** The stable library sort. */
  function Sort<T>(lt: (T, T) -> bool, xs: seq<T>): (r: seq<T>)
    ensures multiset(r) == multiset(xs)
  {
    if xs == [] then []
    else
      assert xs == xs[..|xs| - 1] + [xs[|xs| - 1]];
      Insert(lt, xs[|xs| - 1], Sort(lt, xs[..|xs| - 1]))
  }

  lemma SameMultisetSameElems<T>(a: seq<T>, b: seq<T>)
    requires multiset(a) == multiset(b)
    ensures Elems(a) == Elems(b) && |a| == |b|
  {
    assert |multiset(a)| == |multiset(b)|;
    forall x ensures x in a <==> x in b {
      assert x in a <==> x in multiset(a);
      assert x in b <==> x in multiset(b);
    }
  }

  lemma {:induction false} InsertSorted<T(!new)>(lt: (T, T) -> bool, x: T, xs: seq<T>)
    requires StrictlySorted(lt, xs) && x !in xs
    requires StrictOrderOn(lt, Elems(xs) + {x})
    ensures StrictlySorted(lt, Insert(lt, x, xs))
  {
    if xs == [] {
    } else if lt(x, xs[0]) {
      assert forall i | 0 <= i < |xs| :: xs[i] in Elems(xs) + {x};
    } else {
      var rest := Insert(lt, x, xs[1..]);
      assert Elems(xs[1..]) <= Elems(xs);
      InsertSorted(lt, x, xs[1..]);
      assert multiset(rest) == multiset(xs[1..] + [x]);
      SameMultisetSameElems(rest, xs[1..] + [x]);
      forall i | 0 <= i < |rest| ensures lt(xs[0], rest[i]) {
        assert rest[i] in Elems(rest);
        assert rest[i] in xs[1..] + [x];
        assert xs[0] in Elems(xs);
      }
    }
  }

  lemma ElemsSnoc<T>(init: seq<T>, last: T)
    ensures Elems(init + [last]) == Elems(init) + {last}
  {
  }

  lemma {:induction false} SortSorted<T(!new)>(lt: (T, T) -> bool, xs: seq<T>)
    requires NoDup(xs) && StrictOrderOn(lt, Elems(xs))
    ensures StrictlySorted(lt, Sort(lt, xs)) && Elems(Sort(lt, xs)) == Elems(xs) && |Sort(lt, xs)| == |xs|
  {
    SameMultisetSameElems(Sort(lt, xs), xs);
    if xs != [] {
      var init, last := xs[..|xs| - 1], xs[|xs| - 1];
      assert xs == init + [last];
      ElemsSnoc(init, last);
      SortSorted(lt, init);
      assert last !in Elems(init);
      assert last !in Elems(Sort(lt, init));
      InsertSorted(lt, last, Sort(lt, init));
    }
  }

  /** Two strictly sorted lists of the same elements are the same list. */
  lemma {:induction false} SortedUnique<T(!new)>(lt: (T, T) -> bool, a: seq<T>, b: seq<T>)
    requires StrictlySorted(lt, a) && StrictlySorted(lt, b) && Elems(a) == Elems(b)
    requires StrictOrderOn(lt, Elems(a))
    ensures a == b
  {
    assert a == [] <==> Elems(a) == {} by { assert a != [] ==> a[0] in Elems(a); }
    assert b == [] <==> Elems(b) == {} by { assert b != [] ==> b[0] in Elems(b); }
    if a != [] {
      assert a[0] in Elems(a) && a[0] in b;
      assert b != [];
      assert b[0] in Elems(b) && b[0] in a;
      var x, y := a[0], b[0];
      var i :| 0 <= i < |a| && a[i] == y;
      var j :| 0 <= j < |b| && b[j] == x;
      assert i == 0 || lt(x, y);
      assert j == 0 || lt(y, x);
      TailElems(lt, a);
      TailElems(lt, b);
      SortedUnique(lt, a[1..], b[1..]);
      assert a == [a[0]] + a[1..] && b == [b[0]] + b[1..];
    }
  }

  lemma TailElems<T(!new)>(lt: (T, T) -> bool, a: seq<T>)
    requires a != [] && StrictlySorted(lt, a) && StrictOrderOn(lt, Elems(a))
    ensures Elems(a[1..]) == Elems(a) - {a[0]}
    ensures StrictlySorted(lt, a[1..])
  {
    forall x | x in a ensures x != a[0] ==> x in a[1..] {
      var k :| 0 <= k < |a| && a[k] == x;
      if k > 0 { assert a[1..][k - 1] == x; }
    }
    forall k | 0 <= k < |a[1..]| ensures a[1..][k] != a[0] {
      assert lt(a[0], a[k + 1]) && a[0] in Elems(a);
    }
  }

  /** Sorting forgets the order its input came in. */
  lemma SortForgetsOrder<T(!new)>(lt: (T, T) -> bool, a: seq<T>, b: seq<T>)
    requires NoDup(a) && NoDup(b) && Elems(a) == Elems(b) && StrictOrderOn(lt, Elems(a))
    ensures Sort(lt, a) == Sort(lt, b)
  {
    SortSorted(lt, a);
    SortSorted(lt, b);
    SortedUnique(lt, Sort(lt, a), Sort(lt, b));
  }

  lemma StrictlySortedNoDup<T(!new)>(lt: (T, T) -> bool, a: seq<T>)
    requires StrictlySorted(lt, a) && StrictOrderOn(lt, Elems(a))
    ensures NoDup(a)
  {
    forall i, j | 0 <= i < j < |a| ensures a[i] != a[j] {
      assert a[i] in Elems(a) && lt(a[i], a[j]);
    }
  }

  lemma {:induction false} NoDupCard<T>(xs: seq<T>)
    ensures |Elems(xs)| <= |xs|
    ensures NoDup(xs) <==> |Elems(xs)| == |xs|
  {
    if xs != [] {
      var init, last := xs[..|xs| - 1], xs[|xs| - 1];
      NoDupCard(init);
      assert Elems(xs) == Elems(init) + {last} by { assert xs == init + [last]; }
      assert last in init <==> last in Elems(init);
      if last !in init {
        assert NoDup(init) <==> NoDup(xs);
      } else {
        assert Elems(xs) == Elems(init);
        var i :| 0 <= i < |init| && init[i] == last;
        assert xs[i] == xs[|xs| - 1];
      }
    }
  }

  lemma SubsetCard<T>(a: set<T>, b: set<T>)
    requires a <= b
    ensures |a| <= |b|
    ensures a != b ==> |a| < |b|
  {
    assert b == a + (b - a);
    if a != b {
      var x :| x in b - a;
      assert |b - a| > 0;
    }
  }

  lemma Subtract<T>(a: set<T>, b: set<T>)
    ensures a - b == {} <==> a <= b
  {
    if a - b == {} {
      forall x | x in a ensures x in b { assert x !in a - b; }
    }
  }

  lemma NoDupConcat<T>(a: seq<T>, b: seq<T>)
    requires NoDup(a) && NoDup(b) && forall x | x in b :: x !in a
    ensures NoDup(a + b)
  {
    forall i, j | 0 <= i < j < |a + b| ensures (a + b)[i] != (a + b)[j] {
      assert j >= |a| ==> (a + b)[j] in b;
      assert i < |a| ==> (a + b)[i] in a;
    }
  }

  lemma {:induction false} CountOnce<T>(a: seq<T>, x: T)
    requires NoDup(a)
    ensures multiset(a)[x] == if x in a then 1 else 0
  {
    if a != [] {
      var init, last := a[..|a| - 1], a[|a| - 1];
      assert a == init + [last];
      CountOnce(init, x);
    }
  }

  lemma SameSetSameMultiset<T>(a: seq<T>, b: seq<T>)
    requires NoDup(a) && NoDup(b) && forall x :: x in a <==> x in b
    ensures multiset(a) == multiset(b)
  {
    forall x ensures multiset(a)[x] == multiset(b)[x] {
      CountOnce(a, x);
      CountOnce(b, x);
    }
  }

  /** A set written out in some order, as iterating over it yields. */
  method ListOf<T(==)>(s: set<T>) returns (xs: seq<T>)
    ensures Elems(xs) == s && NoDup(xs)
  {
    xs := [];
    var rest := s;
    while rest != {}
      invariant Elems(xs) + rest == s && Elems(xs) !! rest
      invariant NoDup(xs)
      decreases rest
    {
      var x :| x in rest;
      assert x !in Elems(xs);
      assert Elems(xs + [x]) == Elems(xs) + {x};
      xs, rest := xs + [x], rest - {x};
    }
  }

  predicate Least(m: string, s: set<string>)
  {
    m in s && forall y | y in s && y != m :: StrLt(m, y)
  }

  lemma {:induction false} LeastExists(s: set<string>)
    requires s != {}
    ensures exists m :: Least(m, s)
    ensures forall m, n | Least(m, s) && Least(n, s) :: m == n
  {
    forall m, n | Least(m, s) && Least(n, s) ensures m == n {
      if m != n {
        StrLtTransitive(m, n, m);
        StrLtIrreflexive(m);
      }
    }
    var m :| m in s;
    if s == {m} {
      assert Least(m, s);
    } else {
      LeastExists(s - {m});
      var k :| Least(k, s - {m});
      StrLtTotal(m, k);
      if StrLt(k, m) {
        assert Least(k, s);
      } else {
        forall y | y in s && y != m ensures StrLt(m, y) {
          if y != k { StrLtTransitive(m, k, y); }
        }
        assert Least(m, s);
      }
    }
  }

  /** `sorted(s)` for a set of strings. */
  function SortedStrings(s: set<string>): seq<string>
  {
    if s == {} then []
    else
      LeastExists(s);
      var m :| Least(m, s);
      [m] + SortedStrings(s - {m})
  }

  lemma SortedStringsStep(s: set<string>) returns (m: string)
    requires s != {}
    ensures Least(m, s) && SortedStrings(s) == [m] + SortedStrings(s - {m})
  {
    LeastExists(s);
    m :| Least(m, s);
  }

  lemma {:induction false} SortedStringsElems(s: set<string>)
    ensures Elems(SortedStrings(s)) == s && |SortedStrings(s)| == |s|
  {
    if s != {} {
      var m := SortedStringsStep(s);
      SortedStringsElems(s - {m});
      assert Elems([m] + SortedStrings(s - {m})) == {m} + Elems(SortedStrings(s - {m}));
    }
  }

  lemma {:induction false} SortedStringsAscend(s: set<string>)
    ensures StrictlySorted(StrLt, SortedStrings(s))
  {
    if s != {} {
      var m := SortedStringsStep(s);
      var rest := SortedStrings(s - {m});
      SortedStringsElems(s - {m});
      SortedStringsAscend(s - {m});
      forall i | 0 <= i < |rest| ensures StrLt(m, rest[i]) { assert rest[i] in Elems(rest); }
    }
  }

  lemma SortedStringsSorted(s: set<string>)
    ensures Elems(SortedStrings(s)) == s && |SortedStrings(s)| == |s|
    ensures StrictlySorted(StrLt, SortedStrings(s)) && NoDup(SortedStrings(s))
  {
    SortedStringsElems(s);
    SortedStringsAscend(s);
    StrLtOrders(s);
    StrictlySortedNoDup(StrLt, SortedStrings(s));
  }
}
