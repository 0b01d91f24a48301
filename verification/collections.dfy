/**
 * The java.util collection behaviour the partial-URL classes rely on:
 * insertion-ordered sets (LinkedHashSet), sorted sets and maps (TreeSet,
 * TreeMap), nested iteration, and "the first element that qualifies".
 */
module Collections {
  import opened Wrappers

  predicate NoDuplicates<T(==)>(s: seq<T>)
  {
    forall i, j :: 0 <= i < j < |s| ==> s[i] != s[j]
  }

  /** The elements of `s` as a set. */
  function Elements<T>(s: seq<T>): set<T>
  {
    set x | x in s
  }

  /** The non-null elements, in order (the `if(x != null)` filter of the factories). */
  function Present<T(!new)>(xs: seq<Option<T>>): (r: seq<T>)
    ensures forall x :: x in r <==> Some(x) in xs
    ensures |xs| > 0 && xs[0].Some? ==> |r| > 0 && r[0] == xs[0].value
  {
    if |xs| == 0 then []
    else (if xs[0].Some? then [xs[0].value] else []) + Present(xs[1..])
  }

  /**
   * `LinkedHashSet.add` of each element of `xs` in turn, starting from
   * `acc`: a value already present is ignored, so each value keeps the
   * position of its first occurrence.
   */
  function AddAll<T(==,!new)>(acc: seq<T>, xs: seq<T>): (r: seq<T>)
    requires NoDuplicates(acc)
    ensures NoDuplicates(r)
    ensures forall x :: x in r <==> x in acc || x in xs
    ensures |acc| <= |r| && r[..|acc|] == acc
    decreases |xs|
  {
    if |xs| == 0 then acc
    else AddAll(if xs[0] in acc then acc else acc + [xs[0]], xs[1..])
  }

  /** A `LinkedHashSet` built from `xs`: each value once, in the order it first occurs in `xs`. */
  function Distinct<T(==,!new)>(xs: seq<T>): (r: seq<T>)
    ensures NoDuplicates(r)
    ensures forall x :: x in r <==> x in xs
    ensures |xs| > 0 ==> |r| > 0 && r[0] == xs[0]
    ensures InFirstSeenOrder(r, xs)
  {
    if |xs| == 0 then []
    else
      AddAllOrder([xs[0]], [xs[0]], xs[1..]);
      assert [xs[0]] + xs[1..] == xs;
      AddAll([xs[0]], xs[1..])
  }

  /** Where `x` first occurs in `xs` (`indexOf`), or `|xs|` when it does not occur. */
  function Position<T(==)>(xs: seq<T>, x: T): (i: nat)
    ensures i <= |xs|
    ensures i < |xs| <==> x in xs
    ensures i < |xs| ==> xs[i] == x
    ensures forall j :: 0 <= j < i ==> xs[j] != x
    decreases |xs|
  {
    if |xs| == 0 then 0
    else if xs[0] == x then 0
    else
      assert x in xs <==> x in xs[1..] by {
        assert xs == [xs[0]] + xs[1..];
      }
      1 + Position(xs[1..], x)
  }

  /** `r` lists values of `xs` in the order in which they first occur in `xs`. */
  predicate InFirstSeenOrder<T(==)>(r: seq<T>, xs: seq<T>)
  {
    forall i, j :: 0 <= i < j < |r| ==> Position(xs, r[i]) < Position(xs, r[j])
  }

  /** A position that only `x` occupies and no earlier index holds `x` is its first occurrence. */
  lemma PositionIs<T>(xs: seq<T>, x: T, i: nat)
    requires i <= |xs| && (i < |xs| ==> xs[i] == x) && (i == |xs| ==> x !in xs)
    requires forall j :: 0 <= j < i ==> xs[j] != x
    ensures Position(xs, x) == i
  {
  }

  /** The first occurrence in a concatenation is in the left part when the value occurs there. */
  lemma PositionAppend<T>(a: seq<T>, b: seq<T>, x: T)
    ensures Position(a + b, x) == if x in a then Position(a, x) else |a| + Position(b, x)
  {
    if x in a {
      PositionIs(a + b, x, Position(a, x));
    } else {
      forall j | 0 <= j < |a| + Position(b, x)
        ensures (a + b)[j] != x
      {
        if j < |a| {
          assert a[j] in a;
        }
      }
      if x in a + b {
        assert x in b;
      }
      PositionIs(a + b, x, |a| + Position(b, x));
    }
  }

  /** Adding one more value to a set kept in first-seen order keeps it in first-seen order. */
  lemma AddOneOrder<T>(h: seq<T>, acc: seq<T>, x: T)
    requires forall y :: y in acc <==> y in h
    requires InFirstSeenOrder(acc, h)
    ensures var acc' := if x in acc then acc else acc + [x];
      && (forall y :: y in acc' <==> y in h + [x])
      && InFirstSeenOrder(acc', h + [x])
  {
    var acc' := if x in acc then acc else acc + [x];
    forall i, j | 0 <= i < j < |acc'|
      ensures Position(h + [x], acc'[i]) < Position(h + [x], acc'[j])
    {
      assert acc'[i] == acc[i] && acc[i] in h;
      PositionAppend(h, [x], acc'[i]);
      PositionAppend(h, [x], acc'[j]);
      if j < |acc| {
        assert acc'[j] == acc[j] && acc[j] in h;
      }
    }
  }

  /**
   * `AddAll` keeps the first-seen order: when `acc` holds the values of
   * `h` in the order they first occur there, the result holds those of
   * `h + xs` in that order.
   */
  lemma {:induction false} AddAllOrder<T(!new)>(h: seq<T>, acc: seq<T>, xs: seq<T>)
    requires NoDuplicates(acc) && (forall y :: y in acc <==> y in h)
    requires InFirstSeenOrder(acc, h)
    ensures InFirstSeenOrder(AddAll(acc, xs), h + xs)
    decreases |xs|
  {
    if |xs| == 0 {
      assert h + xs == h;
    } else {
      var h', acc' := h + [xs[0]], if xs[0] in acc then acc else acc + [xs[0]];
      assert h' + xs[1..] == h + xs;
      assert AddAll(acc, xs) == AddAll(acc', xs[1..]);
      AddOneOrder(h, acc, xs[0]);
      AddNewNoDuplicates(acc, xs[0]);
      AddAllOrder(h', acc', xs[1..]);
    }
  }

  lemma AddNewNoDuplicates<T>(acc: seq<T>, x: T)
    requires NoDuplicates(acc)
    ensures NoDuplicates(if x in acc then acc else acc + [x])
  {
    if x !in acc {
      var acc' := acc + [x];
      forall i, j | 0 <= i < j < |acc'|
        ensures acc'[i] != acc'[j]
      {
        if j == |acc| {
          assert acc'[i] in acc;
        }
      }
    }
  }

  /** Dropping the nulls keeps the order in which values first occur. */
  lemma {:induction false} PresentOrder<T(!new)>(xs: seq<Option<T>>, x: T, y: T)
    requires Position(Present(xs), x) < Position(Present(xs), y)
    ensures Position(xs, Some(x)) < Position(xs, Some(y))
    decreases |xs|
  {
    var tail := xs[1..];
    if xs[0].None? {
      assert Present(xs) == Present(tail);
      PresentOrder(tail, x, y);
    } else {
      var rest := Present(tail);
      assert Present(xs) == [xs[0].value] + rest;
      if x != xs[0].value {
        assert Position(Present(xs), x) == 1 + Position(rest, x);
        assert Position(Present(xs), y) == 1 + Position(rest, y);
        PresentOrder(tail, x, y);
      }
    }
  }

  /** Iteration over a field that may be null: a null field is one null slot. */
  function Slots<T>(s: Option<seq<T>>): (r: seq<Option<T>>)
    ensures s.None? ==> r == [None]
    ensures s.Some? ==> |r| == |s.value| && forall i :: 0 <= i < |r| ==> r[i] == Some(s.value[i])
  {
    if s.None? then [None] else seq(|s.value|, i requires 0 <= i < |s.value| => Some(s.value[i]))
  }

  function MapSeq<A, B>(xs: seq<A>, f: A -> B): (r: seq<B>)
    ensures |r| == |xs| && forall i :: 0 <= i < |xs| ==> r[i] == f(xs[i])
  {
    seq(|xs|, i requires 0 <= i < |xs| => f(xs[i]))
  }

  function Pairs<A, B>(a: A, ys: seq<B>): (r: seq<(A, B)>)
    ensures |r| == |ys| && forall i :: 0 <= i < |ys| ==> r[i] == (a, ys[i])
  {
    seq(|ys|, i requires 0 <= i < |ys| => (a, ys[i]))
  }

  /** Two nested `for` loops: every `x` of `xs` in order, and for each, every `y` of `ys` in order. */
  function Product<A, B>(xs: seq<A>, ys: seq<B>): seq<(A, B)>
    decreases |xs|
  {
    if |xs| == 0 then [] else Pairs(xs[0], ys) + Product(xs[1..], ys)
  }

  lemma {:induction false} ProductLength<A, B>(xs: seq<A>, ys: seq<B>)
    ensures |Product(xs, ys)| == |xs| * |ys|
    decreases |xs|
  {
    if |xs| > 0 {
      ProductLength(xs[1..], ys);
      calc {
        |Product(xs, ys)|;
        |ys| + |Product(xs[1..], ys)|;
        |ys| + (|xs| - 1) * |ys|;
        |xs| * |ys|;
      }
    }
  }

  lemma {:induction false} ProductMembership<A, B>(xs: seq<A>, ys: seq<B>, p: (A, B))
    ensures p in Product(xs, ys) <==> p.0 in xs && p.1 in ys
    decreases |xs|
  {
    if |xs| > 0 {
      ProductMembership(xs[1..], ys, p);
      assert p.0 in xs <==> p.0 == xs[0] || p.0 in xs[1..] by {
        assert xs == [xs[0]] + xs[1..];
      }
      if p.0 == xs[0] && p.1 in ys {
        var i :| 0 <= i < |ys| && ys[i] == p.1;
        assert Pairs(xs[0], ys)[i] == p;
      }
    }
  }

  lemma {:induction false} ProductNoDuplicates<A, B>(xs: seq<A>, ys: seq<B>)
    requires NoDuplicates(xs) && NoDuplicates(ys)
    ensures NoDuplicates(Product(xs, ys))
    decreases |xs|
  {
    if |xs| > 0 {
      ProductNoDuplicates(xs[1..], ys);
      var head := Pairs(xs[0], ys);
      var tail := Product(xs[1..], ys);
      forall i, j | 0 <= i < |head| && 0 <= j < |tail|
        ensures head[i] != tail[j]
      {
        assert tail[j] in tail;
        ProductMembership(xs[1..], ys, tail[j]);
        assert xs[0] !in xs[1..];
      }
      assert head + tail == Product(xs, ys);
    }
  }

  lemma ProductFirst<A, B>(xs: seq<A>, ys: seq<B>)
    requires |xs| > 0 && |ys| > 0
    ensures |Product(xs, ys)| > 0 && Product(xs, ys)[0] == (xs[0], ys[0])
  {
  }

  /** The first element of `xs` satisfying `p`: the "return on the first hit" loop. */
  function FirstWhere<T>(xs: seq<T>, p: T -> bool): (r: Option<T>)
    ensures r.Some? ==> r.value in xs && p(r.value)
    ensures r.None? ==> forall x :: x in xs ==> !p(x)
    decreases |xs|
  {
    if |xs| == 0 then None
    else if p(xs[0]) then Some(xs[0])
    else FirstWhere(xs[1..], p)
  }

  lemma {:induction false} FirstWhereConcat<T>(xs: seq<T>, ys: seq<T>, p: T -> bool)
    ensures FirstWhere(xs + ys, p) == if FirstWhere(xs, p).Some? then FirstWhere(xs, p) else FirstWhere(ys, p)
    decreases |xs|
  {
    if |xs| > 0 {
      assert (xs + ys)[1..] == xs[1..] + ys;
      FirstWhereConcat(xs[1..], ys, p);
    } else {
      assert xs + ys == ys;
    }
  }

  /** A hit that only elements at or after index `i` could beat comes first. */
  lemma {:induction false} FirstWhereAt<T>(xs: seq<T>, p: T -> bool, i: nat)
    requires i < |xs| && p(xs[i])
    requires forall j :: 0 <= j < i ==> !p(xs[j])
    ensures FirstWhere(xs, p) == Some(xs[i])
    decreases i
  {
    if i > 0 {
      FirstWhereAt(xs[1..], p, i - 1);
    }
  }

  /** Where the first hit sits: no earlier element qualifies. */
  lemma {:induction false} FirstWhereIndex<T>(xs: seq<T>, p: T -> bool) returns (i: nat)
    requires FirstWhere(xs, p).Some?
    ensures i < |xs| && xs[i] == FirstWhere(xs, p).value
    ensures forall j :: 0 <= j < i ==> !p(xs[j])
    decreases |xs|
  {
    if p(xs[0]) {
      i := 0;
    } else {
      var k := FirstWhereIndex(xs[1..], p);
      i := k + 1;
    }
  }

  /** No element before the first occurrence of the first hit qualifies. */
  lemma FirstWhereBefore<T>(xs: seq<T>, p: T -> bool)
    requires FirstWhere(xs, p).Some?
    ensures forall j :: 0 <= j < Position(xs, FirstWhere(xs, p).value) ==> !p(xs[j])
  {
    var i := FirstWhereIndex(xs, p);
    assert Position(xs, xs[i]) <= i;
  }

  lemma {:induction false} FirstWherePairs<A, B>(a: A, ys: seq<B>, p: A -> bool, q: B -> bool, pq: ((A, B)) -> bool)
    requires forall b :: pq((a, b)) == (p(a) && q(b))
    ensures FirstWhere(Pairs(a, ys), pq)
         == if p(a) && FirstWhere(ys, q).Some? then Some((a, FirstWhere(ys, q).value)) else None
    decreases |ys|
  {
    if |ys| > 0 {
      assert Pairs(a, ys)[1..] == Pairs(a, ys[1..]);
      FirstWherePairs(a, ys[1..], p, q, pq);
    }
  }

  /**
   * In two nested loops over a condition that splits into one part per
   * loop variable, the first hit pairs the first hit of each loop.
   */
  lemma {:induction false} FirstWhereProduct<A, B>(xs: seq<A>, ys: seq<B>, p: A -> bool, q: B -> bool, pq: ((A, B)) -> bool)
    requires forall a, b :: pq((a, b)) == (p(a) && q(b))
    ensures FirstWhere(Product(xs, ys), pq)
         == if FirstWhere(xs, p).Some? && FirstWhere(ys, q).Some?
            then Some((FirstWhere(xs, p).value, FirstWhere(ys, q).value))
            else None
    decreases |xs|
  {
    if |xs| > 0 {
      FirstWhereConcat(Pairs(xs[0], ys), Product(xs[1..], ys), pq);
      FirstWherePairs(xs[0], ys, p, q, pq);
      FirstWhereProduct(xs[1..], ys, p, q, pq);
    }
  }

  /** `FirstWhereProduct` with the two factors' first elements already known. */
  lemma FirstOfProduct<A, B>(xs: seq<A>, ys: seq<B>, p: A -> bool, q: B -> bool, pq: ((A, B)) -> bool, a: Option<A>, b: Option<B>)
    requires forall x, y :: pq((x, y)) == (p(x) && q(y))
    requires FirstWhere(xs, p) == a && FirstWhere(ys, q) == b
    ensures FirstWhere(Product(xs, ys), pq) == if a.Some? && b.Some? then Some((a.value, b.value)) else None
  {
    FirstWhereProduct(xs, ys, p, q, pq);
  }

  lemma {:induction false} FirstWhereMap<A, B>(xs: seq<A>, f: A -> B, p: B -> bool, q: A -> bool)
    requires forall x :: q(x) == p(f(x))
    ensures FirstWhere(MapSeq(xs, f), p)
         == if FirstWhere(xs, q).Some? then Some(f(FirstWhere(xs, q).value)) else None
    decreases |xs|
  {
    if |xs| > 0 {
      assert MapSeq(xs, f)[1..] == MapSeq(xs[1..], f);
      FirstWhereMap(xs[1..], f, p, q);
    }
  }

  /** The first qualifying slot of a field: the null slot when the field is null, else the first qualifying value. */
  lemma {:induction false} FirstWhereSlots<T>(s: Option<seq<T>>, p: Option<T> -> bool, q: T -> bool)
    requires s.Some? ==> forall x :: p(Some(x)) == q(x)
    ensures s.None? ==> FirstWhere(Slots(s), p) == if p(None) then Some(None) else None
    ensures s.Some? ==>
      FirstWhere(Slots(s), p) == if FirstWhere(s.value, q).Some? then Some(Some(FirstWhere(s.value, q).value)) else None
  {
    if s.Some? {
      FirstWhereMap(s.value, x => Some(x), p, q);
      assert Slots(s) == MapSeq(s.value, x => Some(x));
    }
  }

  /** The sign of Apache Commons' `ObjectUtils.compare(a, b, true)`: nulls sort after every value. */
  function CompareNullsLast<T>(a: Option<T>, b: Option<T>, cmp: (T, T) -> int): int
  {
    match (a, b)
    case (None, None) => 0
    case (None, Some(_)) => 1
    case (Some(_), None) => -1
    case (Some(x), Some(y)) => cmp(x, y)
  }

  /** A comparator (the sign of `compareTo`) that is a strict total order with 0 for equal values. */
  ghost predicate TotalOrder<T(!new)>(cmp: (T, T) -> int)
  {
    && (forall x, y :: cmp(x, y) == 0 <==> x == y)
    && (forall x, y :: cmp(x, y) < 0 <==> cmp(y, x) > 0)
    && (forall x, y, z :: cmp(x, y) < 0 && cmp(y, z) < 0 ==> cmp(x, z) < 0)
  }

  lemma NullsLastOrder<T(!new)>(a: Option<T>, b: Option<T>, c: Option<T>, cmp: (T, T) -> int)
    requires TotalOrder(cmp)
    ensures CompareNullsLast(a, b, cmp) == 0 <==> a == b
    ensures CompareNullsLast(a, b, cmp) < 0 <==> CompareNullsLast(b, a, cmp) > 0
    ensures CompareNullsLast(a, b, cmp) < 0 && CompareNullsLast(b, c, cmp) < 0 ==> CompareNullsLast(a, c, cmp) < 0
  {
  }

  /** Every earlier element compares below every later one (a TreeSet or TreeMap in iteration order). */
  ghost predicate StrictlySorted<T>(s: seq<T>, cmp: (T, T) -> int)
  {
    forall i, j :: 0 <= i < j < |s| ==> cmp(s[i], s[j]) < 0
  }

  /**
   * `TreeMap.put` / `TreeSet.add` on the sorted sequence `s`: `x` goes
   * before the first element above it, and replaces an element that
   * compares equal.
   */
  function InsertSorted<T>(s: seq<T>, x: T, cmp: (T, T) -> int): seq<T>
    decreases |s|
  {
    if |s| == 0 then [x]
    else if cmp(x, s[0]) < 0 then [x] + s
    else if cmp(x, s[0]) == 0 then [x] + s[1..]
    else [s[0]] + InsertSorted(s[1..], x, cmp)
  }

  /** Insertion of a value that compares equal to nothing present keeps the order and adds exactly that value. */
  lemma InsertSortedKeepsOrder<T(!new)>(s: seq<T>, x: T, cmp: (T, T) -> int)
    requires TotalOrder(cmp) && StrictlySorted(s, cmp)
    requires x !in s
    ensures StrictlySorted(InsertSorted(s, x, cmp), cmp)
    ensures forall y :: y in InsertSorted(s, x, cmp) <==> y == x || y in s
    ensures |InsertSorted(s, x, cmp)| == |s| + 1
  {
    forall i | 0 <= i < |s|
      ensures cmp(x, s[i]) != 0
    {
    }
    InsertSortedElements(s, x, cmp);
    InsertSortedSorted(s, x, cmp);
  }

  /** The inserted value is added to the elements when it compares equal to none of them. */
  lemma {:induction false} InsertSortedElements<T>(s: seq<T>, x: T, cmp: (T, T) -> int)
    requires forall i :: 0 <= i < |s| ==> cmp(x, s[i]) != 0
    ensures forall y :: y in InsertSorted(s, x, cmp) <==> y == x || y in s
    ensures |InsertSorted(s, x, cmp)| == |s| + 1
    decreases |s|
  {
    if |s| > 0 && cmp(x, s[0]) > 0 {
      InsertSortedElements(s[1..], x, cmp);
      assert s == [s[0]] + s[1..];
    }
  }

  /** Insertion keeps a sorted sequence sorted. */
  lemma {:induction false} InsertSortedSorted<T(!new)>(s: seq<T>, x: T, cmp: (T, T) -> int)
    requires TotalOrder(cmp) && StrictlySorted(s, cmp)
    requires forall i :: 0 <= i < |s| ==> cmp(x, s[i]) != 0
    ensures StrictlySorted(InsertSorted(s, x, cmp), cmp)
    decreases |s|
  {
    if |s| > 0 && cmp(x, s[0]) > 0 {
      InsertSortedSorted(s[1..], x, cmp);
      InsertSortedElements(s[1..], x, cmp);
      var t := InsertSorted(s[1..], x, cmp);
      forall j | 0 <= j < |t|
        ensures cmp(s[0], t[j]) < 0
      {
        if t[j] != x {
          assert t[j] in t;
          var k :| 0 <= k < |s[1..]| && s[1..][k] == t[j];
          assert s[k + 1] == t[j];
        }
      }
      SortedCons(s[0], t, cmp);
    }
  }

  /** A value below every element of a sorted sequence can be put in front. */
  lemma SortedCons<T>(x: T, t: seq<T>, cmp: (T, T) -> int)
    requires StrictlySorted(t, cmp)
    requires forall j :: 0 <= j < |t| ==> cmp(x, t[j]) < 0
    ensures StrictlySorted([x] + t, cmp)
  {
    var r := [x] + t;
    forall i, j | 0 <= i < j < |r|
      ensures cmp(r[i], r[j]) < 0
    {
      assert r[j] == t[j - 1];
      if i > 0 {
        assert r[i] == t[i - 1];
      }
    }
  }

  /** `TreeSet.addAll(xs)` on the sorted `acc`. */
  function InsertAll<T>(acc: seq<T>, xs: seq<T>, cmp: (T, T) -> int): seq<T>
    decreases |xs|
  {
    if |xs| == 0 then acc else InsertAll(InsertSorted(acc, xs[0], cmp), xs[1..], cmp)
  }

  /** Sorting a duplicate-free sequence keeps exactly its elements, in ascending order. */
  lemma {:induction false} InsertAllSorts<T(!new)>(acc: seq<T>, xs: seq<T>, cmp: (T, T) -> int)
    requires TotalOrder(cmp) && StrictlySorted(acc, cmp)
    requires NoDuplicates(xs) && forall x :: x in xs ==> x !in acc
    ensures StrictlySorted(InsertAll(acc, xs, cmp), cmp)
    ensures forall y :: y in InsertAll(acc, xs, cmp) <==> y in acc || y in xs
    ensures |InsertAll(acc, xs, cmp)| == |acc| + |xs|
    decreases |xs|
  {
    if |xs| > 0 {
      InsertSortedKeepsOrder(acc, xs[0], cmp);
      assert xs == [xs[0]] + xs[1..];
      InsertAllSorts(InsertSorted(acc, xs[0], cmp), xs[1..], cmp);
    }
  }

  /** A strictly sorted sequence has no duplicates. */
  lemma SortedNoDuplicates<T(!new)>(s: seq<T>, cmp: (T, T) -> int)
    requires TotalOrder(cmp) && StrictlySorted(s, cmp)
    ensures NoDuplicates(s)
  {
    forall i, j | 0 <= i < j < |s|
      ensures s[i] != s[j]
    {
      assert cmp(s[i], s[j]) < 0;
    }
  }

  /** Looking for one value finds it exactly when it is present. */
  lemma {:induction false} FirstWhereEquals<T>(xs: seq<T>, v: T, p: T -> bool)
    requires forall x :: p(x) == (x == v)
    ensures FirstWhere(xs, p) == if v in xs then Some(v) else None
    decreases |xs|
  {
    if |xs| > 0 {
      FirstWhereEquals(xs[1..], v, p);
      assert xs == [xs[0]] + xs[1..];
    }
  }

  /** `FirstWhere` depends only on which elements qualify. */
  lemma {:induction false} FirstWhereSamePredicate<T>(xs: seq<T>, p: T -> bool, q: T -> bool)
    requires forall x :: x in xs ==> p(x) == q(x)
    ensures FirstWhere(xs, p) == FirstWhere(xs, q)
    decreases |xs|
  {
    if |xs| > 0 {
      FirstWhereSamePredicate(xs[1..], p, q);
    }
  }

  /** In a strictly sorted sequence, the first element satisfying `p` is the least of them. */
  lemma FirstWhereIsLeast<T(!new)>(xs: seq<T>, p: T -> bool, cmp: (T, T) -> int, x: T)
    requires TotalOrder(cmp) && StrictlySorted(xs, cmp)
    requires x in xs && p(x)
    ensures FirstWhere(xs, p).Some?
    ensures cmp(FirstWhere(xs, p).value, x) <= 0
  {
    var i := FirstWhereIndex(xs, p);
    var j :| 0 <= j < |xs| && xs[j] == x;
    if i < j {
      assert cmp(xs[i], xs[j]) < 0;
    }
  }
}
