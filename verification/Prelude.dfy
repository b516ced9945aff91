/** Option and Result, the project's forms of Go's nil-able values and error returns. */
module Wrappers {
  datatype Option<+T> = None | Some(value: T)

  datatype Result<+T> = Ok(value: T) | Err(error: string)
}

/** Facts about finite sequences that several components need. */
module Lists {
  ghost function Elems<T(!new)>(s: seq<T>): set<T> {
    set x | x in s
  }

  ghost predicate Distinct<T>(s: seq<T>) {
    forall i, j :: 0 <= i < j < |s| ==> s[i] != s[j]
  }

  /** The first n elements, or all of them when there are fewer: Go's clamped `s[:n]`. */
  function Take<T>(s: seq<T>, n: nat): seq<T> {
    if n < |s| then s[..n] else s
  }

  function Min(a: int, b: int): int {
    if a <= b then a else b
  }

  function Max(a: int, b: int): int {
    if a >= b then a else b
  }

  lemma ElemsAppend<T(!new)>(s: seq<T>, x: T)
    ensures Elems(s + [x]) == Elems(s) + {x}
  {
    forall y
      ensures y in Elems(s + [x]) <==> y in Elems(s) + {x}
    {
      if y in s { var i :| 0 <= i < |s| && s[i] == y; assert (s + [x])[i] == y; }
      assert (s + [x])[|s|] == x;
    }
  }

  /** A sequence has at most as many values as positions, and as many exactly when none repeats. */
  lemma {:induction false} DistinctCardinality<T(!new)>(s: seq<T>)
    ensures |Elems(s)| <= |s|
    ensures Distinct(s) <==> |Elems(s)| == |s|
  {
    if |s| == 0 {
      assert Elems(s) == {};
    } else {
      var t, x := s[..|s|-1], s[|s|-1];
      assert s == t + [x];
      ElemsAppend(t, x);
      DistinctCardinality(t);
      if x in t {
        var i :| 0 <= i < |t| && t[i] == x;
        assert s[i] == s[|s|-1];
        assert Elems(s) == Elems(t);
      }
    }
  }

  lemma SubsetCardinality<T>(a: set<T>, b: set<T>)
    requires a <= b
    ensures |a| <= |b|
    ensures |a| == |b| ==> a == b
  {
    assert b == a + (b - a);
    if |a| == |b| { assert |b - a| == 0; }
  }

  lemma PermutationElems<T(!new)>(a: seq<T>, b: seq<T>)
    requires multiset(a) == multiset(b)
    ensures |a| == |b| && Elems(a) == Elems(b)
    ensures Distinct(a) ==> Distinct(b)
  {
    assert |multiset(a)| == |a| && |multiset(b)| == |b|;
    forall x
      ensures x in Elems(a) <==> x in Elems(b)
    {
      assert x in a <==> x in multiset(a);
      assert x in b <==> x in multiset(b);
    }
    DistinctCardinality(a);
    DistinctCardinality(b);
  }

  ghost function Image<T(!new), U(!new)>(f: T -> U, s: set<T>): set<U> {
    set x | x in s :: f(x)
  }

  /** Mapping a set through a function never enlarges it. */
  lemma {:induction false} ImageCardinality<T(!new), U(!new)>(f: T -> U, s: set<T>)
    ensures |Image(f, s)| <= |s|
    decreases |s|
  {
    if s != {} {
      var x :| x in s;
      var rest := s - {x};
      ImageCardinality(f, rest);
      assert Image(f, s) == Image(f, rest) + {f(x)};
    }
  }

  ghost function SumOf<T>(w: T -> real, s: seq<T>): real {
    if |s| == 0 then 0.0 else SumOf(w, s[..|s|-1]) + w(s[|s|-1])
  }

  lemma {:induction false} SumOfConcat<T>(w: T -> real, a: seq<T>, b: seq<T>)
    ensures SumOf(w, a + b) == SumOf(w, a) + SumOf(w, b)
  {
    if |b| == 0 {
      assert a + b == a;
    } else {
      assert (a + b)[..|a + b| - 1] == a + b[..|b|-1];
      SumOfConcat(w, a, b[..|b|-1]);
    }
  }
}

/**
 * Newest-first stable sorting: what `sort.SliceStable` computes for a "greater key first" order.
 * `StableSort` is one algorithm; `StableSortUnique` shows that its result is the only one possible.
 */
module Sorting {
  import opened Lists

  ghost predicate Descending<T>(key: T -> int, s: seq<T>) {
    forall i, j :: 0 <= i < j < |s| ==> key(s[i]) >= key(s[j])
  }

  function Insert<T>(key: T -> int, s: seq<T>, x: T): seq<T> {
    if |s| == 0 || key(s[0]) < key(x) then [x] + s
    else [s[0]] + Insert(key, s[1..], x)
  }

  function StableSort<T>(key: T -> int, s: seq<T>): seq<T> {
    if |s| == 0 then [] else Insert(key, StableSort(key, s[..|s|-1]), s[|s|-1])
  }

  /** The elements of one key value, in order of appearance. */
  ghost function Level<T>(key: T -> int, s: seq<T>, v: int): seq<T> {
    if |s| == 0 then []
    else (if key(s[0]) == v then [s[0]] else []) + Level(key, s[1..], v)
  }

  lemma {:induction false} LevelConcat<T>(key: T -> int, a: seq<T>, b: seq<T>, v: int)
    ensures Level(key, a + b, v) == Level(key, a, v) + Level(key, b, v)
  {
    if |a| == 0 {
      assert a + b == b;
    } else {
      var s := a + b;
      var first := if key(a[0]) == v then [a[0]] else [];
      LevelConcat(key, a[1..], b, v);
      assert s[0] == a[0] && s[1..] == a[1..] + b;
      assert Level(key, s, v) == first + Level(key, s[1..], v);
    }
  }

  lemma {:induction false} InsertPermutes<T>(key: T -> int, s: seq<T>, x: T)
    ensures multiset(Insert(key, s, x)) == multiset(s) + multiset{x}
  {
    if |s| > 0 && key(s[0]) >= key(x) {
      InsertPermutes(key, s[1..], x);
      assert s == [s[0]] + s[1..];
    }
  }

  lemma {:induction false} InsertDescending<T>(key: T -> int, s: seq<T>, x: T)
    requires Descending(key, s)
    ensures Descending(key, Insert(key, s, x))
  {
    if |s| > 0 && key(s[0]) >= key(x) {
      var rest := Insert(key, s[1..], x);
      InsertDescending(key, s[1..], x);
      InsertPermutes(key, s[1..], x);
      forall i | 0 <= i < |rest|
        ensures key(s[0]) >= key(rest[i])
      {
        assert rest[i] in multiset(rest);
        assert rest[i] in multiset(s[1..]) || rest[i] == x;
      }
    }
  }

  lemma {:induction false} InsertStable<T>(key: T -> int, s: seq<T>, x: T, v: int)
    requires Descending(key, s)
    ensures Level(key, Insert(key, s, x), v) == Level(key, s + [x], v)
  {
    if |s| == 0 || key(s[0]) < key(x) {
      LevelConcat(key, s, [x], v);
      LevelConcat(key, [x], s, v);
      if v == key(x) { LevelEmpty(key, s, v); }
    } else {
      InsertStable(key, s[1..], x, v);
      assert (s + [x])[1..] == s[1..] + [x];
    }
  }

  lemma {:induction false} LevelEmpty<T>(key: T -> int, s: seq<T>, v: int)
    requires forall i :: 0 <= i < |s| ==> key(s[i]) != v
    ensures Level(key, s, v) == []
  {
    if |s| > 0 { LevelEmpty(key, s[1..], v); }
  }

  /** A stable sort permutes, orders, and keeps the order of equal keys. */
  lemma {:induction false} StableSortCorrect<T>(key: T -> int, s: seq<T>)
    ensures Descending(key, StableSort(key, s))
    ensures multiset(StableSort(key, s)) == multiset(s)
    ensures forall v :: Level(key, StableSort(key, s), v) == Level(key, s, v)
  {
    if |s| > 0 {
      var t, x := s[..|s|-1], s[|s|-1];
      assert s == t + [x];
      StableSortCorrect(key, t);
      InsertDescending(key, StableSort(key, t), x);
      InsertPermutes(key, StableSort(key, t), x);
      forall v
        ensures Level(key, StableSort(key, s), v) == Level(key, s, v)
      {
        InsertStable(key, StableSort(key, t), x, v);
        LevelConcat(key, StableSort(key, t), [x], v);
        LevelConcat(key, t, [x], v);
      }
    }
  }

  /** Order plus stability leave no choice: two such arrangements are the same sequence. */
  lemma {:induction false} StableSortUnique<T>(key: T -> int, a: seq<T>, b: seq<T>)
    requires Descending(key, a) && Descending(key, b)
    requires forall v :: Level(key, a, v) == Level(key, b, v)
    ensures a == b
  {
    assert |b| > 0 ==> Level(key, b, key(b[0])) != [] && Level(key, a, key(b[0])) != [];
    if |a| > 0 {
      var v := key(a[0]);
      assert Level(key, a, v) != [];
      if |b| == 0 || key(b[0]) < v {
        LevelEmpty(key, b, v);
      } else if key(b[0]) > v {
        LevelEmpty(key, a, key(b[0]));
      } else {
        assert Level(key, a, v)[0] == Level(key, b, v)[0];
        forall u
          ensures Level(key, a[1..], u) == Level(key, b[1..], u)
        {
          var head := if u == v then 1 else 0;
          assert Level(key, a[1..], u) == Level(key, a, u)[head..];
          assert Level(key, b[1..], u) == Level(key, b, u)[head..];
        }
        StableSortUnique(key, a[1..], b[1..]);
      }
    }
  }

  lemma SortedUnchanged<T>(key: T -> int, s: seq<T>)
    requires Descending(key, s)
    ensures StableSort(key, s) == s
  {
    StableSortCorrect(key, s);
    StableSortUnique(key, StableSort(key, s), s);
  }

  /** Sorting moves elements without adding or losing any. */
  lemma StableSortElems<T(!new)>(key: T -> int, s: seq<T>)
    ensures Descending(key, StableSort(key, s))
    ensures |StableSort(key, s)| == |s| && Elems(StableSort(key, s)) == Elems(s)
    ensures Distinct(s) ==> Distinct(StableSort(key, s))
  {
    StableSortCorrect(key, s);
    PermutationElems(s, StableSort(key, s));
  }

  lemma {:induction false} SumOfInsert<T>(w: T -> real, key: T -> int, s: seq<T>, x: T)
    ensures SumOf(w, Insert(key, s, x)) == SumOf(w, s) + w(x)
  {
    if |s| == 0 || key(s[0]) < key(x) {
      SumOfConcat(w, [x], s);
      assert SumOf(w, [x]) == w(x) by { assert [x][..0] == []; }
    } else {
      SumOfInsert(w, key, s[1..], x);
      SumOfConcat(w, [s[0]], Insert(key, s[1..], x));
      SumOfConcat(w, [s[0]], s[1..]);
      assert [s[0]] + s[1..] == s;
    }
  }

  lemma {:induction false} SumOfSorted<T>(w: T -> real, key: T -> int, s: seq<T>)
    ensures SumOf(w, StableSort(key, s)) == SumOf(w, s)
  {
    if |s| > 0 {
      SumOfSorted(w, key, s[..|s|-1]);
      SumOfInsert(w, key, StableSort(key, s[..|s|-1]), s[|s|-1]);
    }
  }

  /** `order` lists each position below n exactly once. */
  ghost predicate IsOrdering(order: seq<nat>, n: nat) {
    && |order| == n && Distinct(order)
    && (forall i :: 0 <= i < n ==> order[i] < n)
    && (forall v: nat :: v < n ==> v in order)
  }

  lemma SortedPositions(key: nat -> int, n: nat)
    ensures IsOrdering(StableSort(key, seq<nat>(n, i => i)), n)
  {
    var positions := seq<nat>(n, i => i);
    var sorted := StableSort(key, positions);
    StableSortElems(key, positions);
    forall i | 0 <= i < n
      ensures sorted[i] < n
    {
      assert sorted[i] in Elems(positions);
    }
    forall v: nat | v < n
      ensures v in sorted
    {
      assert positions[v] == v;
      assert v in Elems(positions);
      assert v in Elems(sorted);
    }
  }

  /** `sort.Slice` with a "greater key first" order: some descending arrangement, nothing promised on ties. */
  method SortSlice<T>(key: T -> int, s: seq<T>) returns (r: seq<T>, ghost order: seq<nat>)
    ensures IsOrdering(order, |s|) && |r| == |s|
    ensures forall i :: 0 <= i < |s| ==> r[i] == s[order[i]]
    ensures Descending(key, r)
  {
    var at := (i: nat) => if i < |s| then key(s[i]) else 0;
    var sorted := StableSort(at, seq<nat>(|s|, i => i));
    SortedPositions(at, |s|);
    StableSortCorrect(at, seq<nat>(|s|, i => i));
    r, order := seq(|s|, i requires 0 <= i < |s| => s[sorted[i]]), sorted;
    assert forall i :: 0 <= i < |s| ==> key(r[i]) == at(sorted[i]);
  }
}
