/** The array primitives the route logic is built from: `indexOf`, the two
    ways the code removes duplicates, flattening, and occurrence counts. */
module Seqs {

  /** The set of elements of a sequence. */
  function Elems<T>(s: seq<T>): set<T>
  {
    set x | x in s
  }

  predicate NoDup<T(==)>(s: seq<T>)
  {
    forall i, j :: 0 <= i < j < |s| ==> s[i] != s[j]
  }

  /** `Array.prototype.indexOf` with strict equality: the first index holding
      `x`, or -1. */
  function IndexOf<T(==)>(s: seq<T>, x: T): (r: int)
    ensures r == -1 <==> x !in s
    ensures r != -1 ==> 0 <= r < |s| && s[r] == x && x !in s[..r]
  {
    if |s| == 0 then -1
    else if s[0] == x then 0
    else
      var k := IndexOf(s[1..], x);
      if k == -1 then -1 else k + 1
  }

  /** The number of elements of `s` equal to `x`
      (`s.filter(y => y === x).length`). */
  function Occurrences<T(==)>(s: seq<T>, x: T): nat
  {
    if |s| == 0 then 0
    else (if s[0] == x then 1 else 0) + Occurrences(s[1..], x)
  }

  lemma {:induction false} OccurrencesIsMultiplicity<T>(s: seq<T>, x: T)
    ensures Occurrences(s, x) == multiset(s)[x]
  {
    if |s| > 0 {
      OccurrencesIsMultiplicity(s[1..], x);
      assert s == [s[0]] + s[1..];
    }
  }

  /** All lists joined in order, as `[].concat(...lists)` would. */
  function Flatten<T>(lists: seq<seq<T>>): seq<T>
  {
    if |lists| == 0 then [] else lists[0] + Flatten(lists[1..])
  }

  lemma {:induction false} FlattenMembership<T>(lists: seq<seq<T>>, x: T)
    ensures x in Flatten(lists) <==> exists k :: 0 <= k < |lists| && x in lists[k]
  {
    if |lists| > 0 {
      FlattenMembership(lists[1..], x);
      if x in Flatten(lists[1..]) {
        var k :| 0 <= k < |lists[1..]| && x in lists[1..][k];
        assert x in lists[k + 1];
      }
      forall k | 0 < k < |lists| && x in lists[k]
        ensures x in Flatten(lists[1..])
      {
        assert lists[1..][k - 1] == lists[k];
      }
    }
  }

  lemma {:induction false} FlattenAppend<T>(a: seq<seq<T>>, b: seq<seq<T>>)
    ensures Flatten(a + b) == Flatten(a) + Flatten(b)
  {
    if |a| == 0 {
      assert a + b == b;
    } else {
      assert (a + b)[1..] == a[1..] + b;
      FlattenAppend(a[1..], b);
    }
  }

  /** `lists.reduce((prev, curr) => prev.concat(curr))` once the first list
      has been taken as the initial accumulator. */
  function ReduceConcat<T>(acc: seq<T>, rest: seq<seq<T>>): seq<T>
    decreases |rest|
  {
    if |rest| == 0 then acc else ReduceConcat(acc + rest[0], rest[1..])
  }

  lemma {:induction false} ReduceConcatIsFlatten<T>(acc: seq<T>, rest: seq<seq<T>>)
    ensures ReduceConcat(acc, rest) == acc + Flatten(rest)
    decreases |rest|
  {
    if |rest| > 0 {
      ReduceConcatIsFlatten(acc + rest[0], rest[1..]);
    }
  }

  /** The accumulation loop of the tag-page section: every element is pushed
      when `acc.indexOf(x) === -1`. */
  function AppendDistinct<T(==)>(acc: seq<T>, xs: seq<T>): seq<T>
    decreases |xs|
  {
    if |xs| == 0 then acc
    else
      var acc' := if IndexOf(acc, xs[0]) == -1 then acc + [xs[0]] else acc;
      AppendDistinct(acc', xs[1..])
  }

  lemma {:induction false} AppendDistinctConcat<T>(acc: seq<T>, a: seq<T>, b: seq<T>)
    ensures AppendDistinct(acc, a + b) == AppendDistinct(AppendDistinct(acc, a), b)
    decreases |a|
  {
    if |a| == 0 {
      assert a + b == b;
    } else {
      assert (a + b)[0] == a[0] && (a + b)[1..] == a[1..] + b;
      var acc' := if IndexOf(acc, a[0]) == -1 then acc + [a[0]] else acc;
      AppendDistinctConcat(acc', a[1..], b);
    }
  }

  /** `s.filter((x, index) => index === s.indexOf(x))` restricted to the
      indices `i..|s|`. */
  function KeepFirstFrom<T(==)>(s: seq<T>, i: nat): (r: seq<T>)
    requires i <= |s|
    ensures forall k :: 0 <= k < |r| ==> i <= IndexOf(s, r[k])
    ensures forall k, l :: 0 <= k < l < |r| ==> IndexOf(s, r[k]) < IndexOf(s, r[l])
    decreases |s| - i
  {
    if i == |s| then []
    else if IndexOf(s, s[i]) == i then [s[i]] + KeepFirstFrom(s, i + 1)
    else KeepFirstFrom(s, i + 1)
  }

  /** The first occurrence of every element, in the order they first occur. */
  function KeepFirst<T(==)>(s: seq<T>): (r: seq<T>)
    ensures NoDup(r)
    ensures Elems(r) == Elems(s)
    ensures forall k, l :: 0 <= k < l < |r| ==> IndexOf(s, r[k]) < IndexOf(s, r[l])
  {
    var r := KeepFirstFrom(s, 0);
    KeepFirstFromElems(s, 0);
    forall x | x in s ensures x in r {
      var k := IndexOf(s, x);
      assert s[k] == x;
    }
    r
  }

  lemma {:induction false} KeepFirstFromElems<T>(s: seq<T>, i: nat)
    requires i <= |s|
    ensures forall x :: x in KeepFirstFrom(s, i) ==> x in s[i..]
    ensures forall j :: i <= j < |s| && IndexOf(s, s[j]) == j ==> s[j] in KeepFirstFrom(s, i)
    decreases |s| - i
  {
    if i < |s| {
      KeepFirstFromElems(s, i + 1);
    }
  }

  /** The two duplicate-removal idioms agree, from any accumulator whose
      elements are exactly those already scanned. */
  lemma {:induction false} AppendDistinctKeepsFirst<T>(s: seq<T>, i: nat, acc: seq<T>)
    requires i <= |s|
    requires Elems(acc) == Elems(s[..i])
    ensures AppendDistinct(acc, s[i..]) == acc + KeepFirstFrom(s, i)
    decreases |s| - i
  {
    if i < |s| {
      var x := s[i];
      assert s[i..][0] == x && s[i..][1..] == s[i + 1..];
      assert s[..i + 1] == s[..i] + [x];
      assert x in acc <==> x in Elems(acc);
      assert x in s[..i] <==> x in Elems(s[..i]);
      assert IndexOf(s, x) == i <==> x !in s[..i];
      var acc' := if IndexOf(acc, x) == -1 then acc + [x] else acc;
      assert Elems(acc') == Elems(s[..i + 1]) by {
        assert Elems(s[..i + 1]) == Elems(s[..i]) + {x};
        if IndexOf(acc, x) == -1 {
          assert Elems(acc + [x]) == Elems(acc) + {x};
        }
      }
      AppendDistinctKeepsFirst(s, i + 1, acc');
    }
  }

  lemma AppendDistinctIsKeepFirst<T>(s: seq<T>)
    ensures AppendDistinct([], s) == KeepFirst(s)
  {
    assert s[..0] == [] && s[0..] == s;
    AppendDistinctKeepsFirst(s, 0, []);
  }

  /** `Occurrences(raw, d[k])` summed over `d`. */
  function SumOccurrences<T(==)>(d: seq<T>, raw: seq<T>): nat
  {
    if |d| == 0 then 0 else Occurrences(raw, d[0]) + SumOccurrences(d[1..], raw)
  }

  lemma {:induction false} SumOccurrencesCons<T>(d: seq<T>, x: T, rest: seq<T>)
    ensures SumOccurrences(d, [x] + rest) == Occurrences(d, x) + SumOccurrences(d, rest)
  {
    if |d| > 0 {
      assert ([x] + rest)[1..] == rest;
      SumOccurrencesCons(d[1..], x, rest);
    }
  }

  lemma {:induction false} OccurrencesOfDistinct<T>(d: seq<T>, x: T)
    requires NoDup(d)
    ensures Occurrences(d, x) == (if x in d then 1 else 0)
  {
    if |d| > 0 {
      OccurrencesOfDistinct(d[1..], x);
      if d[0] == x {
        assert x !in d[1..] by {
          forall j | 0 <= j < |d[1..]| ensures d[1..][j] != x {
            assert d[1..][j] == d[j + 1];
          }
        }
      }
    }
  }

  /** When `d` lists every element of `raw` exactly once, the per-element
      counts over `d` add up to the length of `raw`. */
  lemma {:induction false} SumOccurrencesIsLength<T>(d: seq<T>, raw: seq<T>)
    requires NoDup(d)
    requires forall x :: x in raw ==> x in d
    ensures SumOccurrences(d, raw) == |raw|
  {
    if |raw| == 0 {
      ZeroOccurrences(d, raw);
    } else {
      assert raw == [raw[0]] + raw[1..];
      SumOccurrencesCons(d, raw[0], raw[1..]);
      OccurrencesOfDistinct(d, raw[0]);
      SumOccurrencesIsLength(d, raw[1..]);
    }
  }

  lemma {:induction false} ZeroOccurrences<T>(d: seq<T>, raw: seq<T>)
    requires |raw| == 0
    ensures SumOccurrences(d, raw) == 0
  {
    if |d| > 0 {
      ZeroOccurrences(d[1..], raw);
    }
  }
}
