/** `Array.prototype.sort()` without a comparator on an array of strings:
    ascending order of the strings' character codes. The engine's algorithm
    is irrelevant here, because a sorted permutation is unique
    (`SortedUnique`); insertion sort is used as the definition. */
module StringSort {
  import opened Strings
  import opened Seqs

  predicate Sorted(s: seq<string>)
  {
    forall i, j :: 0 <= i < j < |s| ==> AtMost(s[i], s[j])
  }

  function Insert(x: string, s: seq<string>): (r: seq<string>)
    requires Sorted(s)
    ensures Sorted(r)
    ensures multiset(r) == multiset(s) + multiset{x}
  {
    if |s| == 0 then [x]
    else if !Below(s[0], x) then
      AtMostTotal(x, s[0]);
      ConsSorted(x, s);
      [x] + s
    else
      var t := Insert(x, s[1..]);
      assert s == [s[0]] + s[1..];
      AtMostTotal(s[0], x);
      BoundedBelow(s[0], x, s[1..], t);
      ConsSorted(s[0], t);
      [s[0]] + t
  }

  /** A sorted list stays sorted when an element no larger than its head is
      put in front. */
  lemma ConsSorted(y: string, t: seq<string>)
    requires Sorted(t)
    requires |t| > 0 ==> AtMost(y, t[0])
    ensures Sorted([y] + t)
  {
    var u := [y] + t;
    forall i, j | 0 <= i < j < |u| ensures AtMost(u[i], u[j]) {
      if i == 0 {
        assert u[j] == t[j - 1];
        if j > 1 { AtMostTransitive(y, t[0], t[j - 1]); }
      } else {
        assert u[i] == t[i - 1] && u[j] == t[j - 1];
      }
    }
  }

  /** If `y` is at most `x` and at most every element of the sorted `s`, it
      is at most the head of any list holding exactly `s` and `x`. */
  lemma BoundedBelow(y: string, x: string, s: seq<string>, t: seq<string>)
    requires AtMost(y, x)
    requires forall k :: 0 <= k < |s| ==> AtMost(y, s[k])
    requires multiset(t) == multiset(s) + multiset{x}
    ensures |t| > 0 ==> AtMost(y, t[0])
  {
    if |t| > 0 {
      assert t[0] in multiset(t);
      if t[0] != x {
        assert t[0] in multiset(s);
      }
    }
  }

  function Sort(s: seq<string>): (r: seq<string>)
    ensures Sorted(r)
    ensures multiset(r) == multiset(s)
  {
    if |s| == 0 then []
    else
      assert s == [s[0]] + s[1..];
      Insert(s[0], Sort(s[1..]))
  }

  /** Two sorted arrangements of the same strings are the same array. */
  lemma {:induction false} SortedUnique(a: seq<string>, b: seq<string>)
    requires Sorted(a) && Sorted(b)
    requires multiset(a) == multiset(b)
    ensures a == b
  {
    if |a| > 0 {
      assert |b| == |multiset(b)| == |multiset(a)| == |a|;
      assert a[0] in multiset(b) && b[0] in multiset(a);
      var i :| 0 <= i < |b| && b[i] == a[0];
      var j :| 0 <= j < |a| && a[j] == b[0];
      assert AtMost(b[0], a[0]);
      assert AtMost(a[0], b[0]);
      AtMostAntisymmetric(a[0], b[0]);
      assert a == [a[0]] + a[1..] && b == [b[0]] + b[1..];
      assert multiset(a) == multiset{a[0]} + multiset(a[1..]);
      assert multiset(b) == multiset{b[0]} + multiset(b[1..]);
      assert a[0] == b[0];
      forall y ensures multiset(a[1..])[y] == multiset(b[1..])[y] {
        assert multiset(a)[y] == multiset(b)[y];
      }
      assert multiset(a[1..]) == multiset(b[1..]);
      SortedUnique(a[1..], b[1..]);
    }
  }

  lemma {:induction false} NoDupMultiplicity(s: seq<string>)
    ensures NoDup(s) <==> forall x :: multiset(s)[x] <= 1
  {
    if |s| > 0 {
      NoDupMultiplicity(s[1..]);
      assert s == [s[0]] + s[1..];
      if NoDup(s) {
        assert NoDup(s[1..]) by {
          forall i, j | 0 <= i < j < |s[1..]| ensures s[1..][i] != s[1..][j] {
            assert s[1..][i] == s[i + 1] && s[1..][j] == s[j + 1];
          }
        }
        assert s[0] !in s[1..] by {
          forall j | 0 <= j < |s[1..]| ensures s[1..][j] != s[0] {
            assert s[1..][j] == s[j + 1];
          }
        }
      }
      if forall x :: multiset(s)[x] <= 1 {
        assert forall x :: multiset(s[1..])[x] <= 1 by {
          forall x ensures multiset(s[1..])[x] <= 1 {
            assert multiset(s)[x] <= 1;
          }
        }
        assert s[0] !in multiset(s[1..]) by {
          assert multiset(s)[s[0]] <= 1;
        }
        forall i, j | 0 <= i < j < |s| ensures s[i] != s[j] {
          if i == 0 {
            assert s[j] == s[1..][j - 1];
          } else {
            assert s[i] == s[1..][i - 1] && s[j] == s[1..][j - 1];
          }
        }
      }
    }
  }

  /** Sorting a duplicate-free array gives a strictly ascending one. */
  lemma SortDistinct(s: seq<string>)
    requires NoDup(s)
    ensures NoDup(Sort(s))
    ensures forall i, j :: 0 <= i < j < |Sort(s)| ==> Below(Sort(s)[i], Sort(s)[j])
  {
    var r := Sort(s);
    NoDupMultiplicity(s);
    NoDupMultiplicity(r);
  }
}
