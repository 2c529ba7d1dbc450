/** The order the search results are sorted in: Python's `list.sort(reverse=True)`
    on `(score, text)` tuples, i.e. by score descending and, for equal
    scores, by text descending, where text compares lexicographically by
    code point. */
module Ordering {

  /** Python's `a <= b` on `str`. */
  predicate LexLeq(a: string, b: string)
    decreases |a|
  {
    |a| == 0 || (|b| > 0 && (a[0] < b[0] || (a[0] == b[0] && LexLeq(a[1..], b[1..]))))
  }

  lemma {:induction false} LexLeqRefl(a: string)
    ensures LexLeq(a, a)
    decreases |a|
  {
    if |a| > 0 {
      LexLeqRefl(a[1..]);
    }
  }

  lemma {:induction false} LexLeqTotal(a: string, b: string)
    ensures LexLeq(a, b) || LexLeq(b, a)
    decreases |a|
  {
    if |a| > 0 && |b| > 0 && a[0] == b[0] {
      LexLeqTotal(a[1..], b[1..]);
    }
  }

  lemma {:induction false} LexLeqAntisym(a: string, b: string)
    requires LexLeq(a, b) && LexLeq(b, a)
    ensures a == b
    decreases |a|
  {
    if |a| > 0 {
      LexLeqAntisym(a[1..], b[1..]);
      assert a == [a[0]] + a[1..];
      assert b == [b[0]] + b[1..];
    }
  }

  lemma {:induction false} LexLeqTrans(a: string, b: string, c: string)
    requires LexLeq(a, b) && LexLeq(b, c)
    ensures LexLeq(a, c)
    decreases |a|
  {
    if |a| > 0 && a[0] == b[0] && b[0] == c[0] {
      LexLeqTrans(a[1..], b[1..], c[1..]);
    }
  }

  /** A scored result: score in quarter points, and the formatted text. */
  type Hit = (nat, string)

  /** `x` may precede `y` in `sort(reverse=True)`, i.e. `x >= y` as tuples. */
  predicate Above(x: Hit, y: Hit) {
    x.0 > y.0 || (x.0 == y.0 && LexLeq(y.1, x.1))
  }

  lemma AboveRefl(x: Hit)
    ensures Above(x, x)
  {
    LexLeqRefl(x.1);
  }

  lemma AboveTotal(x: Hit, y: Hit)
    ensures Above(x, y) || Above(y, x)
  {
    LexLeqTotal(x.1, y.1);
  }

  lemma AboveAntisym(x: Hit, y: Hit)
    requires Above(x, y) && Above(y, x)
    ensures x == y
  {
    LexLeqAntisym(x.1, y.1);
  }

  lemma AboveTrans(x: Hit, y: Hit, z: Hit)
    requires Above(x, y) && Above(y, z)
    ensures Above(x, z)
  {
    if x.0 == y.0 == z.0 {
      LexLeqTrans(z.1, y.1, x.1);
    }
  }

  predicate SortedDesc(s: seq<Hit>) {
    forall i, j :: 0 <= i < j < |s| ==> Above(s[i], s[j])
  }

  /** Insert `x` before the first element it is not below. */
  function Insert(x: Hit, s: seq<Hit>): (r: seq<Hit>)
    requires SortedDesc(s)
    ensures SortedDesc(r)
    ensures multiset(r) == multiset(s) + multiset{x}
    decreases |s|
  {
    if |s| == 0 then [x]
    else if Above(x, s[0]) then
      assert forall j :: 0 <= j < |s| ==> Above(x, s[j]) by {
        forall j | 0 <= j < |s| ensures Above(x, s[j]) {
          if j > 0 { AboveTrans(x, s[0], s[j]); }
        }
      }
      [x] + s
    else
      AboveTotal(x, s[0]);
      assert SortedDesc(s[1..]);
      var r := Insert(x, s[1..]);
      assert s == [s[0]] + s[1..];
      assert forall y :: y in r ==> Above(s[0], y) by {
        forall y | y in r ensures Above(s[0], y) {
          assert y in multiset(r);
          if y != x {
            assert y in multiset(s[1..]);
            HeadAbove(s, y);
          }
        }
      }
      [s[0]] + r
  }

  /** `sorted(hits, reverse=True)`: the hits in non-increasing tuple order. */
  function SortDesc(s: seq<Hit>): (r: seq<Hit>)
    ensures SortedDesc(r)
    ensures multiset(r) == multiset(s)
    decreases |s|
  {
    if |s| == 0 then []
    else
      assert s == [s[0]] + s[1..];
      Insert(s[0], SortDesc(s[1..]))
  }

  /** The first element of a sorted sequence is above every element of it. */
  lemma HeadAbove(a: seq<Hit>, x: Hit)
    requires SortedDesc(a) && x in a
    ensures Above(a[0], x)
  {
    var i :| 0 <= i < |a| && a[i] == x;
    if i == 0 { AboveRefl(x); }
  }

  /** Two sorted arrangements of the same non-empty multiset start alike. */
  lemma SameHead(a: seq<Hit>, b: seq<Hit>)
    requires SortedDesc(a) && SortedDesc(b)
    requires |a| > 0 && multiset(a) == multiset(b)
    ensures |b| > 0 && a[0] == b[0]
  {
    assert a[0] in multiset(b);
    assert b[0] in multiset(a);
    HeadAbove(b, a[0]);
    HeadAbove(a, b[0]);
    AboveAntisym(a[0], b[0]);
  }

  /** Under a total order a sorted sequence is determined by its elements:
      two sorted arrangements of the same multiset are equal. */
  lemma {:induction false} SortedUnique(a: seq<Hit>, b: seq<Hit>)
    requires SortedDesc(a) && SortedDesc(b)
    requires multiset(a) == multiset(b)
    ensures a == b
    decreases |a|
  {
    if |a| == 0 {
      assert |b| == |multiset(b)| == 0;
    } else {
      SameHead(a, b);
      assert a == [a[0]] + a[1..];
      assert b == [b[0]] + b[1..];
      assert multiset(a[1..]) == multiset(a) - multiset{a[0]};
      assert multiset(b[1..]) == multiset(b) - multiset{b[0]};
      SortedUnique(a[1..], b[1..]);
    }
  }
}
