/** Sequence helpers shared by the keyword list and the month buckets: counting,
    first occurrences, and the first-seen-order de-duplication that
    `Array.from(new Set(xs))` performs. */
module Collections {

  /** Number of occurrences of `x` in `s`. */
  function Count<T(==)>(s: seq<T>, x: T): (n: nat)
    ensures n <= |s|
    ensures n > 0 <==> x in s
  {
    if |s| == 0 then 0
    else
      var p := s[..|s| - 1];
      assert s == p + [s[|s| - 1]];
      Count(p, x) + (if s[|s| - 1] == x then 1 else 0)
  }

  /** Appending one element adds one to its own count and nothing to the others. */
  lemma CountSnoc<T>(s: seq<T>, y: T, x: T)
    ensures Count(s + [y], x) == Count(s, x) + (if y == x then 1 else 0)
  {
    assert (s + [y])[..|s|] == s;
  }

  /** The positions of `s` holding `x`. */
  function Positions<T(==)>(s: seq<T>, x: T): set<int> {
    set i | 0 <= i < |s| && s[i] == x
  }

  /** The count is the number of positions holding `x`. */
  lemma {:induction false} CountIsIndexSet<T>(s: seq<T>, x: T)
    ensures Count(s, x) == |Positions(s, x)|
  {
    if |s| > 0 {
      var p := s[..|s| - 1];
      CountIsIndexSet(p, x);
      var before := Positions(p, x);
      var after := Positions(s, x);
      if s[|s| - 1] == x {
        assert after == before + {|p|};
      } else {
        assert after == before;
      }
    }
  }

  /** No element occurs twice. */
  predicate Distinct<T(==)>(s: seq<T>) {
    forall i, j :: 0 <= i < j < |s| ==> s[i] != s[j]
  }

  /** Index of the first occurrence of `x` in `s`. */
  function FirstIndex<T(==)>(s: seq<T>, x: T): (i: nat)
    requires x in s
    ensures i < |s| && s[i] == x
    ensures x !in s[..i]
  {
    if s[0] == x then 0
    else
      var i := FirstIndex(s[1..], x);
      assert s[..i + 1] == [s[0]] + s[1..][..i];
      i + 1
  }

  /** Extending a sequence does not move the first occurrence of an element it
      already holds. */
  lemma FirstIndexSnoc<T>(s: seq<T>, y: T, x: T)
    requires x in s
    ensures FirstIndex(s + [y], x) == FirstIndex(s, x)
  {
    var i := FirstIndex(s, x);
    var k := FirstIndex(s + [y], x);
    var t := s + [y];
    assert forall m :: 0 <= m < i ==> s[..i][m] != x;
    assert forall m :: 0 <= m < k ==> t[..k][m] != x;
    assert t[i] == x;
  }

  /** The elements of `s` in the order of their first occurrence, each once. */
  function Dedupe<T(==)>(s: seq<T>): (r: seq<T>)
    ensures Distinct(r)
    ensures forall i :: 0 <= i < |r| ==> r[i] in s
    ensures forall i :: 0 <= i < |s| ==> s[i] in r
    ensures |r| <= |s|
  {
    if |s| == 0 then []
    else
      var p := s[..|s| - 1];
      var x := s[|s| - 1];
      assert s == p + [x];
      var d := Dedupe(p);
      if x in d then d else d + [x]
  }

  /** De-duplication keeps first-occurrence order: an element listed earlier
      first occurs earlier in the input. */
  lemma {:induction false} DedupeOrder<T>(s: seq<T>)
    ensures forall i, j :: 0 <= i < j < |Dedupe(s)| ==>
      FirstIndex(s, Dedupe(s)[i]) < FirstIndex(s, Dedupe(s)[j])
  {
    if |s| > 0 {
      var p := s[..|s| - 1];
      var x := s[|s| - 1];
      assert s == p + [x];
      var d := Dedupe(p);
      DedupeOrder(p);
      forall y | y in p
        ensures FirstIndex(s, y) == FirstIndex(p, y)
      {
        FirstIndexSnoc(p, x, y);
      }
      if x !in d {
        assert FirstIndex(s, x) == |p| by {
          assert x !in p;
        }
      }
    }
  }

  /** A sequence without repetitions is its own de-duplication. */
  lemma {:induction false} DedupeOfDistinct<T>(s: seq<T>)
    requires Distinct(s)
    ensures Dedupe(s) == s
  {
    if |s| > 0 {
      var p := s[..|s| - 1];
      DedupeOfDistinct(p);
      assert s[|s| - 1] !in p;
      assert s == p + [s[|s| - 1]];
    }
  }

  /** De-duplicating twice changes nothing. */
  lemma DedupeIdempotent<T>(s: seq<T>)
    ensures Dedupe(Dedupe(s)) == Dedupe(s)
  {
    DedupeOfDistinct(Dedupe(s));
  }
}
