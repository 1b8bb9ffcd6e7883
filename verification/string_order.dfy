/**
 * The order JavaScript's default `Array.prototype.sort()` puts strings in:
 * lexicographic, a proper prefix first, with characters compared by
 * Unicode scalar value.
 */
module StringOrder {

  /** Strict lexicographic order on strings. */
  predicate Less(a: string, b: string)
    decreases |a|
  {
    if |a| == 0 then |b| > 0
    else if |b| == 0 then false
    else if a[0] == b[0] then Less(a[1..], b[1..])
    else a[0] < b[0]
  }

  lemma {:induction false} LessIrreflexive(a: string)
    ensures !Less(a, a)
  {
    if |a| > 0 {
      LessIrreflexive(a[1..]);
    }
  }

  lemma {:induction false} LessAsymmetric(a: string, b: string)
    ensures Less(a, b) ==> !Less(b, a)
    decreases |a|
  {
    if |a| > 0 && |b| > 0 && a[0] == b[0] {
      LessAsymmetric(a[1..], b[1..]);
    }
  }

  lemma {:induction false} LessTransitive(a: string, b: string, c: string)
    ensures Less(a, b) && Less(b, c) ==> Less(a, c)
    decreases |a|
  {
    if |a| > 0 && |b| > 0 && |c| > 0 && a[0] == b[0] && b[0] == c[0] {
      LessTransitive(a[1..], b[1..], c[1..]);
    }
  }

  /** Any two different strings are ordered one way or the other. */
  lemma {:induction false} LessTotal(a: string, b: string)
    ensures a == b || Less(a, b) || Less(b, a)
    decreases |a|
  {
    if |a| > 0 && |b| > 0 && a[0] == b[0] {
      LessTotal(a[1..], b[1..]);
      if a[1..] == b[1..] {
        assert a == [a[0]] + a[1..] && b == [b[0]] + b[1..];
      }
    }
  }

  /** The elements of a sequence, as a set. */
  function Elems(s: seq<string>): set<string>
  {
    set x | x in s
  }

  lemma ElemsEmpty(s: seq<string>)
    ensures Elems(s) == {} <==> s == []
  {
    if s != [] {
      assert s[0] in Elems(s);
    }
  }

  predicate Distinct(s: seq<string>)
  {
    forall i, j :: 0 <= i < j < |s| ==> s[i] != s[j]
  }

  /** A sequence without duplicates has as many elements as its set. */
  lemma {:induction false} DistinctCard(s: seq<string>)
    requires Distinct(s)
    ensures |Elems(s)| == |s|
    decreases |s|
  {
    if s != [] {
      var last := s[|s| - 1];
      var prefix := s[..|s| - 1];
      DistinctCard(prefix);
      assert s == prefix + [last];
      assert last !in prefix;
      assert Elems(s) == Elems(prefix) + {last};
    }
  }

  /** Strictly ascending: sorted and without duplicates. */
  predicate Ascending(s: seq<string>)
  {
    forall i, j :: 0 <= i < j < |s| ==> Less(s[i], s[j])
  }

  lemma AscendingIsDistinct(s: seq<string>)
    requires Ascending(s)
    ensures Distinct(s)
  {
    forall i, j | 0 <= i < j < |s| ensures s[i] != s[j] {
      LessIrreflexive(s[i]);
    }
  }

  /** Inserts `x` into an ascending sequence that does not hold it yet. */
  function Insert(x: string, s: seq<string>): (r: seq<string>)
    requires Ascending(s) && x !in s
    ensures Ascending(r) && Elems(r) == Elems(s) + {x} && |r| == |s| + 1
  {
    if s == [] then [x]
    else if Less(s[0], x) then
      var tail := Insert(x, s[1..]);
      assert Elems(s) == {s[0]} + Elems(s[1..]) by { assert s == [s[0]] + s[1..]; }
      forall j | 0 <= j < |tail| ensures Less(s[0], tail[j]) {
        assert tail[j] in Elems(tail);
      }
      [s[0]] + tail
    else
      LessTotal(x, s[0]);
      forall j | 0 <= j < |s| ensures Less(x, s[j]) {
        if j > 0 { LessTransitive(x, s[0], s[j]); }
      }
      [x] + s
  }

  /**
   * Sorting, as insertion sort. The model only sorts sequences without
   * duplicates (the keys of an object, the members of a set), whose
   * sorted order is unique (see AscendingUnique).
   */
  function Sort(s: seq<string>): (r: seq<string>)
    requires Distinct(s)
    ensures Ascending(r) && Elems(r) == Elems(s) && |r| == |s|
  {
    if s == [] then []
    else
      assert s[0] !in s[1..];
      assert Elems(s) == {s[0]} + Elems(s[1..]) by { assert s == [s[0]] + s[1..]; }
      Insert(s[0], Sort(s[1..]))
  }

  /**
   * Two strictly ascending sequences with the same elements are equal: any
   * correct sort of distinct keys yields the same order, so the choice of
   * sorting algorithm does not show in the result.
   */
  lemma {:induction false} AscendingUnique(s: seq<string>, t: seq<string>)
    requires Ascending(s) && Ascending(t) && Elems(s) == Elems(t)
    ensures s == t
    decreases |s|
  {
    if s == [] || t == [] {
      ElemsEmpty(s);
      ElemsEmpty(t);
    } else {
      assert s[0] in Elems(t) && t[0] in Elems(s);
      if s[0] != t[0] {
        var i :| 0 <= i < |t| && t[i] == s[0];
        var j :| 0 <= j < |s| && s[j] == t[0];
        assert i > 0 && j > 0;
        LessAsymmetric(t[0], s[0]);
        assert false;
      }
      assert Elems(s[1..]) == Elems(t[1..]) by {
        forall x | x in Elems(s[1..]) ensures x in Elems(t[1..]) {
          var i :| 1 <= i < |s| && s[i] == x;
          LessIrreflexive(x);
          assert x != s[0] && x in Elems(t);
          var k :| 0 <= k < |t| && t[k] == x;
          assert k != 0 && t[1..][k - 1] == x;
        }
        forall x | x in Elems(t[1..]) ensures x in Elems(s[1..]) {
          var i :| 1 <= i < |t| && t[i] == x;
          LessIrreflexive(x);
          assert x != t[0] && x in Elems(s);
          var k :| 0 <= k < |s| && s[k] == x;
          assert k != 0 && s[1..][k - 1] == x;
        }
      }
      AscendingUnique(s[1..], t[1..]);
      assert s == [s[0]] + s[1..] && t == [t[0]] + t[1..];
    }
  }
}
