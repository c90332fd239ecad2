/**
 * The order in which `GROUP_CONCAT(c.code ORDER BY c.code)` lists a
 * document's codes: lexicographic order on code points, a proper prefix
 * first. Sorting keeps every code, duplicates included.
 */
module Collation {
  import opened Sequences

  /**
   * `a` sorts before or together with `b`: a prefix of `b` does, and
   * otherwise the first character where they differ decides.
   */
  predicate LessEq(a: string, b: string): (r: bool)
    decreases |a|
    ensures a <= b ==> r
    ensures a != [] && b != [] && a[0] != b[0] ==> (r <==> a[0] < b[0])
    ensures r && !(a <= b) ==> b != [] && a[0] <= b[0]
  {
    a == [] || (b != [] && (a[0] < b[0] || (a[0] == b[0] && LessEq(a[1..], b[1..]))))
  }

  /** Past a common prefix, the first position where two codes differ decides their order. */
  lemma {:induction false} LessEqFirstDifference(a: string, b: string, k: nat)
    requires k < |a| && k < |b| && a[..k] == b[..k] && a[k] != b[k]
    ensures LessEq(a, b) <==> a[k] < b[k]
    decreases k
  {
    if k > 0 {
      assert a[0] == a[..k][0] == b[..k][0] == b[0];
      assert a[1..][..k - 1] == a[1..k] == a[..k][1..];
      assert b[1..][..k - 1] == b[1..k] == b[..k][1..];
      LessEqFirstDifference(a[1..], b[1..], k - 1);
    }
  }

  lemma {:induction false} LessEqReflexive(a: string)
    ensures LessEq(a, a)
    decreases |a|
  {
    if a != [] {
      LessEqReflexive(a[1..]);
    }
  }

  lemma {:induction false} LessEqTotal(a: string, b: string)
    ensures LessEq(a, b) || LessEq(b, a)
    decreases |a|
  {
    if a != [] && b != [] && a[0] == b[0] {
      LessEqTotal(a[1..], b[1..]);
    }
  }

  lemma {:induction false} LessEqTransitive(a: string, b: string, c: string)
    requires LessEq(a, b) && LessEq(b, c)
    ensures LessEq(a, c)
    decreases |a|
  {
    if a != [] && a[0] == b[0] && b[0] == c[0] {
      LessEqTransitive(a[1..], b[1..], c[1..]);
    }
  }

  lemma {:induction false} LessEqAntisymmetric(a: string, b: string)
    requires LessEq(a, b) && LessEq(b, a)
    ensures a == b
    decreases |a|
  {
    if a != [] {
      LessEqAntisymmetric(a[1..], b[1..]);
      assert a == [a[0]] + a[1..] && b == [b[0]] + b[1..];
    }
  }

  predicate Ascending(s: seq<string>) {
    forall i, j :: 0 <= i < j < |s| ==> LessEq(s[i], s[j])
  }

  /** Places `x` into an ascending list. */
  function Insert(x: string, s: seq<string>): (r: seq<string>)
    requires Ascending(s)
    ensures Ascending(r)
    ensures multiset(r) == multiset(s) + multiset{x}
  {
    if s == [] then [x]
    else if LessEq(x, s[0]) then
      PrependLeast(x, s);
      [x] + s
    else
      var rest := Insert(x, s[1..]);
      LessEqTotal(x, s[0]);
      MultisetCons(s);
      InsertAfterHead(x, s, rest);
      [s[0]] + rest
  }

  /** An element no greater than the first of an ascending list can go in front of it. */
  lemma PrependLeast(x: string, s: seq<string>)
    requires Ascending(s) && s != [] && LessEq(x, s[0])
    ensures Ascending([x] + s)
  {
    var r := [x] + s;
    forall i, j | 0 <= i < j < |r| ensures LessEq(r[i], r[j]) {
      assert r[j] == s[j - 1];
      if i == 0 {
        if j > 1 { LessEqTransitive(x, s[0], s[j - 1]); }
      } else {
        assert r[i] == s[i - 1];
      }
    }
  }

  /** The head of an ascending list stays in front of the insertion of a larger element into its tail. */
  lemma InsertAfterHead(x: string, s: seq<string>, rest: seq<string>)
    requires Ascending(s) && s != [] && LessEq(s[0], x)
    requires Ascending(rest) && multiset(rest) == multiset(s[1..]) + multiset{x}
    ensures Ascending([s[0]] + rest)
  {
    forall e | e in multiset(rest) ensures LessEq(s[0], e) {
      if e != x {
        assert e in multiset(s[1..]);
        var j :| 0 <= j < |s[1..]| && s[1..][j] == e;
        assert s[j + 1] == e;
      }
    }
    var r := [s[0]] + rest;
    forall i, j | 0 <= i < j < |r| ensures LessEq(r[i], r[j]) {
      assert r[j] == rest[j - 1] && r[j] in multiset(rest);
      if i > 0 {
        assert r[i] == rest[i - 1];
      }
    }
  }

  /** The codes of one document in `ORDER BY` order: ascending and a permutation of the input. */
  function Sort(s: seq<string>): (r: seq<string>)
    ensures Ascending(r)
    ensures multiset(r) == multiset(s)
  {
    if s == [] then []
    else
      MultisetCons(s);
      Insert(s[0], Sort(s[1..]))
  }

  /**
   * Two ascending lists holding the same codes are equal: the sorted order,
   * and so the aggregated string, does not depend on the order in which the
   * code rows were stored.
   */
  lemma {:induction false} AscendingUnique(a: seq<string>, b: seq<string>)
    requires Ascending(a) && Ascending(b)
    requires multiset(a) == multiset(b)
    ensures a == b
  {
    if a != [] {
      AscendingHeads(a, b);
      AscendingTail(a);
      AscendingTail(b);
      MultisetTail(a, b);
      AscendingUnique(a[1..], b[1..]);
      ConsEqual(a, b);
    }
  }

  /** Two ascending lists holding the same codes start with the same code. */
  lemma AscendingHeads(a: seq<string>, b: seq<string>)
    requires Ascending(a) && Ascending(b) && a != []
    requires multiset(a) == multiset(b)
    ensures b != [] && a[0] == b[0]
  {
    assert a[0] in multiset(b);
    assert b[0] in multiset(a);
    var i :| 0 <= i < |b| && b[i] == a[0];
    var j :| 0 <= j < |a| && a[j] == b[0];
    assert LessEq(a[0], b[0]) by { LessEqReflexive(a[0]); }
    assert LessEq(b[0], a[0]) by { LessEqReflexive(b[0]); }
    LessEqAntisymmetric(a[0], b[0]);
  }

  lemma AscendingTail(s: seq<string>)
    requires Ascending(s) && s != []
    ensures Ascending(s[1..])
  {
    forall i, j | 0 <= i < j < |s[1..]| ensures LessEq(s[1..][i], s[1..][j]) {
      assert s[1..][i] == s[i + 1] && s[1..][j] == s[j + 1];
    }
  }

  /** Sorting depends only on which codes there are, not on their order. */
  lemma SortPermutationInvariant(a: seq<string>, b: seq<string>)
    requires multiset(a) == multiset(b)
    ensures Sort(a) == Sort(b)
  {
    AscendingUnique(Sort(a), Sort(b));
  }
}
