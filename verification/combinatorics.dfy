/** `itertools.combinations(range(n), k)`: every strictly increasing index tuple
    of length k drawn from 0..n-1, in ascending lexicographic order. Both camera
    searches enumerate their candidates with it. */
module Combinatorics {

  /** `c` is a k-combination of lo..n-1 written in ascending order. */
  ghost predicate IsCombination(c: seq<nat>, lo: nat, n: nat, k: nat)
  {
    && |c| == k
    && (forall i :: 0 <= i < |c| ==> lo <= c[i] < n)
    && (forall i, j :: 0 <= i < j < |c| ==> c[i] < c[j])
  }

  /** Strict lexicographic order on index tuples. */
  predicate LexLess(a: seq<nat>, b: seq<nat>)
  {
    |a| > 0 && |b| > 0 && (a[0] < b[0] || (a[0] == b[0] && LexLess(a[1..], b[1..])))
  }

  function Prepend(x: nat, cs: seq<seq<nat>>): (r: seq<seq<nat>>)
    ensures |r| == |cs| && forall i :: 0 <= i < |cs| ==> r[i] == [x] + cs[i]
  {
    seq(|cs|, i requires 0 <= i < |cs| => [x] + cs[i])
  }

  /** Every entry of the tuple is below n: the tuple indexes a list of length n. */
  predicate EntriesBelow(c: seq<nat>, n: nat)
  {
    forall i :: 0 <= i < |c| ==> c[i] < n
  }

  /** numpy's indexing by an index list: the elements at those positions, in
      the order of the list. */
  function Gather<T>(s: seq<T>, idx: seq<nat>): (g: seq<T>)
    requires EntriesBelow(idx, |s|)
    ensures |g| == |idx| && forall i :: 0 <= i < |idx| ==> g[i] == s[idx[i]]
  {
    seq(|idx|, i requires 0 <= i < |idx| => s[idx[i]])
  }

  predicate AllEntriesBelow(cs: seq<seq<nat>>, n: nat)
  {
    forall c :: c in cs ==> EntriesBelow(c, n)
  }

  /** The k-combinations of lo..n-1: those that start with lo, then those that do not. */
  function CombinationsFrom(lo: nat, n: nat, k: nat): (cs: seq<seq<nat>>)
    ensures AllEntriesBelow(cs, n)
    decreases n - lo
  {
    if k == 0 then [[]]
    else if lo >= n then []
    else
      var tails := CombinationsFrom(lo + 1, n, k - 1);
      var head := Prepend(lo, tails);
      assert AllEntriesBelow(head, n) by {
        forall c | c in head ensures EntriesBelow(c, n) {
          var j :| 0 <= j < |head| && head[j] == c;
          assert EntriesBelow(tails[j], n);
        }
      }
      head + CombinationsFrom(lo + 1, n, k)
  }

  function Combinations(n: nat, k: nat): (cs: seq<seq<nat>>)
    ensures AllEntriesBelow(cs, n)
  {
    CombinationsFrom(0, n, k)
  }

  function Binomial(n: nat, k: nat): nat
  {
    if k == 0 then 1 else if n == 0 then 0 else Binomial(n - 1, k - 1) + Binomial(n - 1, k)
  }

  /** Every tuple produced is a k-combination of lo..n-1. */
  lemma {:induction false} CombinationsSound(lo: nat, n: nat, k: nat)
    ensures forall c :: c in CombinationsFrom(lo, n, k) ==> IsCombination(c, lo, n, k)
    decreases n - lo
  {
    if k > 0 && lo < n {
      CombinationsSound(lo + 1, n, k - 1);
      CombinationsSound(lo + 1, n, k);
      var head := Prepend(lo, CombinationsFrom(lo + 1, n, k - 1));
      forall c | c in CombinationsFrom(lo, n, k) ensures IsCombination(c, lo, n, k) {
        if c in head {
          var i :| 0 <= i < |head| && head[i] == c;
          assert IsCombination(CombinationsFrom(lo + 1, n, k - 1)[i], lo + 1, n, k - 1);
        }
      }
    }
  }

  /** Dropping the first element of a combination leaves a combination of the larger values. */
  lemma TailIsCombination(c: seq<nat>, lo: nat, n: nat, k: nat)
    requires IsCombination(c, lo, n, k) && k > 0
    ensures IsCombination(c[1..], c[0] + 1, n, k - 1)
  {
    var t := c[1..];
    assert forall i :: 0 <= i < |t| ==> t[i] == c[i + 1];
  }

  /** A combination that does not start at lo avoids lo altogether. */
  lemma RaiseLowerBound(c: seq<nat>, lo: nat, n: nat, k: nat)
    requires IsCombination(c, lo, n, k) && k > 0 && c[0] != lo
    ensures IsCombination(c, lo + 1, n, k)
  {
    assert forall i :: 0 <= i < |c| ==> c[0] <= c[i];
  }

  /** A tuple produced from lo + 1 on, with lo put in front, is produced from lo on. */
  lemma InHead(lo: nat, n: nat, k: nat, t: seq<nat>)
    requires k > 0 && lo < n && t in CombinationsFrom(lo + 1, n, k - 1)
    ensures [lo] + t in CombinationsFrom(lo, n, k)
  {
    var tails := CombinationsFrom(lo + 1, n, k - 1);
    var i :| 0 <= i < |tails| && tails[i] == t;
    assert Prepend(lo, tails)[i] == [lo] + t;
  }

  /** A k-tuple produced from lo + 1 on is also produced from lo on. */
  lemma InRest(lo: nat, n: nat, k: nat, c: seq<nat>)
    requires k > 0 && lo < n && c in CombinationsFrom(lo + 1, n, k)
    ensures c in CombinationsFrom(lo, n, k)
  {
    var head := Prepend(lo, CombinationsFrom(lo + 1, n, k - 1));
    var rest := CombinationsFrom(lo + 1, n, k);
    var i :| 0 <= i < |rest| && rest[i] == c;
    assert (head + rest)[|head| + i] == c;
  }

  /** Every k-combination of lo..n-1 is produced. */
  lemma {:induction false} CombinationsComplete(c: seq<nat>, lo: nat, n: nat, k: nat)
    requires IsCombination(c, lo, n, k)
    ensures c in CombinationsFrom(lo, n, k)
    decreases n - lo, 1
  {
    if k == 0 {
      assert c == [];
    } else if c[0] == lo {
      CompleteStartingAtLo(c, lo, n, k);
    } else {
      RaiseLowerBound(c, lo, n, k);
      CombinationsComplete(c, lo + 1, n, k);
      InRest(lo, n, k, c);
    }
  }

  /** The case of CombinationsComplete where the combination starts with lo. */
  lemma {:induction false} CompleteStartingAtLo(c: seq<nat>, lo: nat, n: nat, k: nat)
    requires IsCombination(c, lo, n, k) && k > 0 && c[0] == lo
    ensures c in CombinationsFrom(lo, n, k)
    decreases n - lo, 0
  {
    TailIsCombination(c, lo, n, k);
    CombinationsComplete(c[1..], lo + 1, n, k - 1);
    InHead(lo, n, k, c[1..]);
    assert [lo] + c[1..] == c;
  }

  /** The tuples come out in strictly ascending lexicographic order (hence no repeats). */
  lemma {:induction false} CombinationsOrdered(lo: nat, n: nat, k: nat)
    ensures forall i, j :: 0 <= i < j < |CombinationsFrom(lo, n, k)| ==>
      LexLess(CombinationsFrom(lo, n, k)[i], CombinationsFrom(lo, n, k)[j])
    decreases n - lo
  {
    if k > 0 && lo < n {
      var tails := CombinationsFrom(lo + 1, n, k - 1);
      var rest := CombinationsFrom(lo + 1, n, k);
      var head := Prepend(lo, tails);
      var all := head + rest;
      CombinationsOrdered(lo + 1, n, k - 1);
      CombinationsOrdered(lo + 1, n, k);
      CombinationsSound(lo + 1, n, k);
      forall i, j | 0 <= i < j < |all| ensures LexLess(all[i], all[j]) {
        if j < |head| {
          assert all[i][1..] == tails[i] && all[j][1..] == tails[j];
        } else if i < |head| {
          assert rest[j - |head|] in rest;
          assert IsCombination(rest[j - |head|], lo + 1, n, k);
        } else {
          assert all[i] == rest[i - |head|] && all[j] == rest[j - |head|];
        }
      }
    }
  }

  /** There are C(n - lo, k) of them. */
  lemma {:induction false} CombinationsCount(lo: nat, n: nat, k: nat)
    ensures |CombinationsFrom(lo, n, k)| == Binomial(if lo <= n then n - lo else 0, k)
    decreases n - lo
  {
    if k > 0 && lo < n {
      CombinationsCount(lo + 1, n, k - 1);
      CombinationsCount(lo + 1, n, k);
    }
  }

  /** A combination of lo..n-1 has at most n - lo elements. */
  lemma {:induction false} CombinationLength(c: seq<nat>, lo: nat, n: nat, k: nat)
    requires IsCombination(c, lo, n, k)
    ensures k == 0 || lo + k <= n
    decreases k
  {
    if k > 0 {
      TailIsCombination(c, lo, n, k);
      CombinationLength(c[1..], c[0] + 1, n, k - 1);
    }
  }

  /** The whole contract of `Combinations`, for callers. */
  lemma CombinationsSpec(n: nat, k: nat)
    ensures forall c :: c in Combinations(n, k) <==> IsCombination(c, 0, n, k)
    ensures forall i, j :: 0 <= i < j < |Combinations(n, k)| ==>
      LexLess(Combinations(n, k)[i], Combinations(n, k)[j])
    ensures |Combinations(n, k)| == Binomial(n, k)
  {
    CombinationsSound(0, n, k);
    CombinationsOrdered(0, n, k);
    CombinationsCount(0, n, k);
    forall c | IsCombination(c, 0, n, k) ensures c in Combinations(n, k) {
      CombinationsComplete(c, 0, n, k);
    }
  }
}
