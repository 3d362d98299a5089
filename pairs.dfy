/** The order in which a double loop over i < j visits the pairs of a list,
    and what it collects: for every pair, in that order, the entries a
    function of the pair yields. */
module Pairs {
  /** Concatenation of a list of lists, in order. */
  function Flatten<T>(parts: seq<seq<T>>): seq<T> {
    if parts == [] then [] else Flatten(parts[..|parts| - 1]) + parts[|parts| - 1]
  }

  /** What the inner loop for i collects for j = i+1, ..., hi-1. */
  function Row<T, R>(all: seq<T>, pick: (T, T) -> seq<R>, i: nat, hi: nat): seq<R>
    requires i < hi <= |all|
    decreases hi
  {
    if hi <= i + 1 then [] else Row(all, pick, i, hi - 1) + pick(all[i], all[hi - 1])
  }

  /** What the outer loop has collected after its first i rows. */
  function Before<T, R>(all: seq<T>, pick: (T, T) -> seq<R>, i: nat): seq<R>
    requires i <= |all|
  {
    if i == 0 then [] else Before(all, pick, i - 1) + Row(all, pick, i - 1, |all|)
  }

  /** Everything the double loop collects. */
  function AllPairs<T, R>(all: seq<T>, pick: (T, T) -> seq<R>): seq<R> {
    Before(all, pick, |all|)
  }

  /** An element belongs to the flattened list exactly when it belongs to
      one of the parts. */
  lemma {:induction false} FlattenMembers<T>(parts: seq<seq<T>>, x: T)
    ensures x in Flatten(parts) <==> exists k :: 0 <= k < |parts| && x in parts[k]
  {
    if parts != [] {
      var init := parts[..|parts| - 1];
      FlattenMembers(init, x);
      if x in parts[|parts| - 1] {
        assert x in Flatten(parts);
      }
      if exists k :: 0 <= k < |init| && x in init[k] {
        var k :| 0 <= k < |init| && x in init[k];
        assert parts[k] == init[k];
      }
      if exists k :: 0 <= k < |parts| && x in parts[k] {
        var k :| 0 <= k < |parts| && x in parts[k];
        if k < |init| { assert init[k] == parts[k]; }
      }
    }
  }

  /** Each entry of row i up to hi comes from a pair (i, j) with j < hi. */
  lemma {:induction false} RowSound<T, R>(all: seq<T>, pick: (T, T) -> seq<R>, i: nat, hi: nat, r: R) returns (j: nat)
    requires i < hi <= |all| && r in Row(all, pick, i, hi)
    ensures i < j < hi && r in pick(all[i], all[j])
    decreases hi
  {
    if r in Row(all, pick, i, hi - 1) {
      j := RowSound(all, pick, i, hi - 1, r);
    } else {
      j := hi - 1;
    }
  }

  /** An entry of the pair (i, j) is in row i up to any hi > j. */
  lemma {:induction false} RowHas<T, R>(all: seq<T>, pick: (T, T) -> seq<R>, i: nat, hi: nat, j: nat, r: R)
    requires i < j < hi <= |all| && r in pick(all[i], all[j])
    ensures r in Row(all, pick, i, hi)
    decreases hi
  {
    if j < hi - 1 {
      RowHas(all, pick, i, hi - 1, j, r);
    }
  }

  /** An entry of a pair (a, b) with a < i is among the first i rows'. */
  lemma {:induction false} BeforeComplete<T, R>(all: seq<T>, pick: (T, T) -> seq<R>, i: nat, a: nat, b: nat, r: R)
    requires i <= |all| && a < i && a < b < |all|
    requires r in pick(all[a], all[b])
    ensures r in Before(all, pick, i)
  {
    if a < i - 1 {
      BeforeComplete(all, pick, i - 1, a, b, r);
      InLeft(r, Before(all, pick, i - 1), Row(all, pick, i - 1, |all|));
    } else {
      RowHas(all, pick, a, |all|, b, r);
      InRight(r, Before(all, pick, i - 1), Row(all, pick, i - 1, |all|));
    }
  }

  lemma InLeft<R>(r: R, xs: seq<R>, ys: seq<R>)
    requires r in xs
    ensures r in xs + ys
  {
    var k :| 0 <= k < |xs| && xs[k] == r;
    assert (xs + ys)[k] == r;
  }

  lemma InRight<R>(r: R, xs: seq<R>, ys: seq<R>)
    requires r in ys
    ensures r in xs + ys
  {
    var k :| 0 <= k < |ys| && ys[k] == r;
    assert (xs + ys)[|xs| + k] == r;
  }

  lemma InOther<R>(r: R, xs: seq<R>, ys: seq<R>)
    requires r in xs + ys && r !in xs
    ensures r in ys
  {
    var k :| 0 <= k < |xs + ys| && (xs + ys)[k] == r;
    if k < |xs| { assert xs[k] == r; }
    else { assert ys[k - |xs|] == r; }
  }

  /** Each entry of the first i rows comes from a pair (a, b), a < i. */
  lemma {:induction false} BeforeSound<T, R>(all: seq<T>, pick: (T, T) -> seq<R>, i: nat, r: R) returns (a: nat, b: nat)
    requires i <= |all| && r in Before(all, pick, i)
    ensures a < i && a < b < |all| && r in pick(all[a], all[b])
  {
    if r in Before(all, pick, i - 1) {
      a, b := BeforeSound(all, pick, i - 1, r);
    } else {
      a := i - 1;
      InOther(r, Before(all, pick, a), Row(all, pick, a, |all|));
      b := RowSound(all, pick, a, |all|, r);
    }
  }

  /** The double loop collects an entry exactly when some pair a < b
      yields it. */
  lemma AllPairsMembers<T, R>(all: seq<T>, pick: (T, T) -> seq<R>, r: R)
    ensures r in AllPairs(all, pick) <==> exists a, b :: 0 <= a < b < |all| && r in pick(all[a], all[b])
  {
    if r in AllPairs(all, pick) {
      var a, b := BeforeSound(all, pick, |all|, r);
    }
    if exists a, b :: 0 <= a < b < |all| && r in pick(all[a], all[b]) {
      var a, b :| 0 <= a < b < |all| && r in pick(all[a], all[b]);
      BeforeComplete(all, pick, |all|, a, b, r);
    }
  }

  /** The double loop collects nothing exactly when no pair yields
      anything. */
  lemma AllPairsEmpty<T, R>(all: seq<T>, pick: (T, T) -> seq<R>)
    ensures AllPairs(all, pick) == [] <==> forall a, b :: 0 <= a < b < |all| ==> pick(all[a], all[b]) == []
  {
    var out := AllPairs(all, pick);
    if out == [] {
      forall a, b | 0 <= a < b < |all| ensures pick(all[a], all[b]) == [] {
        if pick(all[a], all[b]) != [] {
          BeforeComplete(all, pick, |all|, a, b, pick(all[a], all[b])[0]);
        }
      }
    } else {
      var a, b := BeforeSound(all, pick, |all|, out[0]);
    }
  }

  lemma AppendAssoc<T>(a: seq<T>, b: seq<T>, c: seq<T>)
    ensures (a + b) + c == a + (b + c)
  {
  }
}
