/** Batches cut to a capacity: rows taken one after another from the front of what lies ahead, until
    there are enough, none is left, or the next one does not fit. The rows, the cursors and the sizes
    can be of any kind. */
module Batches {

  /** How many records of these sizes, from the `i`-th on, fit behind the `used` bytes already taken,
      at most `max`. */
  function FittingFrom(sizes: seq<nat>, i: nat, cap: nat, used: nat, max: nat): (k: nat)
    requires i <= |sizes|
    ensures i + k <= |sizes| && k <= max
    decreases |sizes| - i
  {
    if i == |sizes| || max == 0 || used + sizes[i] > cap then 0
    else 1 + FittingFrom(sizes, i + 1, cap, used + sizes[i], max - 1)
  }

  function Sizes<R>(rows: seq<R>, size: R -> nat): (r: seq<nat>)
    ensures |r| == |rows|
  {
    seq(|rows|, i requires 0 <= i < |rows| => size(rows[i]))
  }

  function TotalSize(sizes: seq<nat>, i: nat, k: nat): nat
    requires i + k <= |sizes|
    decreases k
  {
    if k == 0 then 0 else sizes[i] + TotalSize(sizes, i + 1, k - 1)
  }

  /** The records taken fit, and one more would not or is not wanted. */
  lemma {:induction false} FittingFits(sizes: seq<nat>, i: nat, cap: nat, used: nat, max: nat, k: nat)
    requires i <= |sizes| && used <= cap && k == FittingFrom(sizes, i, cap, used, max)
    ensures used + TotalSize(sizes, i, k) <= cap
    ensures k < max && i + k < |sizes| ==> used + TotalSize(sizes, i, k) + sizes[i + k] > cap
    decreases |sizes| - i
  {
    if k > 0 {
      FittingFits(sizes, i + 1, cap, used + sizes[i], max - 1, k - 1);
    }
  }

  /** The batch ends at `c`, with `n` rows taken and `used` bytes needed for them. */
  predicate Stops<C, R>(ahead: C -> seq<R>, size: R -> nat, cap: nat, max: nat, c: C, used: nat, n: nat) {
    n >= max || |ahead(c)| == 0 || used + size(ahead(c)[0]) > cap
  }

  /** The rows a batch takes from a cursor on; the position moves with each. */
  function BatchRows<C, R>(ahead: C -> seq<R>, move: (C, R) -> C, size: R -> nat, cap: nat, max: nat,
                           c: C, used: nat, n: nat): seq<R>
    decreases max - n
  {
    if Stops(ahead, size, cap, max, c, used, n) then []
    else
      var row := ahead(c)[0];
      [row] + BatchRows(ahead, move, size, cap, max, move(c, row), used + size(row), n + 1)
  }

  /** The cursor a batch ends with. */
  function BatchEnd<C, R>(ahead: C -> seq<R>, move: (C, R) -> C, size: R -> nat, cap: nat, max: nat,
                          c: C, used: nat, n: nat): C
    decreases max - n
  {
    if Stops(ahead, size, cap, max, c, used, n) then c
    else
      var row := ahead(c)[0];
      BatchEnd(ahead, move, size, cap, max, move(c, row), used + size(row), n + 1)
  }

  /** The cursors of a walk over the rows `all`. */
  ghost predicate Chain<C, R>(ahead: C -> seq<R>, move: (C, R) -> C, all: seq<R>, cs: seq<C>) {
    && |cs| == |all| + 1
    && (forall i :: 0 <= i < |cs| ==> ahead(cs[i]) == all[i..])
    && (forall i :: 0 <= i < |all| ==> cs[i + 1] == move(cs[i], all[i]))
  }

  lemma {:induction false} SliceCons<R>(all: seq<R>, i: nat, j: nat)
    requires i + 1 + j <= |all|
    ensures [all[i]] + all[i + 1..i + 1 + j] == all[i..i + 1 + j]
  {
  }

  lemma {:induction false} ChainAt<C, R>(ahead: C -> seq<R>, move: (C, R) -> C, all: seq<R>, cs: seq<C>, i: nat)
    requires Chain(ahead, move, all, cs) && i <= |all|
    ensures i == |all| <==> |ahead(cs[i])| == 0
    ensures i < |all| ==> ahead(cs[i])[0] == all[i] && cs[i + 1] == move(cs[i], all[i])
  {
    if i < |all| {
      assert all[i..][0] == all[i];
    }
  }

  /** A batch is the longest run of the rows ahead that fits. */
  lemma {:induction false} BatchTakesFitting<C, R>(ahead: C -> seq<R>, move: (C, R) -> C, size: R -> nat, cap: nat, max: nat,
                                                   used: nat, all: seq<R>, cs: seq<C>, i: nat, k: nat)
    requires Chain(ahead, move, all, cs) && i <= |all| && i <= max
    requires k == FittingFrom(Sizes(all, size), i, cap, used, max - i)
    ensures BatchRows(ahead, move, size, cap, max, cs[i], used, i) == all[i..i + k]
    ensures BatchEnd(ahead, move, size, cap, max, cs[i], used, i) == cs[i + k]
    decreases max - i
  {
    ChainAt(ahead, move, all, cs, i);
    if i >= max || i == |all| || used + size(all[i]) > cap {
      assert k == 0 && all[i..i] == [];
    } else {
      BatchTakesFitting(ahead, move, size, cap, max, used + size(all[i]), all, cs, i + 1, k - 1);
      SliceCons(all, i, k - 1);
    }
  }

  /** A batch begun at the head of a walk takes what fits of it. */
  lemma {:induction false} BatchFromStart<C, R>(ahead: C -> seq<R>, move: (C, R) -> C, size: R -> nat, cap: nat, max: nat,
                                                used: nat, all: seq<R>, cs: seq<C>, k: nat)
    requires Chain(ahead, move, all, cs) && k == FittingFrom(Sizes(all, size), 0, cap, used, max)
    ensures BatchRows(ahead, move, size, cap, max, cs[0], used, 0) == all[..k]
    ensures BatchEnd(ahead, move, size, cap, max, cs[0], used, 0) == cs[k]
  {
    BatchTakesFitting(ahead, move, size, cap, max, used, all, cs, 0, k);
    assert all[0..0 + k] == all[..k];
  }

  /** What a loop that fills a batch keeps: the rows taken and those a batch takes from here on make up
      the whole. */
  ghost predicate Filling<C, R>(ahead: C -> seq<R>, move: (C, R) -> C, size: R -> nat, cap: nat, max: nat,
                                c: C, used: nat, out: seq<R>, whole: seq<R>, end: C) {
    && whole == out + BatchRows(ahead, move, size, cap, max, c, used, |out|)
    && end == BatchEnd(ahead, move, size, cap, max, c, used, |out|)
  }

  lemma {:induction false} FillingStarts<C, R>(ahead: C -> seq<R>, move: (C, R) -> C, size: R -> nat, cap: nat, max: nat, c: C, used: nat)
    ensures Filling(ahead, move, size, cap, max, c, used, [], BatchRows(ahead, move, size, cap, max, c, used, 0),
                    BatchEnd(ahead, move, size, cap, max, c, used, 0))
  {
    var whole := BatchRows(ahead, move, size, cap, max, c, used, 0);
    assert [] + whole == whole;
  }

  lemma {:induction false} FillingStops<C, R>(ahead: C -> seq<R>, move: (C, R) -> C, size: R -> nat, cap: nat, max: nat,
                           c: C, used: nat, out: seq<R>, whole: seq<R>, end: C)
    requires Filling(ahead, move, size, cap, max, c, used, out, whole, end)
    requires Stops(ahead, size, cap, max, c, used, |out|)
    ensures whole == out && end == c
  {
    assert out + [] == out;
  }

  lemma {:induction false} FillingGoesOn<C, R>(ahead: C -> seq<R>, move: (C, R) -> C, size: R -> nat, cap: nat, max: nat,
                            c: C, used: nat, out: seq<R>, whole: seq<R>, end: C, row: R, c': C, used': nat, out': seq<R>)
    requires Filling(ahead, move, size, cap, max, c, used, out, whole, end)
    requires !Stops(ahead, size, cap, max, c, used, |out|) && row == ahead(c)[0]
    requires c' == move(c, row) && used' == used + size(row) && out' == out + [row]
    ensures Filling(ahead, move, size, cap, max, c', used', out', whole, end)
  {
    var more := BatchRows(ahead, move, size, cap, max, c', used', |out'|);
    assert out + ([row] + more) == out + [row] + more;
  }

  /** What every move keeps, a batch keeps. */
  lemma {:induction false} BatchEndKeeps<C(!new), R(!new)>(inv: C -> bool, ahead: C -> seq<R>, move: (C, R) -> C, size: R -> nat,
                                               cap: nat, max: nat, c: C, used: nat, n: nat)
    requires inv(c) && forall d, r :: inv(d) && r in ahead(d) ==> inv(move(d, r))
    ensures inv(BatchEnd(ahead, move, size, cap, max, c, used, n))
    decreases max - n
  {
    if !Stops(ahead, size, cap, max, c, used, n) {
      var row := ahead(c)[0];
      assert row in ahead(c);
      BatchEndKeeps(inv, ahead, move, size, cap, max, move(c, row), used + size(row), n + 1);
    }
  }
}
