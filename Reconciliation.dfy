/**
 * The bank-reconciliation matcher `reconcile`, found word for word in
 * scripts/bankReconciliation.ts and src/components/RapprochementBancaire.tsx.
 *
 * Every bank operation, in order, takes the first operation of the pool of
 * not-yet-consumed accounting operations whose amount and date are strictly
 * equal to its own; the label plays no part. `Reconciled` is the specification
 * (one bank operation at a time, recursively), `Reconcile` the loop the source
 * runs, and the lemmas state the partition, order, tie-break and NaN properties
 * of the specification.
 */
module Reconciliation {
  import opened JsNumbers
  import opened Sequences

  /** One statement line: date text, free label (the source's `label`; `label` is a Dafny keyword), parsed amount. */
  datatype Operation = Operation(date: string, description: string, amount: Num)

  /** The three lists `reconcile` returns. */
  datatype RapprochementResult = RapprochementResult(
    matched: seq<Operation>,
    unmatchedBank: seq<Operation>,
    unmatchedAccounting: seq<Operation>)

  /** The `findIndex` predicate: `accOp.amount === bankOp.amount && accOp.date === bankOp.date`. */
  predicate Pairs(accOp: Operation, bankOp: Operation) {
    StrictEquals(accOp.amount, bankOp.amount) && accOp.date == bankOp.date
  }

  /** `pool.findIndex(accOp => Pairs(accOp, bankOp))`: the first pairing index, or -1. */
  function FirstMatch(pool: seq<Operation>, bankOp: Operation): (r: int)
    ensures -1 <= r < |pool|
    ensures r == -1 <==> forall j :: 0 <= j < |pool| ==> !Pairs(pool[j], bankOp)
    ensures r >= 0 ==> Pairs(pool[r], bankOp) && forall j :: 0 <= j < r ==> !Pairs(pool[j], bankOp)
  {
    if |pool| == 0 then -1
    else if Pairs(pool[0], bankOp) then 0
    else
      var k := FirstMatch(pool[1..], bankOp);
      if k == -1 then -1 else k + 1
  }

  /** The pool after `bankOp`'s turn: its first pairing entry spliced out, if any. */
  function NextPool(pool: seq<Operation>, bankOp: Operation): seq<Operation> {
    var idx := FirstMatch(pool, bankOp);
    if idx >= 0 then RemoveAt(pool, idx) else pool
  }

  /** Specification: the result of reconciling `bankOps` against the pool `pool`. */
  function Reconciled(bankOps: seq<Operation>, pool: seq<Operation>): RapprochementResult
    decreases |bankOps|
  {
    if |bankOps| == 0 then RapprochementResult([], [], pool)
    else
      var rest := Reconciled(bankOps[1..], NextPool(pool, bankOps[0]));
      if FirstMatch(pool, bankOps[0]) >= 0 then
        rest.(matched := [bankOps[0]] + rest.matched)
      else
        rest.(unmatchedBank := [bankOps[0]] + rest.unmatchedBank)
  }

  /**
   * `reconcile(bankOps, accountingOps)`. The pool starts as a copy of
   * `accountingOps` (a Dafny sequence is a value, so the caller's list cannot
   * change), each hit splices the pool, and what is left of the pool is returned
   * as `unmatchedAccounting`.
   */
  method Reconcile(bankOps: seq<Operation>, accountingOps: seq<Operation>) returns (r: RapprochementResult)
    ensures r == Reconciled(bankOps, accountingOps)
    ensures |r.matched| + |r.unmatchedBank| == |bankOps|
    ensures |r.matched| + |r.unmatchedAccounting| == |accountingOps|
  {
    var matched: seq<Operation> := [];
    var unmatchedBank: seq<Operation> := [];
    var unmatchedAccounting := accountingOps;
    var i := 0;
    ghost var spec := Reconciled(bankOps, accountingOps);
    while i < |bankOps|
      invariant 0 <= i <= |bankOps|
      invariant spec == Prefixed(matched, unmatchedBank, Reconciled(bankOps[i..], unmatchedAccounting))
    {
      var bankOp := bankOps[i];
      ghost var rest := Reconciled(bankOps[i + 1..], NextPool(unmatchedAccounting, bankOp));
      ReconciledUnfold(bankOps, i, unmatchedAccounting);
      var idx := FirstMatch(unmatchedAccounting, bankOp);
      if idx != -1 {
        assert matched + ([bankOp] + rest.matched) == (matched + [bankOp]) + rest.matched;
        matched := matched + [bankOp];
        unmatchedAccounting := RemoveAt(unmatchedAccounting, idx);
      } else {
        assert unmatchedBank + ([bankOp] + rest.unmatchedBank) == (unmatchedBank + [bankOp]) + rest.unmatchedBank;
        unmatchedBank := unmatchedBank + [bankOp];
      }
      i := i + 1;
    }
    assert bankOps[i..] == [];
    assert matched + [] == matched && unmatchedBank + [] == unmatchedBank;
    r := RapprochementResult(matched, unmatchedBank, unmatchedAccounting);
    Partition(bankOps, accountingOps);
  }

  /** `rest` with `matched` and `unmatchedBank` put in front of its first two lists. */
  function Prefixed(matched: seq<Operation>, unmatchedBank: seq<Operation>, rest: RapprochementResult): RapprochementResult {
    RapprochementResult(matched + rest.matched, unmatchedBank + rest.unmatchedBank, rest.unmatchedAccounting)
  }

  /** One turn of the specification, read at position `i` of `bankOps`. */
  lemma ReconciledUnfold(bankOps: seq<Operation>, i: nat, pool: seq<Operation>)
    requires i < |bankOps|
    ensures
      var rest := Reconciled(bankOps[i + 1..], NextPool(pool, bankOps[i]));
      Reconciled(bankOps[i..], pool)
        == if FirstMatch(pool, bankOps[i]) >= 0 then rest.(matched := [bankOps[i]] + rest.matched)
           else rest.(unmatchedBank := [bankOps[i]] + rest.unmatchedBank)
  {
    assert bankOps[i..][1..] == bankOps[i + 1..];
  }

  // ---------------------------------------------------------------------------
  // Properties of the specification

  /** Every bank operation lands in exactly one list; each hit consumes exactly one pool entry. */
  lemma {:induction false} Partition(bankOps: seq<Operation>, pool: seq<Operation>)
    ensures var r := Reconciled(bankOps, pool);
      && |r.matched| + |r.unmatchedBank| == |bankOps|
      && |r.matched| + |r.unmatchedAccounting| == |pool|
  {
    if |bankOps| > 0 {
      Partition(bankOps[1..], NextPool(pool, bankOps[0]));
    }
  }

  /** The pool at the turn of `bankOps[k]`, after the first `k` bank operations were processed. */
  function PoolAt(bankOps: seq<Operation>, pool: seq<Operation>, k: nat): seq<Operation>
    requires k <= |bankOps|
    decreases k
  {
    if k == 0 then pool else PoolAt(bankOps[1..], NextPool(pool, bankOps[0]), k - 1)
  }

  /** For each bank operation, whether it found a partner in the pool at its turn. */
  function Hits(bankOps: seq<Operation>, pool: seq<Operation>): (flags: seq<bool>)
    ensures |flags| == |bankOps|
    decreases |bankOps|
  {
    if |bankOps| == 0 then []
    else [FirstMatch(pool, bankOps[0]) >= 0] + Hits(bankOps[1..], NextPool(pool, bankOps[0]))
  }

  /**
   * `matched` and `unmatchedBank` interleave back to `bankOps`: they are the
   * bank operations that did, respectively did not, find a partner at their turn.
   */
  lemma {:induction false} Interleave(bankOps: seq<Operation>, pool: seq<Operation>)
    ensures var r := Reconciled(bankOps, pool);
      && r.matched == Select(bankOps, Hits(bankOps, pool), true)
      && r.unmatchedBank == Select(bankOps, Hits(bankOps, pool), false)
  {
    if |bankOps| > 0 {
      Interleave(bankOps[1..], NextPool(pool, bankOps[0]));
    }
  }

  /** Some entry of `pool` has `bankOp`'s amount and date. */
  predicate HasPartner(pool: seq<Operation>, bankOp: Operation) {
    exists j :: 0 <= j < |pool| && Pairs(pool[j], bankOp)
  }

  /** `findIndex` succeeds exactly when the pool holds a partner. */
  lemma FirstMatchFound(pool: seq<Operation>, bankOp: Operation)
    ensures FirstMatch(pool, bankOp) >= 0 <==> HasPartner(pool, bankOp)
  {
    var r := FirstMatch(pool, bankOp);
    if r >= 0 {
      assert Pairs(pool[r], bankOp);
    }
  }

  /** Reading turn `k > 0` of `bankOps` as turn `k - 1` of its tail. */
  lemma TurnShift(bankOps: seq<Operation>, pool: seq<Operation>, k: nat)
    requires 0 < k < |bankOps|
    ensures var next := NextPool(pool, bankOps[0]);
      && bankOps[1..][k - 1] == bankOps[k]
      && Hits(bankOps, pool)[k] == Hits(bankOps[1..], next)[k - 1]
      && PoolAt(bankOps, pool, k) == PoolAt(bankOps[1..], next, k - 1)
      && PoolAt(bankOps, pool, k + 1) == PoolAt(bankOps[1..], next, k)
  {
  }

  /** Turn `k` is one `findIndex` on the pool of that turn, followed by its splice on a hit. */
  lemma {:induction false} Turn(bankOps: seq<Operation>, pool: seq<Operation>, k: nat)
    requires k < |bankOps|
    ensures Hits(bankOps, pool)[k] == (FirstMatch(PoolAt(bankOps, pool, k), bankOps[k]) >= 0)
    ensures PoolAt(bankOps, pool, k + 1) == NextPool(PoolAt(bankOps, pool, k), bankOps[k])
    decreases k
  {
    var next := NextPool(pool, bankOps[0]);
    if k == 0 {
      assert Hits(bankOps, pool)[0] == (FirstMatch(pool, bankOps[0]) >= 0);
      assert PoolAt(bankOps, pool, 1) == PoolAt(bankOps[1..], next, 0) == next;
    } else {
      var tail := bankOps[1..];
      Turn(tail, next, k - 1);
      TurnShift(bankOps, pool, k);

    }
  }

  /** A bank operation is matched iff, at its turn, some remaining pool entry has its amount and date. */
  lemma HitIff(bankOps: seq<Operation>, pool: seq<Operation>, k: nat)
    requires k < |bankOps|
    ensures Hits(bankOps, pool)[k] <==> HasPartner(PoolAt(bankOps, pool, k), bankOps[k])
  {
    Turn(bankOps, pool, k);
    FirstMatchFound(PoolAt(bankOps, pool, k), bankOps[k]);
  }

  /**
   * Tie-break at any turn: a hit splices out the earliest pairing entry of the
   * pool of that turn and keeps the other entries in order; a miss leaves the pool as it was.
   */
  lemma TieBreakAt(bankOps: seq<Operation>, pool: seq<Operation>, k: nat)
    requires k < |bankOps|
    ensures Hits(bankOps, pool)[k] == (FirstMatch(PoolAt(bankOps, pool, k), bankOps[k]) >= 0)
    ensures var before, after, i := PoolAt(bankOps, pool, k), PoolAt(bankOps, pool, k + 1),
                                    FirstMatch(PoolAt(bankOps, pool, k), bankOps[k]);
      && (i >= 0 ==>
            && Pairs(before[i], bankOps[k])
            && (forall j :: 0 <= j < i ==> !Pairs(before[j], bankOps[k]))
            && after == before[..i] + before[i + 1..])
      && (i < 0 ==> after == before)
  {
    Turn(bankOps, pool, k);
  }

  /** The unmatched accounting list of a turn is that of the rest of the run. */
  lemma RemainingAfterTurn(bankOps: seq<Operation>, pool: seq<Operation>)
    requires |bankOps| > 0
    ensures Reconciled(bankOps, pool).unmatchedAccounting
         == Reconciled(bankOps[1..], NextPool(pool, bankOps[0])).unmatchedAccounting
  {
  }

  /** The pool at turn `k` is what reconciling the first `k` bank operations leaves unmatched. */
  lemma {:induction false} PoolAtIsPrefixRun(bankOps: seq<Operation>, pool: seq<Operation>, k: nat)
    requires k <= |bankOps|
    ensures PoolAt(bankOps, pool, k) == Reconciled(bankOps[..k], pool).unmatchedAccounting
  {
    if k > 0 {
      var next := NextPool(pool, bankOps[0]);
      assert bankOps[..k][0] == bankOps[0];
      assert bankOps[..k][1..] == bankOps[1..][..k - 1];
      RemainingAfterTurn(bankOps[..k], pool);
      PoolAtIsPrefixRun(bankOps[1..], next, k - 1);
    }
  }

  /** The bank operations are split between `matched` and `unmatchedBank`, each exactly once. */
  lemma BankLinesPartitioned(bankOps: seq<Operation>, pool: seq<Operation>)
    ensures multiset(Reconciled(bankOps, pool).matched) + multiset(Reconciled(bankOps, pool).unmatchedBank)
         == multiset(bankOps)
  {
    Interleave(bankOps, pool);
    SelectSplits(bankOps, Hits(bankOps, pool));
  }

  /** Both partition lists are order-preserving subsequences of `bankOps`. */
  lemma BankOrderPreserved(bankOps: seq<Operation>, pool: seq<Operation>)
    ensures IsSubsequence(Reconciled(bankOps, pool).matched, bankOps)
    ensures IsSubsequence(Reconciled(bankOps, pool).unmatchedBank, bankOps)
  {
    Interleave(bankOps, pool);
    SelectIsSubsequence(bankOps, Hits(bankOps, pool), true);
    SelectIsSubsequence(bankOps, Hits(bankOps, pool), false);
  }

  /** `unmatchedAccounting` is an order-preserving subsequence of the initial pool. */
  lemma {:induction false} AccountingOrderPreserved(bankOps: seq<Operation>, pool: seq<Operation>)
    ensures IsSubsequence(Reconciled(bankOps, pool).unmatchedAccounting, pool)
  {
    if |bankOps| == 0 {
      SubsequenceOfSelf(pool);
    } else {
      var next := NextPool(pool, bankOps[0]);
      AccountingOrderPreserved(bankOps[1..], next);
      if FirstMatch(pool, bankOps[0]) >= 0 {
        RemoveAtIsSubsequence(pool, FirstMatch(pool, bankOps[0]));
        SubsequenceTransitive(Reconciled(bankOps[1..], next).unmatchedAccounting, next, pool);
      }
    }
  }

  /** The accounting entries consumed by the hits, in the order they were consumed. */
  function Consumed(bankOps: seq<Operation>, pool: seq<Operation>): seq<Operation>
    decreases |bankOps|
  {
    if |bankOps| == 0 then []
    else
      var idx := FirstMatch(pool, bankOps[0]);
      var rest := Consumed(bankOps[1..], NextPool(pool, bankOps[0]));
      if idx >= 0 then [pool[idx]] + rest else rest
  }

  /**
   * The `k`-th matched bank operation consumed the `k`-th consumed entry, and
   * that entry pairs with it.
   */
  lemma {:induction false} ConsumedPairs(bankOps: seq<Operation>, pool: seq<Operation>)
    ensures |Consumed(bankOps, pool)| == |Reconciled(bankOps, pool).matched|
    ensures forall k :: 0 <= k < |Reconciled(bankOps, pool).matched| ==>
      Pairs(Consumed(bankOps, pool)[k], Reconciled(bankOps, pool).matched[k])
  {
    if |bankOps| > 0 {
      var next := NextPool(pool, bankOps[0]);
      ConsumedPairs(bankOps[1..], next);
      ConsumedTurn(bankOps, pool);
      var idx := FirstMatch(pool, bankOps[0]);
      if idx >= 0 {
        PairsCons(pool[idx], bankOps[0], Consumed(bankOps[1..], next), Reconciled(bankOps[1..], next).matched);
      }
    }
  }

  /** One turn of `matched` and of `Consumed`: a hit puts the bank operation and its partner in front of both. */
  lemma ConsumedTurn(bankOps: seq<Operation>, pool: seq<Operation>)
    requires |bankOps| > 0
    ensures var idx, next := FirstMatch(pool, bankOps[0]), NextPool(pool, bankOps[0]);
      var m, c := Reconciled(bankOps[1..], next).matched, Consumed(bankOps[1..], next);
      && (idx >= 0 ==> Reconciled(bankOps, pool).matched == [bankOps[0]] + m && Consumed(bankOps, pool) == [pool[idx]] + c)
      && (idx < 0 ==> Reconciled(bankOps, pool).matched == m && Consumed(bankOps, pool) == c)
  {
  }

  /** Putting a pairing couple in front keeps two lists pairwise pairing. */
  lemma PairsCons(accOp: Operation, bankOp: Operation, c: seq<Operation>, m: seq<Operation>)
    requires Pairs(accOp, bankOp) && |c| == |m|
    requires forall k :: 0 <= k < |m| ==> Pairs(c[k], m[k])
    ensures forall k :: 0 <= k < |m| + 1 ==> Pairs(([accOp] + c)[k], ([bankOp] + m)[k])
  {
    forall k | 1 <= k < |m| + 1 ensures Pairs(([accOp] + c)[k], ([bankOp] + m)[k]) {
      assert ([accOp] + c)[k] == c[k - 1] && ([bankOp] + m)[k] == m[k - 1];
    }
  }

  /**
   * Each accounting entry is consumed at most once: the consumed entries
   * together with `unmatchedAccounting` are exactly the initial pool.
   */
  lemma {:induction false} ConsumedAccounting(bankOps: seq<Operation>, pool: seq<Operation>)
    ensures multiset(Reconciled(bankOps, pool).unmatchedAccounting) + multiset(Consumed(bankOps, pool))
         == multiset(pool)
  {
    if |bankOps| > 0 {
      var next := NextPool(pool, bankOps[0]);
      ConsumedAccounting(bankOps[1..], next);
      var idx := FirstMatch(pool, bankOps[0]);
      if idx >= 0 {
        assert Consumed(bankOps, pool) == [pool[idx]] + Consumed(bankOps[1..], next);
        assert multiset(next) + multiset{pool[idx]} == multiset(pool);
      }
    }
  }

  /** NaN amounts: a NaN bank operation is never matched, and no NaN accounting entry is ever consumed. */
  lemma NaNNeverMatches(bankOps: seq<Operation>, pool: seq<Operation>)
    ensures forall k :: 0 <= k < |bankOps| && bankOps[k].amount.NaN? ==> !Hits(bankOps, pool)[k]
    ensures forall e: Operation :: e.amount.NaN? ==>
      multiset(Reconciled(bankOps, pool).unmatchedAccounting)[e] == multiset(pool)[e]
  {
    forall k | 0 <= k < |bankOps| && bankOps[k].amount.NaN? ensures !Hits(bankOps, pool)[k] {
      HitIff(bankOps, pool, k);
    }
    ConsumedPairs(bankOps, pool);
    ConsumedAccounting(bankOps, pool);
    var c := Consumed(bankOps, pool);
    assert forall k :: 0 <= k < |c| ==> !c[k].amount.NaN?;
  }

  /** Tie-break: a bank operation takes the earliest pairing entry; later duplicates stay in the pool. */
  lemma TieBreak(bankOp: Operation, pool: seq<Operation>, i: nat)
    requires i < |pool| && Pairs(pool[i], bankOp)
    requires forall j :: 0 <= j < i ==> !Pairs(pool[j], bankOp)
    ensures Reconciled([bankOp], pool) == RapprochementResult([bankOp], [], pool[..i] + pool[i + 1..])
  {
    var r := FirstMatch(pool, bankOp);
    assert r == i;
    var next := pool[..i] + pool[i + 1..];
    assert NextPool(pool, bankOp) == next;
    assert [bankOp][1..] == [];
    assert Reconciled([], next) == RapprochementResult([], [], next);
  }

  /** Empty inputs: nothing to match on either side. */
  lemma {:induction false} EmptyInputs(bankOps: seq<Operation>, accountingOps: seq<Operation>)
    ensures Reconciled(bankOps, []) == RapprochementResult([], bankOps, [])
    ensures Reconciled([], accountingOps) == RapprochementResult([], [], accountingOps)
  {
    if |bankOps| > 0 {
      EmptyInputs(bankOps[1..], accountingOps);
      assert bankOps == [bankOps[0]] + bankOps[1..];
    }
  }

  /** Two accounting lines on the same date and amount: the one bank line consumes the first. */
  lemma DuplicateTieBreakExample()
    ensures
      var first := Operation("2024-01-01", "first", Finite(50.0));
      var second := Operation("2024-01-01", "second", Finite(50.0));
      var bank := Operation("2024-01-01", "bank", Finite(50.0));
      Reconciled([bank], [first, second]) == RapprochementResult([bank], [], [second])
  {
    var first := Operation("2024-01-01", "first", Finite(50.0));
    var second := Operation("2024-01-01", "second", Finite(50.0));
    var bank := Operation("2024-01-01", "bank", Finite(50.0));
    TieBreak(bank, [first, second], 0);
    assert [first, second][1..] == [second];
  }

  /** Rent paid on 2024-03-01 is matched; the fee on 2024-03-05 has no accounting counterpart. */
  lemma EndToEndExample()
    ensures
      var loyer := Operation("2024-03-01", "Loyer", Finite(900.0));
      var frais := Operation("2024-03-05", "Frais", Finite(15.0));
      var virement := Operation("2024-03-01", "Virement", Finite(900.0));
      Reconciled([loyer, frais], [virement]) == RapprochementResult([loyer], [frais], [])
  {
    var loyer := Operation("2024-03-01", "Loyer", Finite(900.0));
    var frais := Operation("2024-03-05", "Frais", Finite(15.0));
    var virement := Operation("2024-03-01", "Virement", Finite(900.0));
    assert [loyer, frais][1..] == [frais];
    assert FirstMatch([virement], loyer) == 0;
    assert NextPool([virement], loyer) == [];
    assert Reconciled([frais], []) == RapprochementResult([], [frais], []);
  }

  /** No tolerance: 100.00 and 100.01 on the same date do not pair. */
  lemma ExactAmountExample()
    ensures
      var bank := Operation("2024-01-01", "b", Finite(100.00));
      var acc := Operation("2024-01-01", "a", Finite(100.01));
      Reconciled([bank], [acc]) == RapprochementResult([], [bank], [acc])
  {
    var bank := Operation("2024-01-01", "b", Finite(100.00));
    var acc := Operation("2024-01-01", "a", Finite(100.01));
    assert FirstMatch([acc], bank) == -1;
  }
}
