/**
 * The claim-determination engine of `run()`: for every target (outer) and every airdrop
 * (inner), validate the contract, dispatch on the airdrop type, query the chain, submit a
 * claim when one is due, and collect the findings. The functions specify one pair and the
 * two loops; the method `Scan` is the loop itself.
 */
module Engine {
  import opened Wrappers
  import opened Addresses
  import opened Registry
  import opened Chain
  import opened Report

  /** What the loops have accumulated: the chain calls made and the findings `lines`. */
  datatype State = State(calls: seq<Call>, lines: seq<Finding>)

  /** Where a scan stops: a call threw (the error unwinds out of `run`), or it went through. */
  datatype Outcome = Aborted(calls: seq<Call>) | Done(state: State)
  {
    /** The calls made, in order, whichever way the scan ended. */
    function Calls(): seq<Call>
    {
      if Aborted? then calls else state.calls
    }
  }

  /** `drop.contract` is present, non-empty and a well-formed address. */
  predicate HasValidContract(c: Client, drop: Drop)
  {
    drop.contract.Some? && drop.contract.value != "" && c.isAddress(drop.contract.value)
  }

  /** The simple protocol for one pair: read `claimable(target)`; if positive, `claimReward()`. */
  function SimpleStep(c: Client, st: State, target: Address, drop: Drop, contract: Address): (r: Outcome)
    ensures st.calls <= r.Calls() && |r.Calls()| <= |st.calls| + 2
    ensures |r.Calls()| > |st.calls| && r.Calls()[|st.calls|] == ReadClaimable(contract, target)
    ensures r.Done? ==> st.lines <= r.state.lines && |r.state.lines| <= |st.lines| + 1
    ensures r.Done? && |r.state.lines| > |st.lines| ==>
              var f := r.state.lines[|st.lines|];
              Names(f, target, drop) && f.via.SimpleTx? && f.amount > 0 &&
              c.claimable(st.calls, contract, target) == Returned(f.amount) &&
              r.state.calls == st.calls + [ReadClaimable(contract, target), ClaimReward(contract)]
    ensures c.claimable(st.calls, contract, target) == Returned(0) ==>
              r == Done(State(st.calls + [ReadClaimable(contract, target)], st.lines))
  {
    var read := ReadClaimable(contract, target);
    match c.claimable(st.calls, contract, target)
    case Threw => Aborted(st.calls + [read])
    case Returned(amount) =>
      if amount > 0 then
        var write := ClaimReward(contract);
        var history := st.calls + [read];
        match c.submit(history, write)
        case Threw => Aborted(history + [write])
        case Returned(tx) =>
          Done(State(history + [write], st.lines + [Finding(drop.name, drop.tokenSymbol, target, amount, SimpleTx(tx))]))
      else
        Done(State(st.calls + [read], st.lines))
  }

  /**
   * The merkle protocol for one pair: resolve the target's entry; on the zero address report
   * a dry finding without touching the chain; otherwise read `isClaimed(index)` and, if the
   * index is unclaimed, submit `claim(index, target, amount, proof)`.
   */
  function MerkleStep(c: Client, st: State, target: Address, drop: Drop, contract: Address): (r: Outcome)
    ensures st.calls <= r.Calls() && |r.Calls()| <= |st.calls| + 2
    ensures r.Done? ==> st.lines <= r.state.lines && |r.state.lines| <= |st.lines| + 1
    ensures (drop.claims.None? || Lookup(drop.claims.value, target).None?) ==> r == Done(st)
    ensures drop.claims.Some? && Lookup(drop.claims.value, target).Some? && contract == ZeroAddress ==>
              r == Done(State(st.calls, st.lines + [Finding(drop.name, drop.tokenSymbol, target,
                                                            Lookup(drop.claims.value, target).value.amount, Dry)]))
    ensures r.Done? && |r.state.lines| > |st.lines| ==>
              var f := r.state.lines[|st.lines|];
              Names(f, target, drop) && !f.via.SimpleTx? &&
              drop.claims.Some? && Lookup(drop.claims.value, target).Some? &&
              f.amount == Lookup(drop.claims.value, target).value.amount
    ensures r.Done? && |r.state.lines| > |st.lines| && r.state.lines[|st.lines|].via.MerkleTx? ==>
              var e := Lookup(drop.claims.value, target).value;
              contract != ZeroAddress && c.isClaimed(st.calls, contract, e.index) == Returned(false) &&
              r.state.calls == st.calls + [ReadIsClaimed(contract, e.index), Claim(contract, e.index, target, e.amount, e.proof)]
  {
    if drop.claims.None? then Done(st)
    else
      match Lookup(drop.claims.value, target)
      case None => Done(st)
      case Some(entry) =>
        if contract == ZeroAddress then
          Done(State(st.calls, st.lines + [Finding(drop.name, drop.tokenSymbol, target, entry.amount, Dry)]))
        else
          var read := ReadIsClaimed(contract, entry.index);
          match c.isClaimed(st.calls, contract, entry.index)
          case Threw => Aborted(st.calls + [read])
          case Returned(alreadyClaimed) =>
            if alreadyClaimed then Done(State(st.calls + [read], st.lines))
            else
              var write := Claim(contract, entry.index, target, entry.amount, entry.proof);
              var history := st.calls + [read];
              match c.submit(history, write)
              case Threw => Aborted(history + [write])
              case Returned(tx) =>
                Done(State(history + [write], st.lines + [Finding(drop.name, drop.tokenSymbol, target, entry.amount, MerkleTx(tx))]))
  }

  /** One (target, airdrop) pair: skip an invalid contract, then dispatch on the type. */
  function PairStep(c: Client, st: State, target: Address, drop: Drop): (r: Outcome)
    ensures st.calls <= r.Calls() && |r.Calls()| <= |st.calls| + 2
    ensures r.Done? ==> st.lines <= r.state.lines && |r.state.lines| <= |st.lines| + 1
    ensures r.Done? && |r.state.lines| > |st.lines| ==> Names(r.state.lines[|st.lines|], target, drop)
    ensures !HasValidContract(c, drop) || drop.kind.Unrecognized? ==> r == Done(st)
    ensures HasValidContract(c, drop) && drop.kind.Simple? ==> r == SimpleStep(c, st, target, drop, drop.contract.value)
    ensures HasValidContract(c, drop) && drop.kind.Merkle? ==> r == MerkleStep(c, st, target, drop, drop.contract.value)
  {
    if !HasValidContract(c, drop) then Done(st)
    else
      var contract := drop.contract.value;
      match drop.kind
      case Simple => SimpleStep(c, st, target, drop, contract)
      case Merkle => MerkleStep(c, st, target, drop, contract)
      case Unrecognized(_) => Done(st)
  }

  /** A `claimable` read that throws ends the pair, and the scan, right after that read. */
  lemma SimpleStepReadThrows(c: Client, st: State, target: Address, drop: Drop, contract: Address)
    requires c.claimable(st.calls, contract, target).Threw?
    ensures SimpleStep(c, st, target, drop, contract) == Aborted(st.calls + [ReadClaimable(contract, target)])
  {
  }

  /**
   * A positive `claimable` amount is claimed: `claimReward()` is submitted right after the read,
   * and once it returns a transaction hash the finding records that amount and that hash.
   */
  lemma SimpleStepClaims(c: Client, st: State, target: Address, drop: Drop, contract: Address, amount: nat, tx: TxHash)
    requires c.claimable(st.calls, contract, target) == Returned(amount) && amount > 0
    requires c.submit(st.calls + [ReadClaimable(contract, target)], ClaimReward(contract)) == Returned(tx)
    ensures SimpleStep(c, st, target, drop, contract)
         == Done(State(st.calls + [ReadClaimable(contract, target), ClaimReward(contract)],
                       st.lines + [Finding(drop.name, drop.tokenSymbol, target, amount, SimpleTx(tx))]))
  {
    assert st.calls + [ReadClaimable(contract, target)] + [ClaimReward(contract)]
        == st.calls + [ReadClaimable(contract, target), ClaimReward(contract)];
  }

  /** A positive amount whose `claimReward()` submission throws ends the scan after that write. */
  lemma SimpleStepSubmitThrows(c: Client, st: State, target: Address, drop: Drop, contract: Address, amount: nat)
    requires c.claimable(st.calls, contract, target) == Returned(amount) && amount > 0
    requires c.submit(st.calls + [ReadClaimable(contract, target)], ClaimReward(contract)).Threw?
    ensures SimpleStep(c, st, target, drop, contract)
         == Aborted(st.calls + [ReadClaimable(contract, target), ClaimReward(contract)])
  {
    assert st.calls + [ReadClaimable(contract, target)] + [ClaimReward(contract)]
        == st.calls + [ReadClaimable(contract, target), ClaimReward(contract)];
  }

  /**
   * On a real (non-zero) contract with an entry for the target, the first call is
   * `isClaimed(index)`; if it throws the scan ends there, and if the index is already
   * claimed the pair ends with that read alone and no finding.
   */
  lemma MerkleStepReads(c: Client, st: State, target: Address, drop: Drop, contract: Address, e: Entry)
    requires drop.claims.Some? && Lookup(drop.claims.value, target) == Some(e) && contract != ZeroAddress
    ensures var r := MerkleStep(c, st, target, drop, contract);
            |r.Calls()| > |st.calls| && r.Calls()[|st.calls|] == ReadIsClaimed(contract, e.index)
    ensures c.isClaimed(st.calls, contract, e.index).Threw? ==>
              MerkleStep(c, st, target, drop, contract) == Aborted(st.calls + [ReadIsClaimed(contract, e.index)])
    ensures c.isClaimed(st.calls, contract, e.index) == Returned(true) ==>
              MerkleStep(c, st, target, drop, contract) == Done(State(st.calls + [ReadIsClaimed(contract, e.index)], st.lines))
  {
  }

  /**
   * An unclaimed index is claimed: `claim(index, target, amount, proof)` with the entry's
   * values follows the read, and once it returns a hash the finding records the entry's
   * amount and that hash; a submission that throws ends the scan after that write.
   */
  lemma MerkleStepClaims(c: Client, st: State, target: Address, drop: Drop, contract: Address, e: Entry)
    requires drop.claims.Some? && Lookup(drop.claims.value, target) == Some(e) && contract != ZeroAddress
    requires c.isClaimed(st.calls, contract, e.index) == Returned(false)
    ensures var calls := st.calls + [ReadIsClaimed(contract, e.index), Claim(contract, e.index, target, e.amount, e.proof)];
            match c.submit(st.calls + [ReadIsClaimed(contract, e.index)], Claim(contract, e.index, target, e.amount, e.proof))
            case Threw => MerkleStep(c, st, target, drop, contract) == Aborted(calls)
            case Returned(tx) =>
              MerkleStep(c, st, target, drop, contract)
              == Done(State(calls, st.lines + [Finding(drop.name, drop.tokenSymbol, target, e.amount, MerkleTx(tx))]))
  {
    assert st.calls + [ReadIsClaimed(contract, e.index)] + [Claim(contract, e.index, target, e.amount, e.proof)]
        == st.calls + [ReadIsClaimed(contract, e.index), Claim(contract, e.index, target, e.amount, e.proof)];
  }

  /** The inner loop over `drops[j..]` for one target. */
  function ScanDrops(c: Client, st: State, target: Address, drops: seq<Drop>, j: nat): (r: Outcome)
    requires j <= |drops|
    decreases |drops| - j
  {
    if j == |drops| then Done(st)
    else
      match PairStep(c, st, target, drops[j])
      case Aborted(calls) => Aborted(calls)
      case Done(st') => ScanDrops(c, st', target, drops, j + 1)
  }

  /** The outer loop over `targets[i..]`, each target running the inner loop over all drops. */
  function ScanTargets(c: Client, st: State, targets: seq<Address>, drops: seq<Drop>, i: nat): (r: Outcome)
    requires i <= |targets|
    decreases |targets| - i
  {
    if i == |targets| then Done(st)
    else
      match ScanDrops(c, st, targets[i], drops, 0)
      case Aborted(calls) => Aborted(calls)
      case Done(st') => ScanTargets(c, st', targets, drops, i + 1)
  }

  /** The whole scan, from no calls and no findings. */
  function ScanAll(c: Client, targets: seq<Address>, drops: seq<Drop>): Outcome
  {
    ScanTargets(c, State([], []), targets, drops, 0)
  }

  /**
   * One iteration of the inner loop of `run()`: the body for one (target, airdrop) pair, whose
   * `continue`s become an unchanged `Done`. `claimed` says whether a finding was pushed, so
   * that the caller can bump `actions`.
   */
  method ClaimPair(c: Client, calls: seq<Call>, lines: seq<Finding>, target: Address, drop: Drop)
    returns (outcome: Outcome, claimed: bool)
    ensures outcome == PairStep(c, State(calls, lines), target, drop)
    ensures outcome.Done? ==> |outcome.state.lines| == |lines| + (if claimed then 1 else 0)
  {
    claimed := false;
    if drop.contract.None? || drop.contract.value == "" || !c.isAddress(drop.contract.value) {
      return Done(State(calls, lines)), false;
    }
    var contract := drop.contract.value;

    if drop.kind.Simple? {
      var read := ReadClaimable(contract, target);
      var amount := c.claimable(calls, contract, target);
      var history := calls + [read];
      if amount.Threw? {
        return Aborted(history), false;
      }
      if amount.value > 0 {
        var write := ClaimReward(contract);
        var txHash := c.submit(history, write);
        if txHash.Threw? {
          return Aborted(history + [write]), false;
        }
        return Done(State(history + [write], lines + [Finding(drop.name, drop.tokenSymbol, target, amount.value, SimpleTx(txHash.value))])), true;
      }
      return Done(State(history, lines)), false;
    }

    if drop.kind.Merkle? {
      if drop.claims.None? {
        return Done(State(calls, lines)), false;
      }
      var entry := Lookup(drop.claims.value, target);
      if entry.None? {
        return Done(State(calls, lines)), false;
      }
      var index, amount, proof := entry.value.index, entry.value.amount, entry.value.proof;

      if contract == ZeroAddress {
        return Done(State(calls, lines + [Finding(drop.name, drop.tokenSymbol, target, amount, Dry)])), true;
      }

      var read := ReadIsClaimed(contract, index);
      var alreadyClaimed := c.isClaimed(calls, contract, index);
      var history := calls + [read];
      if alreadyClaimed.Threw? {
        return Aborted(history), false;
      }
      if alreadyClaimed.value {
        return Done(State(history, lines)), false;
      }
      var write := Claim(contract, index, target, amount, proof);
      var txHash := c.submit(history, write);
      if txHash.Threw? {
        return Aborted(history + [write]), false;
      }
      return Done(State(history + [write], lines + [Finding(drop.name, drop.tokenSymbol, target, amount, MerkleTx(txHash.value))])), true;
    }
    outcome := Done(State(calls, lines));
  }

  /**
   * The nested loops of `run()`: `actions` counts the findings pushed onto `lines`; a call
   * that throws ends the scan at once.
   */
  method Scan(c: Client, targets: seq<Address>, drops: seq<Drop>) returns (result: Outcome, actions: nat)
    ensures result == ScanAll(c, targets, drops)
    ensures result.Done? ==> actions == |result.state.lines|
  {
    var calls: seq<Call> := [];
    var lines: seq<Finding> := [];
    actions := 0;
    for i := 0 to |targets|
      invariant ScanAll(c, targets, drops) == ScanTargets(c, State(calls, lines), targets, drops, i)
      invariant actions == |lines|
    {
      var target := targets[i];
      ghost var start := State(calls, lines);
      for j := 0 to |drops|
        invariant ScanDrops(c, start, target, drops, 0) == ScanDrops(c, State(calls, lines), target, drops, j)
        invariant actions == |lines|
      {
        var outcome, claimed := ClaimPair(c, calls, lines, target, drops[j]);
        if outcome.Aborted? {
          result := outcome;
          return;
        }
        calls, lines := outcome.state.calls, outcome.state.lines;
        if claimed {
          actions := actions + 1;
        }
      }
    }
    result := Done(State(calls, lines));
  }
}
