/**
 * What every trace of chain calls made by the scanner satisfies: writes only right after the
 * read that permitted them, calls only to validated contracts, no merkle call to the zero
 * address, one write per submitted finding, and a scan that stops at the first call that
 * throws. Proved for one pair, then for any run of pairs.
 */
module Safety {
  import opened Wrappers
  import opened Addresses
  import opened Registry
  import opened Report
  import opened Chain
  import opened Engine
  import opened Order

  /** How an outcome relates to the calls that threw: none did when the scan went through,
      and exactly the last one did when it was aborted. */
  predicate Settled(c: Client, before: seq<Call>, r: Outcome)
  {
    match r
    case Done(st) => c.AllAnswered(st.calls)
    case Aborted(calls) =>
      |calls| > |before| && c.AllAnswered(calls[..|calls| - 1]) &&
      c.Throws(calls[..|calls| - 1], calls[|calls| - 1])
  }

  /** From `st` to `st'`, one write was made per finding that carries a transaction. */
  predicate WritesMatch(st: State, st': State)
  {
    CountWrites(st'.calls) - CountWrites(st.calls) == CountSubmitted(st'.lines) - CountSubmitted(st.lines)
  }

  /** A read appended to a trace: what the trace invariants and the settling of calls need. */
  lemma CheckedRead(c: Client, calls: seq<Call>, read: Call)
    requires !read.IsWrite() && read.contract != "" && c.isAddress(read.contract)
    requires read.ReadIsClaimed? ==> read.contract != ZeroAddress
    ensures c.TraceInvariant(calls) ==> c.TraceInvariant(calls + [read])
    ensures c.AllAnswered(calls) ==>
              if c.Throws(calls, read) then Settled(c, calls, Aborted(calls + [read]))
              else c.AllAnswered(calls + [read])
    ensures CountWrites(calls + [read]) == CountWrites(calls)
  {
    Extend(c, calls, read);
    CountWritesSnoc(calls, read);
    assert (calls + [read])[..|calls|] == calls;
  }

  /** A write appended right after the read that permitted it. */
  lemma CheckedWrite(c: Client, calls: seq<Call>, read: Call, write: Call)
    requires !read.IsWrite() && write.IsWrite() && c.Permits(calls, read, write)
    requires write.contract != "" && c.isAddress(write.contract)
    requires write.Claim? ==> write.contract != ZeroAddress
    ensures c.TraceInvariant(calls + [read]) ==> c.TraceInvariant(calls + [read] + [write])
    ensures c.AllAnswered(calls + [read]) ==>
              if c.Throws(calls + [read], write) then Settled(c, calls, Aborted(calls + [read] + [write]))
              else c.AllAnswered(calls + [read] + [write])
    ensures CountWrites(calls + [read] + [write]) == CountWrites(calls + [read]) + 1
  {
    var history := calls + [read];
    assert history[..|history| - 1] == calls && history[|history| - 1] == read;
    Extend(c, history, write);
    CountWritesSnoc(history, write);
    assert (history + [write])[..|history|] == history;
  }

  lemma SimpleStepSafe(c: Client, st: State, target: Address, drop: Drop)
    requires HasValidContract(c, drop)
    ensures var r := SimpleStep(c, st, target, drop, drop.contract.value);
            (c.TraceInvariant(st.calls) ==> c.TraceInvariant(r.Calls())) &&
            (c.AllAnswered(st.calls) ==> Settled(c, st.calls, r)) &&
            (r.Done? ==> WritesMatch(st, r.state))
  {
    var contract := drop.contract.value;
    var read := ReadClaimable(contract, target);
    CheckedRead(c, st.calls, read);
    match c.claimable(st.calls, contract, target)
    case Threw =>
    case Returned(amount) =>
      if amount > 0 {
        var write := ClaimReward(contract);
        CheckedWrite(c, st.calls, read, write);
        match c.submit(st.calls + [read], write)
        case Threw =>
        case Returned(tx) =>
          CountSubmittedSnoc(st.lines, Finding(drop.name, drop.tokenSymbol, target, amount, SimpleTx(tx)));
      }
  }

  lemma MerkleStepSafe(c: Client, st: State, target: Address, drop: Drop)
    requires HasValidContract(c, drop)
    ensures var r := MerkleStep(c, st, target, drop, drop.contract.value);
            (c.TraceInvariant(st.calls) ==> c.TraceInvariant(r.Calls())) &&
            (c.AllAnswered(st.calls) ==> Settled(c, st.calls, r)) &&
            (r.Done? ==> WritesMatch(st, r.state))
  {
    var contract := drop.contract.value;
    if drop.claims.Some? && Lookup(drop.claims.value, target).Some? {
      var entry := Lookup(drop.claims.value, target).value;
      if contract == ZeroAddress {
        CountSubmittedSnoc(st.lines, Finding(drop.name, drop.tokenSymbol, target, entry.amount, Dry));
      } else {
        var read := ReadIsClaimed(contract, entry.index);
        CheckedRead(c, st.calls, read);
        match c.isClaimed(st.calls, contract, entry.index)
        case Threw =>
        case Returned(alreadyClaimed) =>
          if !alreadyClaimed {
            MerkleWriteSafe(c, st, target, drop, entry);
          }
      }
    }
  }

  /** The write half of the merkle protocol, once `isClaimed` answered false. */
  lemma MerkleWriteSafe(c: Client, st: State, target: Address, drop: Drop, entry: Entry)
    requires HasValidContract(c, drop) && drop.contract.value != ZeroAddress
    requires drop.claims.Some? && Lookup(drop.claims.value, target) == Some(entry)
    requires c.isClaimed(st.calls, drop.contract.value, entry.index) == Returned(false)
    ensures var r := MerkleStep(c, st, target, drop, drop.contract.value);
            (c.TraceInvariant(st.calls) ==> c.TraceInvariant(r.Calls())) &&
            (c.AllAnswered(st.calls) ==> Settled(c, st.calls, r)) &&
            (r.Done? ==> WritesMatch(st, r.state))
  {
    var contract := drop.contract.value;
    var read := ReadIsClaimed(contract, entry.index);
    var write := Claim(contract, entry.index, target, entry.amount, entry.proof);
    CheckedRead(c, st.calls, read);
    CheckedWrite(c, st.calls, read, write);
    match c.submit(st.calls + [read], write)
    case Threw =>
    case Returned(tx) =>
      CountSubmittedSnoc(st.lines, Finding(drop.name, drop.tokenSymbol, target, entry.amount, MerkleTx(tx)));
  }

  /** One pair keeps the trace invariants, settles its calls and makes one write per
      submitted finding. */
  lemma PairStepSafe(c: Client, st: State, target: Address, drop: Drop)
    ensures var r := PairStep(c, st, target, drop);
            (c.TraceInvariant(st.calls) ==> c.TraceInvariant(r.Calls())) &&
            (c.AllAnswered(st.calls) ==> Settled(c, st.calls, r)) &&
            (r.Done? ==> WritesMatch(st, r.state))
  {
    if HasValidContract(c, drop) {
      match drop.kind
      case Simple => SimpleStepSafe(c, st, target, drop);
      case Merkle => MerkleStepSafe(c, st, target, drop);
      case Unrecognized(_) =>
    }
  }

  /** Any run of pairs keeps the trace invariants, stops at the first call that throws, and
      makes one write per submitted finding. */
  lemma {:induction false} ScanPairsSafe(c: Client, st: State, pairs: seq<Pair>)
    ensures var r := ScanPairs(c, st, pairs);
            (c.TraceInvariant(st.calls) ==> c.TraceInvariant(r.Calls())) &&
            (c.AllAnswered(st.calls) ==> Settled(c, st.calls, r)) &&
            (r.Done? ==> WritesMatch(st, r.state))
    decreases |pairs|
  {
    if pairs != [] {
      var p := pairs[0];
      var step := PairStep(c, st, p.target, p.drop);
      PairStepSafe(c, st, p.target, p.drop);
      if step.Done? {
        var st' := step.state;
        ScanPairsSafe(c, st', pairs[1..]);
        assert ScanPairs(c, st, pairs) == ScanPairs(c, st', pairs[1..]);
      } else {
        assert ScanPairs(c, st, pairs) == step;
      }
    }
  }

  /** The whole scan keeps the trace invariants, stops right after the first call that
      throws, and makes one write per submitted finding. */
  lemma ScanAllSafe(c: Client, targets: seq<Address>, drops: seq<Drop>)
    ensures var r := ScanAll(c, targets, drops);
            c.TraceInvariant(r.Calls()) && Settled(c, [], r) &&
            (r.Done? ==> CountWrites(r.state.calls) == CountSubmitted(r.state.lines))
  {
    ScanAllIsFlat(c, targets, drops);
    ScanPairsSafe(c, State([], []), Pairs(targets, drops));
  }

  /** An airdrop on the dry path: a merkle entry whose contract is the zero address. */
  predicate IsDry(drop: Drop)
  {
    drop.kind.Merkle? && drop.contract == Some(ZeroAddress)
  }

  /** The finding a dry pair produces, if its dataset has an entry for the target. */
  function DryFinding(p: Pair): seq<Finding>
  {
    if p.drop.claims.Some? && Lookup(p.drop.claims.value, p.target).Some?
    then [Finding(p.drop.name, p.drop.tokenSymbol, p.target, Lookup(p.drop.claims.value, p.target).value.amount, Dry)]
    else []
  }

  /** The findings a run of dry pairs produces; no chain is involved. */
  function DryFindings(pairs: seq<Pair>): seq<Finding>
    decreases |pairs|
  {
    if pairs == [] then [] else DryFinding(pairs[0]) + DryFindings(pairs[1..])
  }

  /** A dry pair adds its dry finding, if any, and makes no call. */
  lemma DryScanStep(c: Client, st: State, pairs: seq<Pair>)
    requires c.isAddress(ZeroAddress) && pairs != [] && IsDry(pairs[0].drop)
    ensures ScanPairs(c, st, pairs) == ScanPairs(c, State(st.calls, st.lines + DryFinding(pairs[0])), pairs[1..])
  {
    var p := pairs[0];
    assert PairStep(c, st, p.target, p.drop) == Done(State(st.calls, st.lines + DryFinding(p)));
  }

  /**
   * On dry pairs the scan makes no chain call, never aborts, and produces the findings of
   * `DryFindings`, whatever the chain answers: every repetition gives the same report.
   */
  lemma {:induction false} ScanDryPairs(c: Client, st: State, pairs: seq<Pair>)
    requires c.isAddress(ZeroAddress)
    requires forall k :: 0 <= k < |pairs| ==> IsDry(pairs[k].drop)
    ensures ScanPairs(c, st, pairs) == Done(State(st.calls, st.lines + DryFindings(pairs)))
    decreases |pairs|
  {
    if pairs != [] {
      assert IsDry(pairs[0].drop);
      DryScanStep(c, st, pairs);
      var rest := pairs[1..];
      assert forall k :: 0 <= k < |rest| ==> IsDry(rest[k].drop) by {
        forall k | 0 <= k < |rest| ensures IsDry(rest[k].drop) {
          assert rest[k] == pairs[k + 1];
        }
      }
      var st' := State(st.calls, st.lines + DryFinding(pairs[0]));
      ScanDryPairs(c, st', rest);
      assert DryFindings(pairs) == DryFinding(pairs[0]) + DryFindings(rest);
      assert st'.lines + DryFindings(rest) == st.lines + DryFindings(pairs);
    }
  }
}
