/**
 * Worked runs: one target against one airdrop, with a chain whose answers are fixed.
 */
module Scenarios {
  import opened Wrappers
  import opened Addresses
  import opened Registry
  import opened Chain
  import opened Report
  import opened Engine
  import opened RunStatus
  import opened Agent

  const Target: Address := "0x00000000000000000000000000000000000000aa"
  const Contract: Address := "0x00000000000000000000000000000000000000cc"

  /** A chain that accepts every address, reports `amount` claimable, `claimed` for every
      index, and accepts every transaction. */
  function FixedChain(amount: nat, claimed: bool): Client
  {
    Client(_ => true, (_, _, _) => Returned(amount), (_, _, _) => Returned(claimed), (_, _) => Returned("0x7478"))
  }

  function SimpleDrop(): Drop
  {
    Drop("s", "Simple Drop", "SIM", Some(Contract), Simple, None)
  }

  function MerkleDrop(contract: Address): Drop
  {
    Drop("m", "Merkle Drop", "MRK", Some(contract), Merkle, Some(map[Target := Entry(7, 50, ["0x01"])]))
  }

  /** With one target and one airdrop, the scan is that single pair. */
  lemma {:induction false} OnePair(c: Client, target: Address, drop: Drop)
    ensures ScanAll(c, [target], [drop]) == PairStep(c, State([], []), target, drop)
  {
    var st := State([], []);
    match PairStep(c, st, target, drop)
    case Aborted(_) =>
    case Done(st') =>
      assert ScanDrops(c, st', target, [drop], 1) == Done(st');
      assert ScanTargets(c, st', [target], [drop], 1) == Done(st');
  }

  /**
   * On any chain, one target against one simple airdrop with a valid contract: a positive
   * `claimable` whose `claimReward()` returns is claimed, reported, and sets `claimable`.
   */
  lemma SimpleClaimOnAnyChain(c: Client, target: Address, drop: Drop, stored: StoredStatus, amount: nat, tx: TxHash)
    requires HasValidContract(c, drop) && drop.kind.Simple?
    requires c.claimable([], drop.contract.value, target) == Returned(amount) && amount > 0
    requires c.submit([ReadClaimable(drop.contract.value, target)], ClaimReward(drop.contract.value)) == Returned(tx)
    ensures var f := Finding(drop.name, drop.tokenSymbol, target, amount, SimpleTx(tx));
            RunSpec(c, Some([target]), [drop], stored)
            == Finished([ReadClaimable(drop.contract.value, target), ClaimReward(drop.contract.value)], [f], Claimable, Some(Findings(1, [f])))
  {
    OnePair(c, target, drop);
    assert [] + [ReadClaimable(drop.contract.value, target)] == [ReadClaimable(drop.contract.value, target)];
    SimpleStepClaims(c, State([], []), target, drop, drop.contract.value, amount, tx);
  }

  /**
   * On any chain, one target against one merkle airdrop on a real contract whose dataset has
   * an entry for it: an unclaimed index whose `claim` returns is claimed and reported.
   */
  lemma MerkleClaimOnAnyChain(c: Client, target: Address, drop: Drop, stored: StoredStatus, e: Entry, tx: TxHash)
    requires HasValidContract(c, drop) && drop.kind.Merkle? && drop.contract.value != ZeroAddress
    requires drop.claims.Some? && Lookup(drop.claims.value, target) == Some(e)
    requires c.isClaimed([], drop.contract.value, e.index) == Returned(false)
    requires c.submit([ReadIsClaimed(drop.contract.value, e.index)], Claim(drop.contract.value, e.index, target, e.amount, e.proof)) == Returned(tx)
    ensures var f := Finding(drop.name, drop.tokenSymbol, target, e.amount, MerkleTx(tx));
            RunSpec(c, Some([target]), [drop], stored)
            == Finished([ReadIsClaimed(drop.contract.value, e.index), Claim(drop.contract.value, e.index, target, e.amount, e.proof)],
                        [f], Claimable, Some(Findings(1, [f])))
  {
    OnePair(c, target, drop);
    assert [] + [ReadIsClaimed(drop.contract.value, e.index)] == [ReadIsClaimed(drop.contract.value, e.index)];
    MerkleStepClaims(c, State([], []), target, drop, drop.contract.value, e);
    var con := drop.contract.value;
    var f := Finding(drop.name, drop.tokenSymbol, target, e.amount, MerkleTx(tx));
    assert MerkleStep(c, State([], []), target, drop, con)
        == Done(State([ReadIsClaimed(con, e.index), Claim(con, e.index, target, e.amount, e.proof)], [] + [f]));
    assert [] + [f] == [f];
  }

  lemma DistinctAddresses()
    ensures Contract != ZeroAddress && Contract != "" && Target != ""
  {
    assert Contract[40] != ZeroAddress[40];
  }

  /** Nothing claimable after an `unknown` run: no notice, status `no_claim`. */
  lemma NothingClaimable()
    ensures RunSpec(FixedChain(0, false), Some([Target]), [SimpleDrop()], NoRecord)
            == Finished([ReadClaimable(Contract, Target)], [], NoClaim, None)
  {
    DistinctAddresses();
    OnePair(FixedChain(0, false), Target, SimpleDrop());
  }

  /** 100 claimable: one `claimReward`, one finding of 100, status `claimable`, findings posted. */
  lemma SimpleClaim()
    ensures var f := Finding("Simple Drop", "SIM", Target, 100, SimpleTx("0x7478"));
            RunSpec(FixedChain(100, false), Some([Target]), [SimpleDrop()], NoRecord)
            == Finished([ReadClaimable(Contract, Target), ClaimReward(Contract)], [f], Claimable, Some(Findings(1, [f])))
  {
    DistinctAddresses();
    OnePair(FixedChain(100, false), Target, SimpleDrop());
  }

  /** A zero-address merkle airdrop: a dry finding of 50 and no chain call at all. */
  lemma DryMerkle()
    ensures var f := Finding("Merkle Drop", "MRK", Target, 50, Dry);
            RunSpec(FixedChain(0, true), Some([Target]), [MerkleDrop(ZeroAddress)], Record(Some("claimable")))
            == Finished([], [f], Claimable, Some(Findings(1, [f])))
  {
    OnePair(FixedChain(0, true), Target, MerkleDrop(ZeroAddress));
  }

  /** An index already claimed: no finding; a heartbeat after `claimable`, silence after `no_claim`. */
  lemma AlreadyClaimed()
    ensures RunSpec(FixedChain(0, true), Some([Target]), [MerkleDrop(Contract)], Record(Some("claimable")))
            == Finished([ReadIsClaimed(Contract, 7)], [], NoClaim, Some(Heartbeat))
    ensures RunSpec(FixedChain(0, true), Some([Target]), [MerkleDrop(Contract)], Record(Some("no_claim")))
            == Finished([ReadIsClaimed(Contract, 7)], [], NoClaim, None)
  {
    DistinctAddresses();
    OnePair(FixedChain(0, true), Target, MerkleDrop(Contract));
  }

  /** An unclaimed index: `claim(7, target, 50, proof)` right after `isClaimed(7)`. */
  lemma MerkleClaim()
    ensures var f := Finding("Merkle Drop", "MRK", Target, 50, MerkleTx("0x7478"));
            RunSpec(FixedChain(0, false), Some([Target]), [MerkleDrop(Contract)], NoRecord)
            == Finished([ReadIsClaimed(Contract, 7), Claim(Contract, 7, Target, 50, ["0x01"])], [f], Claimable, Some(Findings(1, [f])))
  {
    DistinctAddresses();
    OnePair(FixedChain(0, false), Target, MerkleDrop(Contract));
  }

  /** A read that throws aborts the run: nothing after it, and the status record is kept. */
  lemma ReadThrows()
    ensures var c := Client(_ => true, (_, _, _) => Threw, (_, _, _) => Returned(false), (_, _) => Returned("0x7478"));
            var r := RunSpec(c, Some([Target]), [SimpleDrop(), MerkleDrop(Contract)], Record(Some("claimable")));
            r == Failed([ReadClaimable(Contract, Target)]) &&
            StoredAfter(Record(Some("claimable")), r) == Record(Some("claimable"))
  {
  }
}
