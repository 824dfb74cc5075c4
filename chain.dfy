/**
 * The chain client as the scanner uses it: two reads and two writes, each of which may
 * throw. The client is a set of oracle functions; each one is given the calls made before
 * it, so what the chain answers may depend on the writes already sent.
 */
module Chain {
  import opened Addresses
  import opened Registry

  /** A transaction hash returned by `writeContract`. */
  type TxHash = string

  /** One chain call, with the arguments the scanner passes. */
  datatype Call =
    | ReadClaimable(contract: Address, account: Address)
    | ClaimReward(contract: Address)
    | ReadIsClaimed(contract: Address, index: nat)
    | Claim(contract: Address, index: nat, account: Address, amount: nat, proof: seq<Hash>)
  {
    predicate IsWrite() { ClaimReward? || Claim? }
  }

  /** What an awaited call settles to: a value, or an exception. */
  datatype Reply<+T> = Returned(value: T) | Threw

  /**
   * The viem clients. `isAddress` is viem's address validator; `claimable` and `isClaimed`
   * are the two `readContract` calls; `submit` is `writeContract`. Every oracle is applied to
   * the history of calls made before the one it answers.
   */
  datatype Client = Client(
    isAddress: string -> bool,
    claimable: (seq<Call>, Address, Address) -> Reply<nat>,
    isClaimed: (seq<Call>, Address, nat) -> Reply<bool>,
    submit: (seq<Call>, Call) -> Reply<TxHash>)
  {
    /** `call`, made after `history`, throws. */
    predicate Throws(history: seq<Call>, call: Call)
    {
      match call
      case ReadClaimable(con, account) => claimable(history, con, account).Threw?
      case ReadIsClaimed(con, index) => isClaimed(history, con, index).Threw?
      case _ => submit(history, call).Threw?
    }

    /** The read `check`, made after `history`, answered that `write` is due: a positive
        claimable amount for `claimReward`, an unclaimed index for `claim`. */
    predicate Permits(history: seq<Call>, check: Call, write: Call)
    {
      match write
      case ClaimReward(con) =>
        check.ReadClaimable? && check.contract == con &&
        var amount := claimable(history, con, check.account);
        amount.Returned? && amount.value > 0
      case Claim(con, index, _, _, _) =>
        check == ReadIsClaimed(con, index) && isClaimed(history, con, index) == Returned(false)
      case _ => false
    }

    /** No call of the trace threw. */
    predicate AllAnswered(calls: seq<Call>)
    {
      forall k :: 0 <= k < |calls| ==> !Throws(calls[..k], calls[k])
    }

    /** Every write of the trace directly follows the read that permitted it. */
    predicate WritesChecked(calls: seq<Call>)
    {
      forall k :: 0 <= k < |calls| && calls[k].IsWrite() ==>
        0 < k && Permits(calls[..k - 1], calls[k - 1], calls[k])
    }

    /** Every call of the trace is addressed to a contract that passed validation. */
    predicate OnValidContracts(calls: seq<Call>)
    {
      forall k :: 0 <= k < |calls| ==> calls[k].contract != "" && isAddress(calls[k].contract)
    }

    /** The safety invariants every trace of the scanner keeps. */
    predicate TraceInvariant(calls: seq<Call>)
    {
      WritesChecked(calls) && OnValidContracts(calls) && NoMerkleCallAtZero(calls)
    }
  }

  /** No merkle read or write of the trace is addressed to the zero address. */
  predicate NoMerkleCallAtZero(calls: seq<Call>)
  {
    forall k :: 0 <= k < |calls| && (calls[k].ReadIsClaimed? || calls[k].Claim?) ==>
      calls[k].contract != ZeroAddress
  }

  /** The number of writes in a trace. */
  function CountWrites(calls: seq<Call>): nat
  {
    if calls == [] then 0
    else CountWrites(calls[..|calls| - 1]) + (if calls[|calls| - 1].IsWrite() then 1 else 0)
  }

  lemma CountWritesSnoc(calls: seq<Call>, x: Call)
    ensures CountWrites(calls + [x]) == CountWrites(calls) + (if x.IsWrite() then 1 else 0)
  {
    assert (calls + [x])[..|calls|] == calls;
  }

  /** What the trace invariants need to know about a trace extended by one call. */
  lemma {:induction false} Extend(c: Client, calls: seq<Call>, x: Call)
    ensures c.AllAnswered(calls) && !c.Throws(calls, x) ==> c.AllAnswered(calls + [x])
    ensures c.WritesChecked(calls) && !x.IsWrite() ==> c.WritesChecked(calls + [x])
    ensures c.WritesChecked(calls) && |calls| > 0 && c.Permits(calls[..|calls| - 1], calls[|calls| - 1], x) ==>
              c.WritesChecked(calls + [x])
    ensures c.OnValidContracts(calls) && x.contract != "" && c.isAddress(x.contract) ==>
              c.OnValidContracts(calls + [x])
    ensures NoMerkleCallAtZero(calls) && ((x.ReadIsClaimed? || x.Claim?) ==> x.contract != ZeroAddress) ==>
              NoMerkleCallAtZero(calls + [x])
  {
    var s := calls + [x];
    assert s[..|calls|] == calls;
    assert forall k :: 0 <= k <= |calls| ==> s[..k] == calls[..k];
    if |calls| > 0 {
      assert s[..|calls| - 1] == calls[..|calls| - 1];
    }
  }
}
