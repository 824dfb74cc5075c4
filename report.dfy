/**
 * The findings of a scan: one record per (target, airdrop) pair that produced a claim
 * signal, in the order the findings message lists them.
 */
module Report {
  import opened Addresses
  import opened Registry
  import opened Chain

  /** How the finding came about: a submitted transaction, or the zero-address dry path. */
  datatype Via = SimpleTx(tx: TxHash) | MerkleTx(tx: TxHash) | Dry

  /** One block of the findings message: airdrop name and token, target, amount, and how. */
  datatype Finding = Finding(name: string, tokenSymbol: string, target: Address, amount: nat, via: Via)

  /** The `Type:` line of a finding's block. */
  function TypeLabel(via: Via): (text: string)
    ensures via.SimpleTx? <==> text == "simple"
    ensures via.MerkleTx? <==> text == "merkle"
    ensures via.Dry? <==> text == "merkle (dry)"
  {
    match via
    case SimpleTx(_) => "simple"
    case MerkleTx(_) => "merkle"
    case Dry => "merkle (dry)"
  }

  /** The finding was produced for `target` and the airdrop `drop`. */
  predicate Names(f: Finding, target: Address, drop: Drop)
  {
    f.target == target && f.name == drop.name && f.tokenSymbol == drop.tokenSymbol
  }

  /** The number of findings that carry a transaction (every finding but the dry ones). */
  function CountSubmitted(lines: seq<Finding>): nat
  {
    if lines == [] then 0
    else CountSubmitted(lines[..|lines| - 1]) + (if lines[|lines| - 1].via.Dry? then 0 else 1)
  }

  lemma CountSubmittedSnoc(lines: seq<Finding>, f: Finding)
    ensures CountSubmitted(lines + [f]) == CountSubmitted(lines) + (if f.via.Dry? then 0 else 1)
  {
    assert (lines + [f])[..|lines|] == lines;
  }
}
