/**
 * The airdrop registry and the merkle proof datasets, as already-parsed values, and the
 * merkle proof resolver: the lookup of a target's claim entry in one dataset.
 */
module Registry {
  import opened Wrappers
  import opened Addresses

  /** A bytes32 value of a merkle proof, as the hex string of the dataset. */
  type Hash = string

  /** One entry of a proof dataset's `claims` object. */
  datatype Entry = Entry(index: nat, amount: nat, proof: seq<Hash>)

  /** The `claims` object of a proof dataset: address-like key to entry. */
  type Claims = map<string, Entry>

  /** The airdrop's `type` field; any other value is kept as it was written. */
  datatype Kind = Simple | Merkle | Unrecognized(tag: string)

  /**
   * One element of the registry's `airdrops` list. `contract` is None when the field
   * is missing. `claims` is the `claims` object of the dataset that `proofs` names, or
   * None when that file is missing or unparsable or has no `claims`.
   */
  datatype Drop = Drop(
    id: string,
    name: string,
    tokenSymbol: string,
    contract: Option<string>,
    kind: Kind,
    claims: Option<Claims>)

  /** The entry of `target`: the exact key first, the lower-cased key second. */
  function Lookup(claims: Claims, target: Address): (r: Option<Entry>)
    ensures r.Some? <==> target in claims || NormalizeAddr(Some(target)) in claims
    ensures target in claims ==> r == Some(claims[target])
    ensures target !in claims && NormalizeAddr(Some(target)) in claims ==>
              r == Some(claims[NormalizeAddr(Some(target))])
  {
    if target in claims then Some(claims[target])
    else
      var targetLc := NormalizeAddr(Some(target));
      if targetLc in claims then Some(claims[targetLc]) else None
  }

  /** Every key of the dataset is written in lower case. */
  predicate LowerCaseKeyed(claims: Claims)
  {
    forall k :: k in claims ==> IsLowerCase(k)
  }

  /**
   * In a dataset keyed by lower-case addresses, targets that differ only in the case of
   * their letters resolve to the same entry (or both to none).
   */
  lemma LookupIgnoresCaseOfLowerCaseKeys(claims: Claims, t1: Address, t2: Address)
    requires LowerCaseKeyed(claims)
    requires NormalizeAddr(Some(t1)) == NormalizeAddr(Some(t2))
    ensures Lookup(claims, t1) == Lookup(claims, t2)
  {
    var lc := NormalizeAddr(Some(t1));
    if t1 in claims {
      assert t1 == lc;
    }
    if t2 in claims {
      assert t2 == lc;
    }
  }

  /**
   * The lookup is not case-insensitive in general: a dataset keyed by a mixed-case address
   * does not resolve for the same address written with its letters in another case.
   */
  lemma LookupMissesOtherCaseOfMixedCaseKey()
    ensures Lookup(map["0xAb" := Entry(0, 1, [])], "0xaB") == None
  {
    var lc := NormalizeAddr(Some("0xaB"));
    assert lc[2] == LowerChar('a') == 'a';
    assert lc != "0xAb";
  }
}
