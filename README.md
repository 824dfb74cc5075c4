# Claim scanner of openclaw-claim-agent, modelled in Dafny

`scripts/scan_and_claim.mjs` runs on a schedule. On every run it goes through each target
address of the user registry (outer loop) and each airdrop of the airdrop registry (inner
loop). It skips an airdrop whose contract address is missing or invalid. Otherwise it
dispatches on the airdrop's type:

- **simple**: read `claimable(target)`; if the amount is positive, send `claimReward()`.
- **merkle**: look up the target's entry in the airdrop's proof dataset, trying the exact key
  first and then the lower-cased target. A zero-address contract is a dry-run marker: it is
  reported but never touched. Otherwise read `isClaimed(index)` and, if the index is
  unclaimed, send `claim(index, target, amount, proof)`.

Every claim (and every dry report) increments `actions` and appends a finding to `lines`.
After the loops the run writes `claimable` or `no_claim` to the status file. It then posts
the findings, or posts a heartbeat when nothing was found after a `claimable` run, or posts
nothing. A chain call that throws unwinds out of `run()`. The top-level `catch` then exits
with status 1, before any status write or post.

The model, one module per component:

- `Wrappers`: `Option`.
- `Addresses`: addresses as strings, `ZeroAddress`, `normalizeAddr`.
- `Registry`: airdrop entries, proof datasets, and the merkle entry lookup.
- `Chain`: the chain client as oracle functions. Each oracle is applied to the history of
  calls made before the one it answers, so what the chain says may depend on earlier writes.
  `isAddress` is part of the client. The module also holds the trace predicates.
- `Report`: the finding records.
- `Engine`: one pair (`SimpleStep`, `MerkleStep`, `PairStep`) and the two loops as
  functions (`ScanDrops`, `ScanTargets`). Beside them is the imperative `Scan` method with its
  nested `for` loops, `actions` counter and `lines` list, proved equal to them. The inner
  loop's body is the method `ClaimPair`, where each `continue` returns the state unchanged.
- `Order`: the target-major pair list and the same scan as one flat loop over it. These are
  the reference for iteration order.
- `Safety`: invariants of every trace of calls.
- `RunStatus`: `readStatus` defaulting, the status written, and the notification gate.
- `Agent`: one whole run. It has a status store and a notifier as small classes, the `Run`
  method and its specification `RunSpec`, and the run-level properties.
- `Scenarios`: worked runs against fixed chains.

## Model

| member | source | states |
|---|---|---|
| `Addresses.ToLower` | scripts/scan_and_claim.mjs:88 | the result has the input's length, contains no upper-case letter, and agrees with the input letter by letter up to case |
| `Addresses.NormalizeAddr` | scripts/scan_and_claim.mjs:87-89 | a missing value becomes `""`; otherwise the result is the input lower-cased, of the same length, and a lower-case input is unchanged |
| `Addresses.NormalizeAddrIdempotent` | scripts/scan_and_claim.mjs:87-89 | normalising a normalised address changes nothing |
| `Addresses.NormalizeAddrIgnoresCase` | scripts/scan_and_claim.mjs:87-89 | addresses that differ only in letter case normalise to the same string |
| `Registry.Lookup` | scripts/scan_and_claim.mjs:145 | an entry is found iff the exact target or its lower-cased form is a key; the exact key wins; the lower-cased key is used only when the exact one is absent |
| `Registry.LookupIgnoresCaseOfLowerCaseKeys` | scripts/scan_and_claim.mjs:145 | in a dataset keyed by lower-case addresses, targets that differ only in case resolve to the same entry or both to none |
| `Registry.LookupMissesOtherCaseOfMixedCaseKey` | scripts/scan_and_claim.mjs:145 | a mixed-case key is not found for the same address written with other letter cases, so the lookup is not case-insensitive in general |
| `Report.TypeLabel` | scripts/scan_and_claim.mjs:129-194 | the `Type:` label is `simple` exactly for a `claimReward` finding, `merkle` exactly for a `claim` finding, and `merkle (dry)` exactly for a zero-address finding |
| `Engine.SimpleStep` | scripts/scan_and_claim.mjs:108-134 | the first call is always `claimable(target)`; a zero amount adds only that read and no finding; a finding is positive, equals the amount read, and comes with exactly the read and one `claimReward` write |
| `Engine.MerkleStep` | scripts/scan_and_claim.mjs:137-196 | no dataset or no entry: nothing happens; zero-address contract: no call at all and one dry finding with the entry's amount; a claimed finding comes with exactly `isClaimed(index)` having answered false and then `claim(index, target, amount, proof)` |
| `Engine.PairStep` | scripts/scan_and_claim.mjs:101-196 | an invalid or missing contract, or an unrecognised type, changes nothing; a valid `simple` airdrop runs the simple protocol and a valid `merkle` airdrop the merkle protocol; one pair makes at most two calls, only appended to the trace, and adds at most one finding, which names this target and airdrop |
| `Engine.SimpleStepReadThrows` | scripts/scan_and_claim.mjs:109-114 | a `claimable` read that throws ends the scan right after that read |
| `Engine.SimpleStepClaims` | scripts/scan_and_claim.mjs:116-130 | a positive `claimable` amount is claimed: `claimReward()` follows the read, and once it returns a hash the finding records that amount and that hash |
| `Engine.SimpleStepSubmitThrows` | scripts/scan_and_claim.mjs:119-123 | a `claimReward()` submission that throws ends the scan after that write, with no finding |
| `Engine.MerkleStepReads` | scripts/scan_and_claim.mjs:168-179 | on a real contract with an entry, the first call is `isClaimed(index)`; a throw ends the scan there; an index already claimed ends the pair with that read only and no finding |
| `Engine.MerkleStepClaims` | scripts/scan_and_claim.mjs:181-195 | an unclaimed index is claimed with `claim(index, target, amount, proof)` of the entry; a returned hash gives a finding of the entry's amount with that hash; a throw ends the scan after that write |
| `Engine.ClaimPair` | scripts/scan_and_claim.mjs:100-196 | one iteration of the inner loop computes exactly `PairStep`, and reports a pushed finding exactly when the line list grew by one |
| `Engine.Scan` | scripts/scan_and_claim.mjs:95-198 | the nested loops compute exactly `ScanAll` (the loop specification), and on a completed scan `actions` equals the number of findings |
| `Order.PairsTargetMajor` | scripts/scan_and_claim.mjs:98-101 | the pair list has one pair per target and airdrop, and target i with airdrop j is at position i·(number of airdrops)+j |
| `Order.ScanAllIsFlat` | scripts/scan_and_claim.mjs:98-101 | the nested loops equal one flat loop over the target-major pair list |
| `Order.ScanPairsKeepsStep` | scripts/scan_and_claim.mjs:98-198 | once the scan reaches a pair and that pair goes through, the rest of the scan starts from the pair's result, so its calls and findings are kept in every completed scan |
| `Order.ScanPairsFindingsInOrder` | scripts/scan_and_claim.mjs:127-128 | a scan only appends findings, and the appended findings form a subsequence of the pairs in order, each naming its own pair |
| `Order.ScanPairsIgnoresInvalid` | scripts/scan_and_claim.mjs:102-105 | pairs whose airdrop has an invalid contract can be removed from a scan without changing its outcome |
| `Order.ValidDrops` | scripts/scan_and_claim.mjs:102-105 | the registry entries kept all have a present, non-empty, valid contract, and there are no more of them than entries |
| `Order.ValidDropsKeepsValid` | scripts/scan_and_claim.mjs:101-105 | every entry with a valid contract is kept, and a registry that is valid throughout is kept whole |
| `Safety.SimpleStepSafe` | scripts/scan_and_claim.mjs:109-133 | the simple protocol keeps the trace invariants, settles its calls (throws only on its last call), and makes one write per submitted finding |
| `Safety.MerkleStepSafe` | scripts/scan_and_claim.mjs:139-195 | the same for the merkle protocol, including the dry path, which makes no write and adds a finding without a transaction |
| `Safety.MerkleWriteSafe` | scripts/scan_and_claim.mjs:183-194 | the `claim` write follows the `isClaimed` read of the same index that answered false |
| `Safety.PairStepSafe` | scripts/scan_and_claim.mjs:101-196 | one pair keeps the trace invariants, settles its calls and makes one write per submitted finding |
| `Safety.ScanPairsSafe` | scripts/scan_and_claim.mjs:98-198 | any run of pairs keeps the trace invariants, stops right after the first call that throws, and makes one write per submitted finding |
| `Safety.ScanDryPairs` | scripts/scan_and_claim.mjs:156-166 | on dry pairs the scan never aborts, makes no chain call and produces findings given by a chain-independent function |
| `RunStatus.ParseStatus` | scripts/scan_and_claim.mjs:43 | the status read from a text is well formed, and its text is the stored one, with the empty text read as `unknown` |
| `RunStatus.ParseStatusText` | scripts/scan_and_claim.mjs:43 | parsing a status's text gives the status back |
| `RunStatus.ReadStatus` | scripts/scan_and_claim.mjs:40-47 | a missing or unreadable file, a missing `lastStatus` or an empty one reads as `unknown`; any other text reads as the status of that text |
| `RunStatus.ReadWriteStatus` | scripts/scan_and_claim.mjs:49-51 | the next run reads back the status this run wrote |
| `RunStatus.NextStatus` | scripts/scan_and_claim.mjs:200 | the new status is `claimable` or `no_claim`, and `claimable` iff there was an action |
| `RunStatus.Gate` | scripts/scan_and_claim.mjs:203-226 | findings are posted on every run with actions; a heartbeat iff no actions and the previous status was `claimable`; nothing iff no actions and any other previous status |
| `RunStatus.HeartbeatMarksTransition` | scripts/scan_and_claim.mjs:214-225 | a heartbeat is posted exactly on a change from `claimable` to `no_claim`; silence exactly on `no_claim` after anything else |
| `RunStatus.NoticesAcrossRuns` | scripts/scan_and_claim.mjs:200-226 | across consecutive runs, every run with findings posts them (no deduplication); a run without findings posts a heartbeat iff the run before it had findings |
| `Agent.StatusStore.Read` | scripts/scan_and_claim.mjs:93 | the previous status is the record read through `readStatus` |
| `Agent.StatusStore.Write` | scripts/scan_and_claim.mjs:49-51 | the record becomes `{ lastStatus }` of the status written |
| `Agent.Notifier.Post` | scripts/scan_and_claim.mjs:53-66 | a post appends its notice to the notifier's list and changes nothing else |
| `Agent.Run` | scripts/scan_and_claim.mjs:91-232 | exit status 1 iff the run failed; the status record is written only when the run finished, to the status `RunSpec` gives; the notifier receives exactly the notice `RunSpec` gives |
| `Agent.RunStatusRule` | scripts/scan_and_claim.mjs:200-201 | a finished run writes `claimable` iff it has findings and the next run reads that status back; a failed run keeps the old record and posts nothing |
| `Agent.RunNotification` | scripts/scan_and_claim.mjs:203-226 | a finished run posts its findings iff it has any; a heartbeat iff none and the previous status read was `claimable`; nothing iff none and any other previous status |
| `Agent.RunStopsAtFirstThrow` | scripts/scan_and_claim.mjs:229-232 | a missing user registry fails before any call; a finished run saw every call answered; a failed run's last call threw, and every call before it was answered |
| `Agent.RunCallsSafe` | scripts/scan_and_claim.mjs:102-195 | in every run, every write directly follows the read that permitted it (a positive `claimable`, or `isClaimed` false for the same index); every call goes to a validated contract; no merkle call goes to the zero address |
| `Agent.RunWritesMatchFindings` | scripts/scan_and_claim.mjs:119-193 | a finished run made exactly as many writes as it has findings carrying a transaction |
| `Agent.RunKeepsDueFindings` | scripts/scan_and_claim.mjs:98-200 | when the scan reaches a (target, airdrop) pair that goes through, a finished run's findings extend that pair's, and a run that found something there writes `claimable` |
| `Agent.RunFindingsInOrder` | scripts/scan_and_claim.mjs:98-198 | a finished run's findings are a subsequence of the target-major pairs, each naming its target and airdrop, and there are at most (targets × airdrops) of them |
| `Agent.RunIgnoresInvalidDrops` | scripts/scan_and_claim.mjs:102-105 | a run gives the same result with the airdrops whose contract is missing or invalid removed from the registry |
| `Agent.DryRunsRepeat` | scripts/scan_and_claim.mjs:155-166 | runs over dry airdrops only make no chain call and give the same findings and status whatever the chain and the previous status; when there are findings, every such run posts them |
| `Scenarios.OnePair` | scripts/scan_and_claim.mjs:98-101 | with one target and one airdrop the scan is that single pair |
| `Scenarios.NothingClaimable` | scripts/scan_and_claim.mjs:116-133 | a zero claimable amount after an `unknown` run: one read, no finding, status `no_claim`, no notice |
| `Scenarios.SimpleClaim` | scripts/scan_and_claim.mjs:116-130 | 100 claimable: a read, one `claimReward`, one finding of 100 with the transaction hash, status `claimable`, findings posted |
| `Scenarios.DryMerkle` | scripts/scan_and_claim.mjs:156-166 | a zero-address merkle airdrop with an entry of 50: no call, one dry finding of 50, findings posted |
| `Scenarios.AlreadyClaimed` | scripts/scan_and_claim.mjs:176-179 | a claimed index: one read, no finding; a heartbeat after `claimable`, silence after `no_claim` |
| `Scenarios.SimpleClaimOnAnyChain` | scripts/scan_and_claim.mjs:116-130 | on any chain, one target and one valid simple airdrop with a positive amount and a returning `claimReward()`: the run claims, reports that amount and hash, writes `claimable` and posts the finding |
| `Scenarios.MerkleClaimOnAnyChain` | scripts/scan_and_claim.mjs:168-195 | on any chain, one target and one real merkle airdrop with an unclaimed entry and a returning `claim`: the run reads, claims, reports the entry's amount, writes `claimable` and posts the finding |
| `Scenarios.MerkleClaim` | scripts/scan_and_claim.mjs:169-195 | an unclaimed index: `isClaimed(7)` then `claim(7, target, 50, proof)` and one finding |
| `Scenarios.ReadThrows` | scripts/scan_and_claim.mjs:229-232 | a throwing read ends the run at that call; the later airdrop is not scanned and the status record is kept |

Notes on the code as written:

- The merkle lookup tries the target exactly as written, then the lower-cased target.
  It never lower-cases dataset keys, so it is case-insensitive only for datasets keyed in
  lower case (`Registry.LookupIgnoresCaseOfLowerCaseKeys`). A dataset keyed by
  checksummed (mixed-case) addresses misses targets written in another case
  (`Registry.LookupMissesOtherCaseOfMixedCaseKey`). The model follows the code.
- `readStatus` returns any non-empty `lastStatus` text, not only the three known names. The
  model keeps such a text as `Other(text)`. It behaves like `unknown` everywhere, because
  only `claimable` is ever compared.
- The zero-address fail-safe applies to merkle airdrops only. A simple airdrop whose
  contract is the zero address is still read and, if the read answers a positive amount,
  claimed.
- `claimReward()` carries no target argument (`Chain.Call.ClaimReward`). The model takes
  the call as written.

## Left out

- The `.env` loading and the start-up `process.exit` when the RPC URL or the private key
  is missing (lines 8-18): this is environment, not decision logic.
- viem client construction and ABI parsing (lines 20-31, 68-76). The internals of
  `isAddress` and `writeContract` are left out too, because that code is not part of this
  model: `isAddress` is an arbitrary predicate of the client, and the chain is a set of
  oracle functions.
- File reading and JSON parsing of the user registry, the airdrop registry, the status file
  and the proof datasets (lines 33-51, 78-85). These arrive already parsed. A missing
  `airdrops` list is passed as the empty list. A missing `users.users` object is `None`,
  and it fails the run, as `Object.keys` throws. A non-string `lastStatus` is not modelled.
- The status file is taken to be written without error. A failing `writeStatus` would also
  abort the run, after the scan.
- A proof dataset is read again for every target. The model reads it once per airdrop,
  which assumes the file does not change during a run.
- `BigInt` parsing of `index` and `amount`, which throws on malformed text. Indices and
  amounts are naturals here.
- Plain-object lookups that hit inherited properties (a target named like `constructor`).
  Datasets are maps.
- `Object.keys` ordering is taken as given: the targets arrive as a sequence in key order.
- JavaScript's full Unicode `toLowerCase`: `Addresses.ToLower` maps only the ASCII letters
  A-Z, which are the only letters an address has.
- The text of the messages: timestamp, agent address, network label, emoji and the block
  layout. A notice carries the count and the finding records. The amount's decimal
  rendering is not modelled.
- `postToFarcaster` internals (lines 53-66): the skip when the Neynar keys are missing, the
  child process, and the swallowed failure. The notifier records what it is handed, and a
  post never affects the status or the run.
- `scripts/farcaster_cast.mjs` and `scripts/farcaster_cast_stdin.mjs`: HTTP posting with no
  decision logic.
- Console logging of skips and claims.
