/**
 * One run of the agent: read the previous status, scan, then (only when no chain call threw)
 * write the new status and hand the findings or a heartbeat to the notifier. A thrown call
 * unwinds to the top level, which exits with status 1 and writes nothing.
 */
module Agent {
  import opened Wrappers
  import opened Addresses
  import opened Registry
  import opened Chain
  import opened Report
  import opened Engine
  import opened Order
  import opened Safety
  import opened RunStatus

  /** What a run amounts to: it failed after `calls`, or it finished with its findings, the
      status it wrote and the notice it posted, if any. */
  datatype RunResult =
    | Failed(calls: seq<Call>)
    | Finished(calls: seq<Call>, lines: seq<Finding>, status: Status, notice: Option<Notice>)

  /**
   * One run. `users` is the key list of `users.users`, None when that object is missing (so
   * that `Object.keys` throws); `stored` is the status record found at the start.
   */
  function RunSpec(c: Client, users: Option<seq<Address>>, drops: seq<Drop>, stored: StoredStatus): RunResult
  {
    var prev := ReadStatus(stored);
    if users.None? then Failed([])
    else
      match ScanAll(c, users.value, drops)
      case Aborted(calls) => Failed(calls)
      case Done(st) =>
        var actions := |st.lines|;
        Finished(st.calls, st.lines, NextStatus(actions), Gate(actions, st.lines, prev))
  }

  /** The status record after the run. */
  function StoredAfter(stored: StoredStatus, r: RunResult): StoredStatus
  {
    if r.Failed? then stored else WriteStatus(r.status)
  }

  /** The notices the run hands to the notifier. */
  function PostedBy(r: RunResult): seq<Notice>
  {
    if r.Finished? && r.notice.Some? then [r.notice.value] else []
  }

  /** The durable status record: read once at the start, written once at the end. */
  class StatusStore {
    var record: StoredStatus

    constructor (initial: StoredStatus)
      ensures record == initial
    {
      record := initial;
    }

    method Read() returns (s: Status)
      ensures s == ReadStatus(record)
    {
      s := ReadStatus(record);
    }

    method Write(s: Status)
      modifies this
      ensures record == WriteStatus(s)
    {
      record := WriteStatus(s);
    }
  }

  /** The notification channel, as the list of notices handed to it. A failed post is
      swallowed where it happens, so it changes nothing here. */
  class Notifier {
    var posted: seq<Notice>

    constructor ()
      ensures posted == []
    {
      posted := [];
    }

    method Post(n: Notice)
      modifies this
      ensures posted == old(posted) + [n]
    {
      posted := posted + [n];
    }
  }

  /** `run()` with its top-level `catch`: the process exit status is 1 when the run failed. */
  method Run(c: Client, users: Option<seq<Address>>, drops: seq<Drop>, store: StatusStore, notifier: Notifier)
    returns (exitCode: nat)
    modifies store, notifier
    ensures var r := RunSpec(c, users, drops, old(store.record));
            && exitCode == (if r.Failed? then 1 else 0)
            && store.record == StoredAfter(old(store.record), r)
            && notifier.posted == old(notifier.posted) + PostedBy(r)
  {
    var prevStatus := store.Read();
    if users.None? {
      return 1;
    }
    var result, actions := Scan(c, users.value, drops);
    if result.Aborted? {
      return 1;
    }
    var currentStatus := NextStatus(actions);
    store.Write(currentStatus);
    if actions > 0 {
      notifier.Post(Findings(actions, result.state.lines));
    } else if prevStatus == Claimable {
      notifier.Post(Heartbeat);
    }
    return 0;
  }

  /**
   * A finished run writes `claimable` when it has findings and `no_claim` otherwise, and the
   * next run reads that status back; a failed run leaves the record as it was and posts nothing.
   */
  lemma RunStatusRule(c: Client, users: Option<seq<Address>>, drops: seq<Drop>, stored: StoredStatus)
    ensures var r := RunSpec(c, users, drops, stored);
            && (r.Finished? ==> r.status == (if |r.lines| > 0 then Claimable else NoClaim)
                                && ReadStatus(StoredAfter(stored, r)) == r.status)
            && (r.Failed? ==> StoredAfter(stored, r) == stored && PostedBy(r) == [])
  {
    var r := RunSpec(c, users, drops, stored);
    if r.Finished? {
      ReadWriteStatus(r.status);
    }
  }

  /** A finished run posts its findings whenever it has any, a heartbeat when it has none and
      the previous status was `claimable`, and nothing otherwise. */
  lemma RunNotification(c: Client, users: Option<seq<Address>>, drops: seq<Drop>, stored: StoredStatus)
    ensures var r := RunSpec(c, users, drops, stored);
            r.Finished? ==>
              && (PostedBy(r) == [Findings(|r.lines|, r.lines)] <==> r.lines != [])
              && (PostedBy(r) == [Heartbeat] <==> r.lines == [] && ReadStatus(stored) == Claimable)
              && (PostedBy(r) == [] <==> r.lines == [] && ReadStatus(stored) != Claimable)
  {
  }

  /**
   * A run fails exactly when a chain call throws (or the user registry is missing): a finished
   * run saw every call answered, and a failed run made no call after the one that threw.
   */
  lemma RunStopsAtFirstThrow(c: Client, users: Option<seq<Address>>, drops: seq<Drop>, stored: StoredStatus)
    ensures var r := RunSpec(c, users, drops, stored);
            && (users.None? ==> r == Failed([]))
            && (r.Finished? ==> c.AllAnswered(r.calls))
            && (users.Some? && r.Failed? ==>
                  |r.calls| > 0 && c.AllAnswered(r.calls[..|r.calls| - 1]) &&
                  c.Throws(r.calls[..|r.calls| - 1], r.calls[|r.calls| - 1]))
  {
    if users.Some? {
      ScanAllSafe(c, users.value, drops);
    }
  }

  /**
   * Every write of a run, finished or not, directly follows the read that permitted it (a
   * positive `claimable`, or `isClaimed` false for the same index); every call goes to a
   * contract that passed validation; and no merkle call goes to the zero address.
   */
  lemma RunCallsSafe(c: Client, users: Option<seq<Address>>, drops: seq<Drop>, stored: StoredStatus)
    ensures var r := RunSpec(c, users, drops, stored);
            c.WritesChecked(r.calls) && c.OnValidContracts(r.calls) && NoMerkleCallAtZero(r.calls)
  {
    if users.Some? {
      ScanAllSafe(c, users.value, drops);
    }
  }

  /** A finished run made one write per finding that carries a transaction: a write for every
      simple and real merkle finding, none for a dry one. */
  lemma RunWritesMatchFindings(c: Client, users: Option<seq<Address>>, drops: seq<Drop>, stored: StoredStatus)
    ensures var r := RunSpec(c, users, drops, stored);
            r.Finished? ==> CountWrites(r.calls) == CountSubmitted(r.lines)
  {
    if users.Some? {
      ScanAllSafe(c, users.value, drops);
    }
  }

  /** The findings of a finished run follow the target-major order of the pairs, each naming
      its own target and airdrop, and there are at most as many as there are pairs. */
  lemma RunFindingsInOrder(c: Client, users: Option<seq<Address>>, drops: seq<Drop>, stored: StoredStatus)
    ensures var r := RunSpec(c, users, drops, stored);
            r.Finished? ==> users.Some? && Embeds(r.lines, Pairs(users.value, drops)) &&
                            |r.lines| <= |users.value| * |drops|
  {
    if users.Some? {
      var pairs := Pairs(users.value, drops);
      ScanAllIsFlat(c, users.value, drops);
      ScanPairsFindingsInOrder(c, State([], []), pairs);
      var r := RunSpec(c, users, drops, stored);
      if r.Finished? {
        assert r.lines[0..] == r.lines;
        EmbedsLength(r.lines, pairs);
        PairsLength(users.value, drops);
      }
    }
  }

  /**
   * A run keeps every claim it reaches: when the scan reaches the k-th (target, airdrop) pair
   * in state `mid` and that pair goes through to `next`, a finished run's findings extend
   * `next`'s, and a run that claimed or found anything there writes `claimable`.
   */
  lemma RunKeepsDueFindings(c: Client, users: seq<Address>, drops: seq<Drop>, stored: StoredStatus,
                            k: nat, mid: State, next: State)
    requires k < |Pairs(users, drops)|
    requires ScanPairs(c, State([], []), Pairs(users, drops)[..k]) == Done(mid)
    requires PairStep(c, mid, Pairs(users, drops)[k].target, Pairs(users, drops)[k].drop) == Done(next)
    ensures var r := RunSpec(c, Some(users), drops, stored);
            r.Finished? ==> next.lines <= r.lines && (|next.lines| > 0 ==> r.status == Claimable)
  {
    var pairs := Pairs(users, drops);
    ScanAllIsFlat(c, users, drops);
    assert pairs == pairs[..k] + [pairs[k]] + pairs[k + 1..];
    ScanPairsKeepsStep(c, State([], []), pairs[..k], pairs[k], pairs[k + 1..], mid, next);
  }

  /** A run over the registry is the run over its entries with a valid contract address: the
      others make no call, produce no finding and change nothing. */
  lemma RunIgnoresInvalidDrops(c: Client, users: Option<seq<Address>>, drops: seq<Drop>, stored: StoredStatus)
    ensures RunSpec(c, users, drops, stored) == RunSpec(c, users, ValidDrops(c, drops), stored)
  {
    if users.Some? {
      ScanAllIsFlat(c, users.value, drops);
      ScanAllIsFlat(c, users.value, ValidDrops(c, drops));
      ScanPairsIgnoresInvalid(c, State([], []), Pairs(users.value, drops));
      ActivePairs(c, users.value, drops);
    }
  }

  /**
   * Runs over airdrops that are all on the dry path (merkle, zero-address contract) make no
   * chain call and finish with the same findings and status whatever the chain answers and
   * whatever the previous status; when there are findings, every such run posts them.
   */
  lemma DryRunsRepeat(c1: Client, c2: Client, users: seq<Address>, drops: seq<Drop>, s1: StoredStatus, s2: StoredStatus)
    requires c1.isAddress(ZeroAddress) && c2.isAddress(ZeroAddress)
    requires forall k :: 0 <= k < |drops| ==> IsDry(drops[k])
    ensures var r1, r2 := RunSpec(c1, Some(users), drops, s1), RunSpec(c2, Some(users), drops, s2);
            && r1.Finished? && r2.Finished?
            && r1.calls == [] && r2.calls == []
            && r1.lines == r2.lines && r1.status == r2.status
            && (r1.lines != [] ==> r1.notice == r2.notice == Some(Findings(|r1.lines|, r1.lines)))
  {
    var pairs := Pairs(users, drops);
    DryPairs(users, drops);
    ScanAllIsFlat(c1, users, drops);
    ScanAllIsFlat(c2, users, drops);
    ScanDryPairs(c1, State([], []), pairs);
    ScanDryPairs(c2, State([], []), pairs);
  }

  lemma {:induction false} DryPairs(users: seq<Address>, drops: seq<Drop>)
    requires forall k :: 0 <= k < |drops| ==> IsDry(drops[k])
    ensures forall k :: 0 <= k < |Pairs(users, drops)| ==> IsDry(Pairs(users, drops)[k].drop)
  {
    if users != [] {
      DryPairs(users[1..], drops);
      var row := Row(users[0], drops);
      forall k | 0 <= k < |Pairs(users, drops)|
        ensures IsDry(Pairs(users, drops)[k].drop)
      {
        if k < |row| {
          assert Pairs(users, drops)[k] == row[k];
        } else {
          assert Pairs(users, drops)[k] == Pairs(users[1..], drops)[k - |row|];
        }
      }
    }
  }
}
