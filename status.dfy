/**
 * The status tracker: the persisted `lastStatus`, how a run reads it (defaulting to
 * `unknown`), the status a run writes, and the gate that decides between a findings
 * message, a heartbeat and silence.
 */
module RunStatus {
  import opened Wrappers
  import opened Report

  /** A status value; `Other` is any other non-empty text found in the status record. */
  datatype Status = Claimable | NoClaim | Unknown | Other(text: string)

  /** The text stored in the status record. */
  function StatusText(s: Status): string
  {
    match s
    case Claimable => "claimable"
    case NoClaim => "no_claim"
    case Unknown => "unknown"
    case Other(text) => text
  }

  /** A status as `readStatus` can return it: `Other` never carries the empty text or the
      name of one of the three known statuses. */
  predicate WellFormed(s: Status)
  {
    s.Other? ==> s.text != "" && s.text != "claimable" && s.text != "no_claim" && s.text != "unknown"
  }

  /** The status a stored text stands for; the empty text is falsy and reads as `unknown`. */
  function ParseStatus(text: string): (s: Status)
    ensures WellFormed(s) && StatusText(s) == (if text == "" then "unknown" else text)
  {
    if text == "" || text == "unknown" then Unknown
    else if text == "claimable" then Claimable
    else if text == "no_claim" then NoClaim
    else Other(text)
  }

  /** Parsing the text of a status gives that status back. */
  lemma ParseStatusText(s: Status)
    requires WellFormed(s)
    ensures ParseStatus(StatusText(s)) == s
  {
  }

  /** The status file: missing or unparsable (`NoRecord`), or a parsed object whose
      `lastStatus` may be absent. */
  datatype StoredStatus = NoRecord | Record(lastStatus: Option<string>)

  /** `readStatus`: `s?.lastStatus || 'unknown'`, and `unknown` when the file cannot be read. */
  function ReadStatus(stored: StoredStatus): (s: Status)
    ensures WellFormed(s)
    ensures (stored.NoRecord? || stored.lastStatus.None? || stored.lastStatus == Some("")) ==> s == Unknown
    ensures stored.Record? && stored.lastStatus.Some? && stored.lastStatus.value != "" ==>
              StatusText(s) == stored.lastStatus.value
  {
    match stored
    case NoRecord => Unknown
    case Record(lastStatus) => ParseStatus(lastStatus.GetOr(""))
  }

  /** `writeStatus`: the record `{ lastStatus }`. */
  function WriteStatus(s: Status): StoredStatus
  {
    Record(Some(StatusText(s)))
  }

  /** The next run reads back the status this run wrote. */
  lemma {:induction false} ReadWriteStatus(s: Status)
    requires WellFormed(s)
    ensures ReadStatus(WriteStatus(s)) == s
  {
    ParseStatusText(s);
  }

  /** The status a run writes: `claimable` when it counted an action, `no_claim` otherwise. */
  function NextStatus(actions: nat): (s: Status)
    ensures s == Claimable || s == NoClaim
    ensures s == Claimable <==> actions > 0
  {
    if actions > 0 then Claimable else NoClaim
  }

  /** What is handed to the notifier. */
  datatype Notice = Findings(count: nat, lines: seq<Finding>) | Heartbeat

  /** The notification gate: findings on every run with actions, a heartbeat when nothing was
      found after a `claimable` run, and nothing otherwise. */
  function Gate(actions: nat, lines: seq<Finding>, prev: Status): (n: Option<Notice>)
    ensures actions > 0 ==> n == Some(Findings(actions, lines))
    ensures n == Some(Heartbeat) <==> actions == 0 && prev == Claimable
    ensures n.None? <==> actions == 0 && prev != Claimable
  {
    if actions > 0 then Some(Findings(actions, lines))
    else if prev == Claimable then Some(Heartbeat)
    else None
  }

  /** A heartbeat marks exactly the change from `claimable` to `no_claim`, and silence a run
      whose status stays what it was (or comes from `unknown` or another text). */
  lemma HeartbeatMarksTransition(actions: nat, lines: seq<Finding>, prev: Status)
    ensures Gate(actions, lines, prev) == Some(Heartbeat) <==> prev == Claimable && NextStatus(actions) == NoClaim
    ensures Gate(actions, lines, prev).None? <==> prev != Claimable && NextStatus(actions) == NoClaim
  {
  }

  /** The notices of consecutive runs whose findings are `runs`, each run reading the status
      the previous one wrote. */
  function Notices(stored: StoredStatus, runs: seq<seq<Finding>>): (ns: seq<Option<Notice>>)
    ensures |ns| == |runs|
    decreases |runs|
  {
    if runs == [] then []
    else
      var lines := runs[0];
      [Gate(|lines|, lines, ReadStatus(stored))] + Notices(WriteStatus(NextStatus(|lines|)), runs[1..])
  }

  /**
   * Across consecutive runs, every run with findings posts them (there is no deduplication),
   * and a run without findings posts a heartbeat exactly when the run before it had findings.
   */
  lemma {:induction false} NoticesAcrossRuns(stored: StoredStatus, runs: seq<seq<Finding>>, k: nat)
    requires 0 < k < |runs|
    ensures Notices(stored, runs)[k] == Some(Findings(|runs[k]|, runs[k])) <==> runs[k] != []
    ensures Notices(stored, runs)[k] == Some(Heartbeat) <==> runs[k] == [] && runs[k - 1] != []
    ensures Notices(stored, runs)[k].None? <==> runs[k] == [] && runs[k - 1] == []
    decreases k
  {
    var next := WriteStatus(NextStatus(|runs[0]|));
    assert Notices(stored, runs)[k] == Notices(next, runs[1..])[k - 1];
    if k == 1 {
      ReadWriteStatus(NextStatus(|runs[0]|));
    } else {
      NoticesAcrossRuns(next, runs[1..], k - 1);
    }
  }
}
