/**
 * The iteration order of the scan. `Pairs` lists the (target, airdrop) pairs target-major,
 * and `ScanPairs` runs the pairs one after the other as a single flat loop. The nested
 * loops of the engine are this flat loop over `Pairs`, and the findings are a subsequence
 * of that list, each naming its own pair.
 */
module Order {
  import opened Addresses
  import opened Registry
  import opened Report
  import opened Chain
  import opened Engine

  datatype Pair = Pair(target: Address, drop: Drop)

  /** One target against every airdrop, in registry order. */
  function Row(target: Address, drops: seq<Drop>): (r: seq<Pair>)
    ensures |r| == |drops|
    ensures forall k :: 0 <= k < |drops| ==> r[k] == Pair(target, drops[k])
  {
    seq(|drops|, k requires 0 <= k < |drops| => Pair(target, drops[k]))
  }

  /** Every pair, targets outer and airdrops inner. */
  function Pairs(targets: seq<Address>, drops: seq<Drop>): seq<Pair>
  {
    if targets == [] then [] else Row(targets[0], drops) + Pairs(targets[1..], drops)
  }

  /** `Pairs` has one pair per target and airdrop, and the pair of target i and airdrop j
      sits at position i * |drops| + j. */
  lemma {:induction false} PairsTargetMajor(targets: seq<Address>, drops: seq<Drop>, i: nat, j: nat)
    requires i < |targets| && j < |drops|
    ensures |Pairs(targets, drops)| == |targets| * |drops|
    ensures i * |drops| + j < |Pairs(targets, drops)|
    ensures Pairs(targets, drops)[i * |drops| + j] == Pair(targets[i], drops[j])
  {
    PairsLength(targets, drops);
    if i == 0 {
      assert Pairs(targets, drops)[j] == Row(targets[0], drops)[j];
    } else {
      PairsTargetMajor(targets[1..], drops, i - 1, j);
      assert i * |drops| + j == |drops| + ((i - 1) * |drops| + j);
    }
  }

  lemma {:induction false} PairsLength(targets: seq<Address>, drops: seq<Drop>)
    ensures |Pairs(targets, drops)| == |targets| * |drops|
  {
    if targets != [] {
      PairsLength(targets[1..], drops);
    }
  }

  /** The pairs run one after another; a call that throws ends the run. */
  function ScanPairs(c: Client, st: State, pairs: seq<Pair>): Outcome
    decreases |pairs|
  {
    if pairs == [] then Done(st)
    else
      match PairStep(c, st, pairs[0].target, pairs[0].drop)
      case Aborted(calls) => Aborted(calls)
      case Done(st') => ScanPairs(c, st', pairs[1..])
  }

  /** Continue an outcome with more pairs, unless it is already aborted. */
  function Then(c: Client, r: Outcome, pairs: seq<Pair>): Outcome
  {
    match r
    case Aborted(_) => r
    case Done(st) => ScanPairs(c, st, pairs)
  }

  lemma {:induction false} ScanPairsAppend(c: Client, st: State, p1: seq<Pair>, p2: seq<Pair>)
    ensures ScanPairs(c, st, p1 + p2) == Then(c, ScanPairs(c, st, p1), p2)
    decreases |p1|
  {
    if p1 != [] {
      assert (p1 + p2)[0] == p1[0] && (p1 + p2)[1..] == p1[1..] + p2;
      match PairStep(c, st, p1[0].target, p1[0].drop)
      case Aborted(_) =>
      case Done(st') => ScanPairsAppend(c, st', p1[1..], p2);
    } else {
      assert p1 + p2 == p2;
    }
  }

  /**
   * Once the scan reaches pair `p` in state `mid` and that pair goes through to `next`, the rest
   * of the scan starts from `next`: what the pair claimed and found is kept, at its place, in
   * every scan that goes through.
   */
  lemma ScanPairsKeepsStep(c: Client, st: State, pre: seq<Pair>, p: Pair, post: seq<Pair>, mid: State, next: State)
    requires ScanPairs(c, st, pre) == Done(mid)
    requires PairStep(c, mid, p.target, p.drop) == Done(next)
    ensures ScanPairs(c, st, pre + [p] + post) == ScanPairs(c, next, post)
    ensures var r := ScanPairs(c, st, pre + [p] + post);
            r.Done? ==> next.lines <= r.state.lines
  {
    ScanPairsAppend(c, st, pre, [p] + post);
    assert pre + [p] + post == pre + ([p] + post);
    assert ([p] + post)[0] == p && ([p] + post)[1..] == post;
    ScanPairsFindingsInOrder(c, next, post);
  }

  /** The inner loop from airdrop j is the flat loop over the rest of the row. */
  lemma {:induction false} ScanDropsIsRow(c: Client, st: State, target: Address, drops: seq<Drop>, j: nat)
    requires j <= |drops|
    ensures ScanDrops(c, st, target, drops, j) == ScanPairs(c, st, Row(target, drops[j..]))
    decreases |drops| - j
  {
    var row := Row(target, drops[j..]);
    if j < |drops| {
      assert row[0] == Pair(target, drops[j]);
      assert row[1..] == Row(target, drops[j + 1..]);
      match PairStep(c, st, target, drops[j])
      case Aborted(_) =>
      case Done(st') => ScanDropsIsRow(c, st', target, drops, j + 1);
    } else {
      assert row == [];
    }
  }

  /** The outer loop from target i is the flat loop over the pairs of the remaining targets. */
  lemma {:induction false} ScanTargetsIsFlat(c: Client, st: State, targets: seq<Address>, drops: seq<Drop>, i: nat)
    requires i <= |targets|
    ensures ScanTargets(c, st, targets, drops, i) == ScanPairs(c, st, Pairs(targets[i..], drops))
    decreases |targets| - i
  {
    if i < |targets| {
      var rest := targets[i..];
      assert rest[0] == targets[i] && rest[1..] == targets[i + 1..];
      assert Pairs(rest, drops) == Row(targets[i], drops) + Pairs(targets[i + 1..], drops);
      ScanPairsAppend(c, st, Row(targets[i], drops), Pairs(targets[i + 1..], drops));
      assert drops[0..] == drops;
      ScanDropsIsRow(c, st, targets[i], drops, 0);
      match ScanDrops(c, st, targets[i], drops, 0)
      case Aborted(_) =>
      case Done(st') => ScanTargetsIsFlat(c, st', targets, drops, i + 1);
    } else {
      assert targets[i..] == [];
    }
  }

  /** The scan of the nested loops is the flat scan of the target-major pair list. */
  lemma ScanAllIsFlat(c: Client, targets: seq<Address>, drops: seq<Drop>)
    ensures ScanAll(c, targets, drops) == ScanPairs(c, State([], []), Pairs(targets, drops))
  {
    assert targets[0..] == targets;
    ScanTargetsIsFlat(c, State([], []), targets, drops, 0);
  }

  /** `lines` is a subsequence of `pairs` in which each finding names its pair. */
  predicate Embeds(lines: seq<Finding>, pairs: seq<Pair>)
    decreases |pairs|
  {
    if lines == [] then true
    else if pairs == [] then false
    else (Names(lines[0], pairs[0].target, pairs[0].drop) && Embeds(lines[1..], pairs[1..]))
         || Embeds(lines, pairs[1..])
  }

  lemma {:induction false} EmbedsLength(lines: seq<Finding>, pairs: seq<Pair>)
    requires Embeds(lines, pairs)
    ensures |lines| <= |pairs|
    decreases |pairs|
  {
    if lines != [] {
      if Names(lines[0], pairs[0].target, pairs[0].drop) && Embeds(lines[1..], pairs[1..]) {
        EmbedsLength(lines[1..], pairs[1..]);
      } else {
        EmbedsLength(lines, pairs[1..]);
      }
    }
  }

  /**
   * A scan that goes through only appends findings, and the findings it appends appear in
   * the order of their pairs, each naming the target and airdrop it was produced for.
   */
  lemma {:induction false} ScanPairsFindingsInOrder(c: Client, st: State, pairs: seq<Pair>)
    ensures var r := ScanPairs(c, st, pairs);
            r.Done? ==> st.lines <= r.state.lines && Embeds(r.state.lines[|st.lines|..], pairs)
    decreases |pairs|
  {
    if pairs != [] {
      var p := pairs[0];
      match PairStep(c, st, p.target, p.drop)
      case Aborted(_) =>
      case Done(st') =>
        ScanPairsFindingsInOrder(c, st', pairs[1..]);
        var r := ScanPairs(c, st', pairs[1..]);
        if r.Done? {
          var tail := r.state.lines[|st'.lines|..];
          var added := r.state.lines[|st.lines|..];
          if |st'.lines| == |st.lines| {
            assert st'.lines == st.lines;
            assert added == tail;
          } else {
            assert added[0] == st'.lines[|st.lines|];
            assert added[1..] == tail;
          }
        }
    } else {
      assert ScanPairs(c, st, pairs).state.lines[|st.lines|..] == [];
    }
  }

  /**
   * The registry entries whose contract is present and a valid address, in order: the body
   * is the filter itself. Every entry kept is valid; `ValidDropsKeepsValid` gives the
   * converse.
   */
  function ValidDrops(c: Client, drops: seq<Drop>): (r: seq<Drop>)
    ensures forall k :: 0 <= k < |r| ==> HasValidContract(c, r[k])
    ensures |r| <= |drops|
  {
    if drops == [] then []
    else (if HasValidContract(c, drops[0]) then [drops[0]] else []) + ValidDrops(c, drops[1..])
  }

  /** Every valid entry is kept, and a registry that is valid throughout is kept whole. */
  lemma {:induction false} ValidDropsKeepsValid(c: Client, drops: seq<Drop>)
    ensures forall k :: 0 <= k < |drops| && HasValidContract(c, drops[k]) ==> drops[k] in ValidDrops(c, drops)
    ensures (forall k :: 0 <= k < |drops| ==> HasValidContract(c, drops[k])) ==> ValidDrops(c, drops) == drops
    decreases |drops|
  {
    if drops != [] {
      var rest := drops[1..];
      ValidDropsKeepsValid(c, rest);
      assert forall k :: 1 <= k < |drops| ==> drops[k] == rest[k - 1];
      if forall k :: 0 <= k < |drops| ==> HasValidContract(c, drops[k]) {
        assert forall k :: 0 <= k < |rest| ==> HasValidContract(c, rest[k]) by {
          forall k | 0 <= k < |rest| ensures HasValidContract(c, rest[k]) {
            assert rest[k] == drops[k + 1];
          }
        }
        assert [drops[0]] + rest == drops;
      }
    }
  }

  /** The pairs whose airdrop has a valid contract, in order. */
  function Active(c: Client, pairs: seq<Pair>): seq<Pair>
  {
    if pairs == [] then []
    else (if HasValidContract(c, pairs[0].drop) then [pairs[0]] else []) + Active(c, pairs[1..])
  }

  /** Pairs whose airdrop has an invalid contract can be left out of a scan. */
  lemma {:induction false} ScanPairsIgnoresInvalid(c: Client, st: State, pairs: seq<Pair>)
    ensures ScanPairs(c, st, pairs) == ScanPairs(c, st, Active(c, pairs))
    decreases |pairs|
  {
    if pairs != [] {
      var p := pairs[0];
      if HasValidContract(c, p.drop) {
        var active := Active(c, pairs);
        assert active[0] == p && active[1..] == Active(c, pairs[1..]);
        match PairStep(c, st, p.target, p.drop)
        case Aborted(_) =>
        case Done(st') => ScanPairsIgnoresInvalid(c, st', pairs[1..]);
      } else {
        assert PairStep(c, st, p.target, p.drop) == Done(st);
        assert Active(c, pairs) == Active(c, pairs[1..]);
        ScanPairsIgnoresInvalid(c, st, pairs[1..]);
      }
    }
  }

  lemma {:induction false} ActiveAppend(c: Client, p1: seq<Pair>, p2: seq<Pair>)
    ensures Active(c, p1 + p2) == Active(c, p1) + Active(c, p2)
    decreases |p1|
  {
    if p1 == [] {
      assert p1 + p2 == p2;
    } else {
      assert (p1 + p2)[0] == p1[0] && (p1 + p2)[1..] == p1[1..] + p2;
      ActiveAppend(c, p1[1..], p2);
    }
  }

  lemma {:induction false} ActiveRow(c: Client, target: Address, drops: seq<Drop>)
    ensures Active(c, Row(target, drops)) == Row(target, ValidDrops(c, drops))
    decreases |drops|
  {
    if drops != [] {
      var row := Row(target, drops);
      assert row[0] == Pair(target, drops[0]) && row[1..] == Row(target, drops[1..]);
      ActiveRow(c, target, drops[1..]);
      var head := if HasValidContract(c, drops[0]) then [drops[0]] else [];
      assert Row(target, head + ValidDrops(c, drops[1..])) == Row(target, head) + Row(target, ValidDrops(c, drops[1..]));
    }
  }

  lemma {:induction false} ActivePairs(c: Client, targets: seq<Address>, drops: seq<Drop>)
    ensures Active(c, Pairs(targets, drops)) == Pairs(targets, ValidDrops(c, drops))
  {
    if targets != [] {
      ActiveAppend(c, Row(targets[0], drops), Pairs(targets[1..], drops));
      ActiveRow(c, targets[0], drops);
      ActivePairs(c, targets[1..], drops);
    }
  }
}
