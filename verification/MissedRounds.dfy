/** Missed-round judgement, as in missed.go: which silences count, and what each round costs a node. */
module MissedRounds {
  import opened Options
  import opened NodeIntervals

  const CONSECUTIVE_MISS_LIMIT := 3
  const PENALTY_MISSED_ROUND_BPS := 50
  const PENALTY_CONSECUTIVE_MISSES_BPS := 1000
  const MANUAL := "MANUAL"
  const BELOW_STAKE_FLOOR := "BELOW_STAKE_FLOOR"

  datatype Outcome = Submitted | Missed | Excused
  datatype Verdict = Verdict(node: Node, outcome: Outcome, why: string)

  datatype JudgedRound = JudgedRound(version: Version, deadline: int, settledAt: Option<int>, submitters: set<Node>)

  // ----- Verdicts ------------------------------------------------------------------------------

  predicate RemovedWithinWindow(iv: NodeInterval, deadline: int) {
    && iv.closing.Some?
    && (iv.closing.value.reason == MANUAL || iv.closing.value.reason == BELOW_STAKE_FLOOR)
    && iv.closing.value.at < deadline
  }

  function VerdictOn(round: JudgedRound, iv: NodeInterval): Verdict {
    if iv.node in round.submitters then Verdict(iv.node, Submitted, "")
    else if round.submitters == {} then Verdict(iv.node, Excused, "no node submitted")
    else if ClosedEarly(round) then
      Verdict(iv.node, Excused, "the round settled before its deadline")
    else if RemovedWithinWindow(iv, round.deadline) then
      Verdict(iv.node, Excused, "removed before the deadline: " + iv.closing.value.reason)
    else Verdict(iv.node, Missed, "")
  }

  predicate Mentions(vs: seq<Verdict>, node: Node) {
    exists v | v in vs :: v.node == node
  }

  /** The verdicts in row order: each node by its first row that contains the round's version. */
  function Scan(round: JudgedRound, intervals: seq<NodeInterval>): seq<Verdict> {
    if intervals == [] then []
    else
      var before, iv := Scan(round, intervals[..|intervals| - 1]), intervals[|intervals| - 1];
      if Mentions(before, iv.node) || !iv.Contains(round.version) then before else before + [VerdictOn(round, iv)]
  }

  function Insert(v: Verdict, vs: seq<Verdict>): (r: seq<Verdict>)
    ensures forall x :: x in r <==> x == v || x in vs
  {
    if vs == [] || v.node < vs[0].node then [v] + vs else [vs[0]] + Insert(v, vs[1..])
  }

  function ByNode(vs: seq<Verdict>): (r: seq<Verdict>)
    ensures forall x :: x in r <==> x in vs
  {
    if vs == [] then [] else Insert(vs[|vs| - 1], ByNode(vs[..|vs| - 1]))
  }

  function Judgement(round: JudgedRound, intervals: seq<NodeInterval>): seq<Verdict> {
    ByNode(Scan(round, intervals))
  }

  method JudgeRound(round: JudgedRound, intervals: seq<NodeInterval>) returns (verdicts: seq<Verdict>)
    ensures verdicts == Judgement(round, intervals)
  {
    var outage := round.submitters == {};
    var closedEarly := round.settledAt.Some? && round.settledAt.value < round.deadline;
    var seen: set<Node> := {};
    verdicts := [];
    for i := 0 to |intervals|
      invariant verdicts == Scan(round, intervals[..i])
      invariant seen == set v | v in verdicts :: v.node
    {
      assert intervals[..i + 1][..i] == intervals[..i];
      var iv := intervals[i];
      if iv.node in seen || !iv.Contains(round.version) {
        continue;
      }
      seen := seen + {iv.node};
      if iv.node in round.submitters {
        verdicts := verdicts + [Verdict(iv.node, Submitted, "")];
      } else if outage {
        verdicts := verdicts + [Verdict(iv.node, Excused, "no node submitted")];
      } else if closedEarly {
        verdicts := verdicts + [Verdict(iv.node, Excused, "the round settled before its deadline")];
      } else if RemovedWithinWindow(iv, round.deadline) {
        verdicts := verdicts + [Verdict(iv.node, Excused, "removed before the deadline: " + iv.closing.value.reason)];
      } else {
        verdicts := verdicts + [Verdict(iv.node, Missed, "")];
      }
    }
    assert intervals[..|intervals|] == intervals;
    verdicts := ByNode(verdicts);
  }

  // ----- The verdicts do not depend on the order of the rows -----------------------------------

  predicate Ascending(vs: seq<Verdict>) {
    forall i, j | 0 <= i < j < |vs| :: vs[i].node < vs[j].node
  }

  /** No node has two different rows that contain the version: what the interval table guarantees. */
  ghost predicate OneRowEach(intervals: seq<NodeInterval>, version: Version) {
    forall a, b | a in intervals && b in intervals && a.Contains(version) && b.Contains(version) && a.node == b.node ::
        a == b
  }

  lemma {:induction false} InsertAscends(v: Verdict, vs: seq<Verdict>)
    requires Ascending(vs) && !Mentions(vs, v.node)
    ensures Ascending(Insert(v, vs))
  {
    if vs != [] {
      assert vs[0] in vs;
      if v.node > vs[0].node {
        var rest := Insert(v, vs[1..]);
        assert !Mentions(vs[1..], v.node) by {
          assert forall x | x in vs[1..] :: x in vs;
        }
        InsertAscends(v, vs[1..]);
        forall j | 0 <= j < |rest| ensures vs[0].node < rest[j].node {
          assert rest[j] in rest;
        }
      }
    }
  }

  lemma {:induction false} ByNodeAscends(vs: seq<Verdict>)
    requires Distinct(vs)
    ensures Ascending(ByNode(vs))
  {
    if vs != [] {
      ByNodeAscends(vs[..|vs| - 1]);
      InsertAscends(vs[|vs| - 1], ByNode(vs[..|vs| - 1]));
    }
  }

  ghost predicate Distinct(vs: seq<Verdict>) {
    forall i, j | 0 <= i < j < |vs| :: vs[i].node != vs[j].node
  }

  /** `v` is the verdict of a row that contains the round's version. */
  ghost predicate Due(v: Verdict, round: JudgedRound, intervals: seq<NodeInterval>) {
    exists iv :: iv in intervals && iv.Contains(round.version) && v == VerdictOn(round, iv)
  }

  lemma {:induction false} ScanIsDistinct(round: JudgedRound, intervals: seq<NodeInterval>)
    ensures Distinct(Scan(round, intervals))
  {
    if intervals != [] {
      var n := |intervals| - 1;
      var before := Scan(round, intervals[..n]);
      ScanIsDistinct(round, intervals[..n]);
      assert forall i | 0 <= i < |before| :: before[i] in before;
    }
  }

  lemma {:induction false} ScanIsExact(round: JudgedRound, intervals: seq<NodeInterval>)
    requires OneRowEach(intervals, round.version)
    ensures forall v :: v in Scan(round, intervals) <==> Due(v, round, intervals)
  {
    if intervals != [] {
      var n := |intervals| - 1;
      var before, iv := Scan(round, intervals[..n]), intervals[n];
      assert intervals == intervals[..n] + [iv];
      ScanIsExact(round, intervals[..n]);
      forall v ensures v in Scan(round, intervals) <==> Due(v, round, intervals) {
        assert Due(v, round, intervals)
          <==> Due(v, round, intervals[..n]) || (iv.Contains(round.version) && v == VerdictOn(round, iv));
        if Mentions(before, iv.node) && iv.Contains(round.version) {
          var seen :| seen in before && seen.node == iv.node;
          assert Due(seen, round, intervals[..n]);
          assert seen == VerdictOn(round, iv);
        }
      }
    }
  }

  lemma InTheTail(a: seq<Verdict>, v: Verdict)
    requires Ascending(a) && a != []
    ensures v in a[1..] <==> v in a && v != a[0]
  {
    if v in a[1..] {
      var i :| 1 <= i < |a| && a[i] == v;
    }
  }

  lemma {:induction false} AscendingIsUnique(a: seq<Verdict>, b: seq<Verdict>)
    requires Ascending(a) && Ascending(b) && forall v :: v in a <==> v in b
    ensures a == b
  {
    assert a != [] ==> a[0] in b;
    assert b != [] ==> b[0] in a;
    if a != [] {
      assert a[0] == b[0] by {
        assert a[0] in b && b[0] in a;
        var i :| 0 <= i < |b| && b[i] == a[0];
        var j :| 0 <= j < |a| && a[j] == b[0];
      }
      forall v ensures v in a[1..] <==> v in b[1..] {
        assert v in a <==> v in b;
        InTheTail(a, v);
        InTheTail(b, v);
      }
      AscendingIsUnique(a[1..], b[1..]);
      assert a == [a[0]] + a[1..] && b == [b[0]] + b[1..];
    }
  }

  /** Ascending, one verdict per node with a row at the version, each the verdict of that row. */
  lemma JudgementIsExact(round: JudgedRound, intervals: seq<NodeInterval>)
    requires OneRowEach(intervals, round.version)
    ensures Ascending(Judgement(round, intervals))
    ensures forall v :: v in Judgement(round, intervals) <==> Due(v, round, intervals)
  {
    ScanIsDistinct(round, intervals);
    ScanIsExact(round, intervals);
    ByNodeAscends(Scan(round, intervals));
  }

  lemma RowOrderDoesNotMatter(round: JudgedRound, a: seq<NodeInterval>, b: seq<NodeInterval>)
    requires OneRowEach(a, round.version) && forall iv :: iv in a <==> iv in b
    ensures Judgement(round, a) == Judgement(round, b)
  {
    assert OneRowEach(b, round.version) by {
      forall x, y | x in b && y in b && x.Contains(round.version) && y.Contains(round.version) && x.node == y.node
          ensures x == y {
        assert x in a && y in a;
      }
    }
    JudgementIsExact(round, a);
    JudgementIsExact(round, b);
    assert forall v :: Due(v, round, a) <==> Due(v, round, b);
    AscendingIsUnique(Judgement(round, a), Judgement(round, b));
  }

  lemma SelectionHasOneRowEach(events: seq<SetEvent>, version: Version, rows: seq<NodeInterval>)
    requires Lawful(events) && IsSelection(rows, AppliedAll(events), version)
    ensures OneRowEach(rows, version)
  {
    SelectionIsTheActiveSet(events, version, rows);
    forall x, y | x in rows && y in rows && x.node == y.node ensures x == y {
      var i :| 0 <= i < |rows| && rows[i] == x;
      var j :| 0 <= j < |rows| && rows[j] == y;
      assert i == j;
    }
  }

  lemma MentionedIsSelected(round: JudgedRound, rows: seq<NodeInterval>, node: Node)
    requires OneRowEach(rows, round.version) && Mentions(Judgement(round, rows), node)
    ensures exists iv :: iv in rows && iv.node == node
  {
    hide Judgement;
    JudgementIsExact(round, rows);
    var v :| v in Judgement(round, rows) && v.node == node;
    assert Due(v, round, rows);
  }

  lemma SelectedIsMentioned(round: JudgedRound, rows: seq<NodeInterval>, iv: NodeInterval)
    requires OneRowEach(rows, round.version) && iv in rows && iv.Contains(round.version)
    ensures Mentions(Judgement(round, rows), iv.node)
  {
    JudgementIsExact(round, rows);
    var v := VerdictOn(round, iv);
    assert Due(v, round, rows);
    assert v in Judgement(round, rows) && v.node == iv.node;
  }

  /** Over any delivery of a lawful history, replays included: the nodes judged are exactly those active at the
      round's version, and every way of reading the rows gives the same verdicts. */
  lemma JudgedNodesAreTheActiveSet(deliveries: seq<SetEvent>, round: JudgedRound, a: seq<NodeInterval>,
                                   b: seq<NodeInterval>)
    requires Lawful(Firsts(deliveries))
    requires IsSelection(a, AppliedAll(deliveries), round.version)
    requires IsSelection(b, AppliedAll(deliveries), round.version)
    ensures Judgement(round, a) == Judgement(round, b)
    ensures forall node :: Mentions(Judgement(round, a), node) <==> ActiveAt(Firsts(deliveries), node, round.version)
  {
    ReplayIsInvisible(deliveries);
    SelectionHasOneRowEach(Firsts(deliveries), round.version, a);
    RowOrderDoesNotMatter(round, a, b);
    SelectionIsTheActiveSet(Firsts(deliveries), round.version, a);
    forall node ensures Mentions(Judgement(round, a), node) <==> ActiveAt(Firsts(deliveries), node, round.version) {
      if Mentions(Judgement(round, a), node) { MentionedIsSelected(round, a, node); }
      if iv :| iv in a && iv.node == node { SelectedIsMentioned(round, a, iv); }
    }
  }

  // ----- A finished round's verdicts stay fixed ------------------------------------------------

  predicate ClosedEarly(round: JudgedRound) {
    round.settledAt.Some? && round.settledAt.value < round.deadline
  }

  /** A set change after the round opened, and if a removal, not before the deadline unless the round settled early. */
  predicate LeavesAlone(e: SetEvent, round: JudgedRound) {
    e.version > round.version && (e.Deactivated? ==> e.at >= round.deadline || ClosedEarly(round))
  }

  /** For a finished round the chain's clock is enough: what happens once it has settled or failed leaves it alone. */
  lemma LaterThanSettling(e: SetEvent, round: JudgedRound)
    requires e.version > round.version && round.settledAt.Some? && (e.Deactivated? ==> e.at >= round.settledAt.value)
    ensures LeavesAlone(e, round)
  {
  }

  /** A later set change touches at most the row it closes, and closes it without changing its verdict. */
  lemma LaterChangeKeepsVerdict(events: seq<SetEvent>, e: SetEvent, round: JudgedRound, k: NodeIntervals.Key)
    requires Lawful(events + [e]) && LeavesAlone(e, round)
    requires k in AppliedAll(events)
    ensures var rows, after := AppliedAll(events), Applied(AppliedAll(events), e);
            var was := NodeInterval(k.node, k.activated, rows[k].closing);
            k in after && var now := NodeInterval(k.node, k.activated, after[k].closing);
            now.Contains(round.version) == was.Contains(round.version) && VerdictOn(round, now) == VerdictOn(round, was)
  {
    hide Lawful, AppliedAll, Applied;
    OnlyTheOpenRowMoves(events, e, k);
  }

  lemma SameDue(events: seq<SetEvent>, e: SetEvent, round: JudgedRound, a: seq<NodeInterval>, b: seq<NodeInterval>,
                v: Verdict)
    requires Lawful(events + [e]) && LeavesAlone(e, round)
    requires IsSelection(a, AppliedAll(events), round.version)
    requires IsSelection(b, Applied(AppliedAll(events), e), round.version)
    ensures Due(v, round, a) <==> Due(v, round, b)
  {
    var rows, after := AppliedAll(events), Applied(AppliedAll(events), e);
    if Due(v, round, a) {
      var iv :| iv in a && iv.Contains(round.version) && v == VerdictOn(round, iv);
      var k := NodeIntervals.Key(iv.node, iv.activated);
      LaterChangeKeepsVerdict(events, e, round, k);
      assert NodeInterval(iv.node, iv.activated, after[k].closing) in b;
    }
    if Due(v, round, b) {
      var iv :| iv in b && iv.Contains(round.version) && v == VerdictOn(round, iv);
      var k := NodeIntervals.Key(iv.node, iv.activated);
      assert k in rows;
      LaterChangeKeepsVerdict(events, e, round, k);
      assert NodeInterval(iv.node, iv.activated, rows[k].closing) in a;
    }
  }

  /** A set change after the round opened that leaves it alone leaves its verdicts as they were. */
  lemma LaterChangesKeepVerdicts(events: seq<SetEvent>, e: SetEvent, round: JudgedRound, a: seq<NodeInterval>,
                                 b: seq<NodeInterval>)
    requires Lawful(events + [e]) && LeavesAlone(e, round)
    requires IsSelection(a, AppliedAll(events), round.version)
    requires IsSelection(b, AppliedAll(events + [e]), round.version)
    ensures Judgement(round, a) == Judgement(round, b)
  {
    assert (events + [e])[..|events|] == events;
    SelectionHasOneRowEach(events, round.version, a);
    SelectionHasOneRowEach(events + [e], round.version, b);
    JudgementIsExact(round, a);
    JudgementIsExact(round, b);
    forall v { SameDue(events, e, round, a, b, v); }
    AscendingIsUnique(Judgement(round, a), Judgement(round, b));
  }

  /** Set changes that each leave the round alone. */
  ghost predicate ComeAfter(later: seq<SetEvent>, round: JudgedRound) {
    forall e | e in later :: LeavesAlone(e, round)
  }

  lemma {:induction false} SomeSelection(rows: Rows, version: Version) returns (out: seq<NodeInterval>)
    ensures IsSelection(out, rows, version)
    decreases |rows|
  {
    if rows == map[] {
      out := [];
    } else {
      var k :| k in rows;
      var others := rows - {k};
      assert others.Keys == rows.Keys - {k};
      assert |others.Keys| == |others| && |rows.Keys| == |rows|;
      out := SomeSelection(others, version);
      var iv := NodeInterval(k.node, k.activated, rows[k].closing);
      if iv.Contains(version) {
        out := out + [iv];
      }
    }
  }

  /** Any number of later set changes leaves a round's verdicts as they were. */
  lemma {:induction false} LaterEventsKeepVerdicts(events: seq<SetEvent>, later: seq<SetEvent>, round: JudgedRound,
                                                   a: seq<NodeInterval>, b: seq<NodeInterval>)
    requires Lawful(events + later) && ComeAfter(later, round)
    requires IsSelection(a, AppliedAll(events), round.version)
    requires IsSelection(b, AppliedAll(events + later), round.version)
    ensures Judgement(round, a) == Judgement(round, b)
    decreases |later|
  {
    if later == [] {
      assert events + later == events;
      JudgedNodesAreTheSame(events, round, a, b);
    } else {
      var init, last := later[..|later| - 1], later[|later| - 1];
      var all := events + init;
      assert events + later == all + [last] && (all + [last])[..|all|] == all;
      var mid := SomeSelection(AppliedAll(all), round.version);
      LaterEventsKeepVerdicts(events, init, round, a, mid);
      LaterChangesKeepVerdicts(all, last, round, mid, b);
    }
  }

  lemma {:induction false} JudgedNodesAreTheSame(events: seq<SetEvent>, round: JudgedRound, a: seq<NodeInterval>,
                                                 b: seq<NodeInterval>)
    requires Lawful(events) && IsSelection(a, AppliedAll(events), round.version)
    requires IsSelection(b, AppliedAll(events), round.version)
    ensures Judgement(round, a) == Judgement(round, b)
  {
    SelectionHasOneRowEach(events, round.version, a);
    RowOrderDoesNotMatter(round, a, b);
  }

  // ----- The verdicts in full ------------------------------------------------------------------

  /** The row is of `node`, and the round's version lies in it. */
  predicate Holds(iv: NodeInterval, node: Node, version: Version) {
    iv.node == node && iv.activated <= version && (iv.closing.None? || version < iv.closing.value.version)
  }

  predicate ManuallyClosed(iv: NodeInterval, before: int) {
    iv.closing.Some? && iv.closing.value.at < before
    && (iv.closing.value.reason == "MANUAL" || iv.closing.value.reason == "BELOW_STAKE_FLOOR")
  }

  predicate SettledBefore(round: JudgedRound, time: int) {
    match round.settledAt
    case Some(at) => at < time
    case None => false
  }

  /** A node missed the round exactly when it was expected, was silent, others were not, the round stayed open to its
      deadline, and it was not removed before that. It submitted exactly when it was expected and did. Expected
      otherwise, it is excused, for the first of the reasons that applies. */
  lemma VerdictsInFull(round: JudgedRound, intervals: seq<NodeInterval>, iv: NodeInterval, v: Verdict)
    requires OneRowEach(intervals, round.version)
    requires iv in intervals && Holds(iv, v.node, round.version) && v in Judgement(round, intervals)
    ensures v.outcome == Submitted <==> v.node in round.submitters
    ensures v.outcome == Missed <==>
            v.node !in round.submitters && round.submitters != {} && !SettledBefore(round, round.deadline)
            && !ManuallyClosed(iv, round.deadline)
    ensures v.outcome == Excused ==>
            v.why == if round.submitters == {} then "no node submitted"
                     else if SettledBefore(round, round.deadline) then "the round settled before its deadline"
                     else "removed before the deadline: " + iv.closing.value.reason
    ensures v.outcome != Excused ==> v.why == ""
  {
    JudgementIsExact(round, intervals);
    assert Due(v, round, intervals);
    assert iv.Contains(round.version);
  }

  /** Whoever has a verdict was expected, and whoever was expected has one. */
  lemma JudgedWhenExpected(round: JudgedRound, intervals: seq<NodeInterval>, node: Node)
    requires OneRowEach(intervals, round.version)
    ensures Mentions(Judgement(round, intervals), node) <==>
            exists iv :: iv in intervals && Holds(iv, node, round.version)
  {
    JudgementIsExact(round, intervals);
    hide Judgement, OneRowEach, Ascending;
    DueWhenHeld(round, intervals, node);
    hide Due, Holds;
    var vs := Judgement(round, intervals);
    if v :| v in vs && v.node == node {
      assert Due(v, round, intervals);
    }
    if v: Verdict :| v.node == node && Due(v, round, intervals) {
      assert v in vs;
    }
  }

  lemma DueWhenHeld(round: JudgedRound, intervals: seq<NodeInterval>, node: Node)
    ensures (exists v: Verdict :: v.node == node && Due(v, round, intervals)) <==>
            exists iv :: iv in intervals && Holds(iv, node, round.version)
  {
    if v: Verdict :| v.node == node && Due(v, round, intervals) {
      var iv :| iv in intervals && iv.Contains(round.version) && v == VerdictOn(round, iv);
      assert Holds(iv, node, round.version);
    }
    if iv :| iv in intervals && Holds(iv, node, round.version) {
      assert iv.Contains(round.version);
      assert Due(VerdictOn(round, iv), round, intervals);
    }
  }

  // ----- Penalties -----------------------------------------------------------------------------

  datatype Reason = MissedRound | ConsecutiveMisses | Other(code: string)
  datatype Penalty = Penalty(reason: Reason, bps: nat)

  const FOR_ONE_MISS := Penalty(MissedRound, PENALTY_MISSED_ROUND_BPS)
  const FOR_A_STREAK := Penalty(ConsecutiveMisses, PENALTY_CONSECUTIVE_MISSES_BPS)

  /** The counter after a history: misses since the last submission or the last completed streak. */
  function Streak(outcomes: seq<Outcome>): nat {
    if outcomes == [] then 0
    else
      var before := Streak(outcomes[..|outcomes| - 1]);
      match outcomes[|outcomes| - 1]
      case Submitted => 0
      case Excused => before
      case Missed => if before + 1 >= CONSECUTIVE_MISS_LIMIT then 0 else before + 1
  }

  function Penalties(outcomes: seq<Outcome>): (r: seq<Option<Penalty>>)
    ensures |r| == |outcomes|
  {
    if outcomes == [] then []
    else
      var before := outcomes[..|outcomes| - 1];
      Penalties(before) + [
        if outcomes[|outcomes| - 1] != Missed then None
        else if Streak(before) + 1 >= CONSECUTIVE_MISS_LIMIT then Some(FOR_A_STREAK)
        else Some(FOR_ONE_MISS)]
  }

  method PenaltiesFor(outcomes: seq<Outcome>) returns (penalties: seq<Option<Penalty>>)
    ensures penalties == Penalties(outcomes)
  {
    penalties := seq(|outcomes|, _ => None);
    var streak := 0;
    for i := 0 to |outcomes|
      invariant |penalties| == |outcomes|
      invariant streak == Streak(outcomes[..i])
      invariant penalties[..i] == Penalties(outcomes[..i])
      invariant forall j | i <= j < |outcomes| :: penalties[j] == None
    {
      assert outcomes[..i + 1][..i] == outcomes[..i];
      match outcomes[i] {
        case Submitted =>
          streak := 0;
        case Excused =>
        case Missed =>
          streak := streak + 1;
          if streak >= CONSECUTIVE_MISS_LIMIT {
            penalties := penalties[i := Some(FOR_A_STREAK)];
            streak := 0;
          } else {
            penalties := penalties[i := Some(FOR_ONE_MISS)];
          }
      }
      assert penalties[..i + 1] == penalties[..i] + [penalties[i]];
    }
    assert outcomes[..|outcomes|] == outcomes && penalties[..|outcomes|] == penalties;
  }

  /** Later rounds never change what an earlier round cost. */
  lemma {:induction false} PenaltiesAreCausal(outcomes: seq<Outcome>, k: nat)
    requires k <= |outcomes|
    ensures Penalties(outcomes)[..k] == Penalties(outcomes[..k])
  {
    if k < |outcomes| {
      var n := |outcomes| - 1;
      PenaltiesAreCausal(outcomes[..n], k);
      assert outcomes[..n][..k] == outcomes[..k];
      assert Penalties(outcomes)[..k] == Penalties(outcomes[..n])[..k];
    } else {
      assert outcomes[..k] == outcomes;
    }
  }

  lemma {:induction false} EveryMissIsPenalised(outcomes: seq<Outcome>, i: nat)
    requires i < |outcomes|
    ensures Penalties(outcomes)[i].Some? <==> outcomes[i] == Missed
  {
    if i < |outcomes| - 1 { EveryMissIsPenalised(outcomes[..|outcomes| - 1], i); }
  }

  // The reference for streaks: every third miss since the node last submitted.
  function MissesSinceSubmission(outcomes: seq<Outcome>): nat {
    if outcomes == [] || outcomes[|outcomes| - 1] == Submitted then 0
    else MissesSinceSubmission(outcomes[..|outcomes| - 1]) + if outcomes[|outcomes| - 1] == Missed then 1 else 0
  }

  lemma {:induction false} StreakCountsMissesModThree(outcomes: seq<Outcome>)
    ensures Streak(outcomes) == MissesSinceSubmission(outcomes) % 3
  {
    if outcomes != [] { StreakCountsMissesModThree(outcomes[..|outcomes| - 1]); }
  }

  lemma LastPenalty(outcomes: seq<Outcome>)
    requires outcomes != []
    ensures Penalties(outcomes)[|outcomes| - 1] == Some(FOR_A_STREAK)
       <==> outcomes[|outcomes| - 1] == Missed && MissesSinceSubmission(outcomes) % 3 == 0
  {
    var before := outcomes[..|outcomes| - 1];
    StreakCountsMissesModThree(before);
    if outcomes[|outcomes| - 1] == Missed {
      assert MissesSinceSubmission(outcomes) == MissesSinceSubmission(before) + 1;
      ThirdMiss(MissesSinceSubmission(before));
    }
  }

  lemma ThirdMiss(misses: nat)
    ensures (misses + 1) % 3 == 0 <==> misses % 3 + 1 >= 3
  {
  }

  /** A miss costs ten percent when it is a third, sixth, ... since the node last submitted, and half a percent
      otherwise; nothing else costs anything. */
  lemma StreakPenaltyIsEveryThirdMiss(outcomes: seq<Outcome>, i: nat)
    requires i < |outcomes|
    ensures Penalties(outcomes)[i] ==
            if outcomes[i] != Missed then None
            else if MissesSinceSubmission(outcomes[..i + 1]) % 3 == 0 then Some(Penalty(ConsecutiveMisses, 1000))
            else Some(Penalty(MissedRound, 50))
  {
    PenaltiesAreCausal(outcomes, i + 1);
    assert Penalties(outcomes)[i] == Penalties(outcomes)[..i + 1][i];
    LastPenalty(outcomes[..i + 1]);
    EveryMissIsPenalised(outcomes, i);
    LastIsOneOfTwo(outcomes[..i + 1]);
  }

  lemma LastIsOneOfTwo(outcomes: seq<Outcome>)
    requires outcomes != []
    ensures Penalties(outcomes)[|outcomes| - 1] in {None, Some(FOR_A_STREAK), Some(FOR_ONE_MISS)}
  {
  }

  function CountMisses(outcomes: seq<Outcome>): nat {
    if outcomes == [] then 0
    else CountMisses(outcomes[..|outcomes| - 1]) + if outcomes[|outcomes| - 1] == Missed then 1 else 0
  }

  function CountStreaks(penalties: seq<Option<Penalty>>): nat {
    if penalties == [] then 0
    else CountStreaks(penalties[..|penalties| - 1]) + if penalties[|penalties| - 1] == Some(FOR_A_STREAK) then 1 else 0
  }

  lemma {:induction false} MissesBetweenSubmissions(before: seq<Outcome>, between: seq<Outcome>)
    requires before == [] || before[|before| - 1] == Submitted
    requires Submitted !in between
    ensures MissesSinceSubmission(before + between) == CountMisses(between)
  {
    if between == [] {
      assert before + between == before;
    } else {
      var b := between[..|between| - 1];
      assert (before + between)[..|before + between| - 1] == before + b;
      MissesBetweenSubmissions(before, b);
    }
  }

  /** After a submission, and before the next, k misses cost exactly floor(k/3) streak penalties. */
  lemma {:induction false} StreaksBetweenSubmissions(before: seq<Outcome>, between: seq<Outcome>)
    requires before == [] || before[|before| - 1] == Submitted
    requires Submitted !in between
    ensures CountStreaks(Penalties(before + between)[|before|..]) == CountMisses(between) / 3
  {
    if between != [] {
      var all, b := before + between, between[..|between| - 1];
      StreaksBetweenSubmissions(before, b);
      MissesBetweenSubmissions(before, between);
      LastPenalty(all);
      PenaltiesAreCausal(all, |all| - 1);
      assert all[..|all| - 1] == before + b && between[|between| - 1] == all[|all| - 1];
      var p, q, last := Penalties(all), Penalties(before + b)[|before|..], Penalties(all)[|all| - 1];
      assert p == p[..|all| - 1] + [last];
      assert p[|before|..] == q + [last];
      OneMorePenalty(q, last);
      hide Penalties, CountStreaks, MissesSinceSubmission;
    }
  }

  lemma OneMorePenalty(penalties: seq<Option<Penalty>>, last: Option<Penalty>)
    ensures CountStreaks(penalties + [last])
         == CountStreaks(penalties) + if last == Some(FOR_A_STREAK) then 1 else 0
  {
  }

  // ----- Excused rounds do not matter ----------------------------------------------------------

  function DropExcused(outcomes: seq<Outcome>): seq<Outcome> {
    if outcomes == [] then []
    else
      var last := outcomes[|outcomes| - 1];
      DropExcused(outcomes[..|outcomes| - 1]) + if last == Excused then [] else [last]
  }

  /** The penalties of the rounds that were not excused. */
  function KeepJudged(outcomes: seq<Outcome>, penalties: seq<Option<Penalty>>): seq<Option<Penalty>>
    requires |outcomes| == |penalties|
  {
    if outcomes == [] then []
    else
      var n := |outcomes| - 1;
      KeepJudged(outcomes[..n], penalties[..n]) + if outcomes[n] == Excused then [] else [penalties[n]]
  }

  lemma {:induction false} ExcusedRoundsDoNotMatter(outcomes: seq<Outcome>)
    ensures Streak(DropExcused(outcomes)) == Streak(outcomes)
    ensures Penalties(DropExcused(outcomes)) == KeepJudged(outcomes, Penalties(outcomes))
  {
    if outcomes != [] {
      var n := |outcomes| - 1;
      ExcusedRoundsDoNotMatter(outcomes[..n]);
      PenaltiesAreCausal(outcomes, n);
      var dropped := DropExcused(outcomes);
      if outcomes[n] != Excused {
        assert dropped[..|dropped| - 1] == DropExcused(outcomes[..n]);
      } else {
        assert dropped == DropExcused(outcomes[..n]);
      }
    }
  }
}
