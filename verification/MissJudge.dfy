/** The miss-judging half of the aggregator: rounds judged in id order, through a store that may stop accepting writes
    at any moment (a crash) and be picked up again by a restarted process. Between two lives of the process stakes move,
    decisions are executed, and others record slashes of their own. */
module MissJudge {
  import opened Options
  import opened NodeIntervals
  import opened MissedRounds

  type RoundId = nat

  datatype RoundState = Open | QuorumMet | Settled | Failed
  datatype RoundRow = RoundRow(state: RoundState, version: Version, deadline: int, settledAt: Option<int>,
                               submissionCount: nat)

  /** What the indexer has written, as one call of the aggregator reads it. */
  datatype View = View(rounds: map<RoundId, RoundRow>, submitters: map<RoundId, set<Node>>, rows: Rows,
                       stakes: map<Node, nat>) {
    function Submitters(id: RoundId): set<Node> {
      if id in submitters then submitters[id] else {}
    }

    function Judged(id: RoundId): JudgedRound
      requires id in rounds
    {
      JudgedRound(rounds[id].version, rounds[id].deadline, rounds[id].settledAt, Submitters(id))
    }

    /** Finished, and every recorded submission indexed. */
    predicate Ready(id: RoundId) {
      && id in rounds
      && (rounds[id].state == Settled || rounds[id].state == Failed)
      && |Submitters(id)| >= rounds[id].submissionCount
    }
  }

  // ----- The tables the aggregator writes ------------------------------------------------------

  datatype RoundNode = RoundNode(round: RoundId, node: Node)
  datatype OutcomeRow = OutcomeRow(outcome: Outcome, why: string)
  datatype Decision = Decision(reason: Reason, amount: nat)

  type Decisions = map<RoundNode, Decision>
  type Amounts = map<RoundNode, nat>

  datatype Tables = Tables(outcomes: map<RoundNode, OutcomeRow>, slashings: Decisions, judged: set<RoundId>)

  /** A node's outcomes in the rounds below `below`, in round order. */
  function History(outcomes: map<RoundNode, OutcomeRow>, node: Node, below: nat): seq<Outcome> {
    if below == 0 then []
    else
      var key := RoundNode(below - 1, node);
      History(outcomes, node, below - 1) + if key in outcomes then [outcomes[key].outcome] else []
  }

  ghost predicate Bounds(outcomes: map<RoundNode, OutcomeRow>, below: nat) {
    forall k | k in outcomes :: k.round < below
  }

  lemma {:induction false} HistoryIgnoresTheBound(outcomes: map<RoundNode, OutcomeRow>, node: Node, a: nat, b: nat)
    requires Bounds(outcomes, a) && a <= b
    ensures History(outcomes, node, a) == History(outcomes, node, b)
  {
    if a < b { HistoryIgnoresTheBound(outcomes, node, a, b - 1); }
  }

  // ----- What one uninterrupted pass records ---------------------------------------------------

  /** What a finished round's inputs determine. */
  datatype RoundFact = RoundFact(id: RoundId, verdicts: seq<Verdict>)

  /** Every round there will ever be, in id order. */
  type Facts = seq<RoundFact>

  ghost predicate WellFormed(facts: Facts) {
    && (forall i, j | 0 <= i < j < |facts| :: facts[i].id < facts[j].id)
    && forall i | 0 <= i < |facts| :: Distinct(facts[i].verdicts)
  }

  /** A point of the pass: `n` rounds done, and `k` outcomes of the next. */
  predicate Point(facts: Facts, n: nat, k: nat) {
    n <= |facts| && if n < |facts| then k <= |facts[n].verdicts| else k == 0
  }

  predicate Before(i: nat, j: nat, n: nat, k: nat) {
    i < n || (i == n && j < k)
  }

  function KeyOf(facts: Facts, i: nat, j: nat): RoundNode
    requires i < |facts| && j < |facts[i].verdicts|
  {
    RoundNode(facts[i].id, facts[i].verdicts[j].node)
  }

  function RowOf(facts: Facts, i: nat, j: nat): OutcomeRow
    requires i < |facts| && j < |facts[i].verdicts|
  {
    OutcomeRow(facts[i].verdicts[j].outcome, facts[i].verdicts[j].why)
  }

  /** The outcomes recorded at a point. */
  function OutcomesAt(facts: Facts, n: nat, k: nat): map<RoundNode, OutcomeRow>
    requires Point(facts, n, k)
    decreases n, k
  {
    if k > 0 then OutcomesAt(facts, n, k - 1)[KeyOf(facts, n, k - 1) := RowOf(facts, n, k - 1)]
    else if n > 0 then OutcomesAt(facts, n - 1, |facts[n - 1].verdicts|)
    else map[]
  }

  /** Every row is some verdict before the point. */
  lemma {:induction false} OutcomeFrom(facts: Facts, n: nat, k: nat, key: RoundNode) returns (i: nat, j: nat)
    requires Point(facts, n, k) && key in OutcomesAt(facts, n, k)
    ensures i < |facts| && j < |facts[i].verdicts| && Before(i, j, n, k) && key == KeyOf(facts, i, j)
    decreases n, k
  {
    if k > 0 {
      if key == KeyOf(facts, n, k - 1) {
        i, j := n, k - 1;
      } else {
        i, j := OutcomeFrom(facts, n, k - 1, key);
      }
    } else {
      i, j := OutcomeFrom(facts, n - 1, |facts[n - 1].verdicts|, key);
    }
  }

  lemma {:induction false} SameKey(facts: Facts, i: nat, j: nat, a: nat, b: nat)
    requires WellFormed(facts) && i < |facts| && j < |facts[i].verdicts| && a < |facts| && b < |facts[a].verdicts|
    requires KeyOf(facts, i, j) == KeyOf(facts, a, b)
    ensures i == a && j == b
  {
    assert facts[i].id == facts[a].id;
    assert Distinct(facts[i].verdicts);
  }

  /** And every verdict before the point has its row. */
  lemma {:induction false} OutcomeThere(facts: Facts, n: nat, k: nat, i: nat, j: nat)
    requires WellFormed(facts) && Point(facts, n, k) && i < |facts| && j < |facts[i].verdicts| && Before(i, j, n, k)
    ensures KeyOf(facts, i, j) in OutcomesAt(facts, n, k)
    ensures OutcomesAt(facts, n, k)[KeyOf(facts, i, j)] == RowOf(facts, i, j)
    decreases n, k
  {
    if k > 0 {
      if i != n || j != k - 1 {
        OutcomeThere(facts, n, k - 1, i, j);
        if KeyOf(facts, i, j) == KeyOf(facts, n, k - 1) {
          SameKey(facts, i, j, n, k - 1);
        }
      }
    } else {
      OutcomeThere(facts, n - 1, |facts[n - 1].verdicts|, i, j);
    }
  }

  lemma {:induction false} NextIsNew(facts: Facts, n: nat, k: nat)
    requires WellFormed(facts) && n < |facts| && k < |facts[n].verdicts|
    ensures KeyOf(facts, n, k) !in OutcomesAt(facts, n, k)
  {
    if KeyOf(facts, n, k) in OutcomesAt(facts, n, k) {
      var i, j := OutcomeFrom(facts, n, k, KeyOf(facts, n, k));
      SameKey(facts, i, j, n, k);
    }
  }

  lemma {:induction false} OutcomesAreBelow(facts: Facts, n: nat)
    requires WellFormed(facts) && n < |facts|
    ensures Bounds(OutcomesAt(facts, n + 1, 0), facts[n].id + 1)
  {
    forall key | key in OutcomesAt(facts, n + 1, 0) ensures key.round < facts[n].id + 1 {
      var i, j := OutcomeFrom(facts, n + 1, 0, key);
      assert i < n ==> facts[i].id < facts[n].id;
    }
  }

  ghost predicate Missing(facts: Facts, i: nat, node: Node)
    requires i < |facts|
  {
    exists j :: 0 <= j < |facts[i].verdicts| && facts[i].verdicts[j].node == node
        && facts[i].verdicts[j].outcome == Missed
  }

  /** A node's outcomes up to and including round `i`. */
  function UpTo(facts: Facts, i: nat, node: Node): seq<Outcome>
    requires i < |facts|
  {
    History(OutcomesAt(facts, i + 1, 0), node, facts[i].id + 1)
  }

  /** What a miss in round `i` costs, from the verdicts alone: the streak penalty on every third miss since the node
      last submitted, the small one on the others. */
  function PenaltyDue(facts: Facts, i: nat, node: Node): Penalty
    requires i < |facts|
  {
    if MissesSinceSubmission(UpTo(facts, i, node)) % 3 == 0 then FOR_A_STREAK else FOR_ONE_MISS
  }

  function Amount(stake: nat, bps: nat): nat {
    stake * bps / 10_000
  }

  /** The decision for a missing node whose stake is `stake`. */
  function Cost(facts: Facts, i: nat, node: Node, stake: nat): Decision
    requires i < |facts|
  {
    var penalty := PenaltyDue(facts, i, node);
    Decision(penalty.reason, Amount(stake, penalty.bps))
  }

  /** A recorded miss is the last of its node's history, so it has a penalty, and that is the one due. */
  lemma {:induction false} MissIsLast(facts: Facts, n: nat, j: nat)
    requires WellFormed(facts) && n < |facts| && j < |facts[n].verdicts| && facts[n].verdicts[j].outcome == Missed
    ensures var history := UpTo(facts, n, facts[n].verdicts[j].node);
            && history != []
            && Penalties(history)[|history| - 1] == Some(PenaltyDue(facts, n, facts[n].verdicts[j].node))
  {
    hide OutcomesAt;
    OutcomeThere(facts, n + 1, 0, n, j);
    var history := UpTo(facts, n, facts[n].verdicts[j].node);
    assert history[|history| - 1] == Missed;
    LastPenalty(history);
    EveryMissIsPenalised(history, |history| - 1);
    LastIsOneOfTwo(history);
  }

  // ----- The rounds judged are always the lowest ones ------------------------------------------

  function Ids(facts: Facts, n: nat): set<RoundId>
    requires n <= |facts|
  {
    set i | 0 <= i < n :: facts[i].id
  }

  lemma {:induction false} LowestUnjudged(view: View, facts: Facts, known: nat, n: nat)
    requires WellFormed(facts) && n <= known <= |facts| && view.rounds.Keys == Ids(facts, known)
    ensures n < known ==> facts[n].id in view.rounds && facts[n].id !in Ids(facts, n)
    ensures forall id | id in view.rounds && id !in Ids(facts, n) :: n < known && facts[n].id <= id
  {
    if n < known {
      assert facts[n].id in Ids(facts, known);
      assert forall i | 0 <= i < n :: facts[i].id < facts[n].id;
    }
    forall id | id in view.rounds && id !in Ids(facts, n) ensures n < known && facts[n].id <= id {
      var i :| 0 <= i < known && facts[i].id == id;
      assert i >= n;
      assert n < i ==> facts[n].id < facts[i].id;
    }
  }

  // ----- Where every crash leaves the tables ---------------------------------------------------

  /** A judged round's missing node: the stake its decision was taken from is on record, and a decision that is not
      nothing is in the table. */
  ghost predicate Decided(t: Tables, stakeOf: Amounts, facts: Facts, i: nat, node: Node)
    requires i < |facts|
  {
    var key := RoundNode(facts[i].id, node);
    && key in stakeOf
    && var cost := Cost(facts, i, node, stakeOf[key]);
       cost.amount > 0 ==> key in t.slashings && t.slashings[key].reason == cost.reason
  }

  /** One of the aggregator's own decisions, in round `i`. The row stays, for its reason, whatever becomes of its
      amount. */
  ghost predicate Own(t: Tables, mine: Decisions, stakeOf: Amounts, facts: Facts, i: nat, key: RoundNode)
    requires i < |facts| && key in mine
  {
    && key.round == facts[i].id && Missing(facts, i, key.node) && key in stakeOf
    && mine[key] == Cost(facts, i, key.node, stakeOf[key]) && mine[key].amount > 0
    && key in t.slashings && t.slashings[key].reason == mine[key].reason
  }

  /** `n` rounds judged, and of the next the first `k` outcomes recorded, and decisions only once all of them are.
      `mine` are the decisions the aggregator recorded, as it recorded them, and `stakeOf` the stakes they were taken
      from. */
  ghost predicate At(t: Tables, mine: Decisions, stakeOf: Amounts, facts: Facts, n: nat, k: nat) {
    && Point(facts, n, k)
    && t.judged == Ids(facts, n) && t.outcomes == OutcomesAt(facts, n, k)
    && (forall i, node | 0 <= i < n && Missing(facts, i, node) :: Decided(t, stakeOf, facts, i, node))
    && (forall key | key in mine :: exists i ::
          0 <= i < |facts| && (i < n || (i == n && k == |facts[n].verdicts|)) && Own(t, mine, stakeOf, facts, i, key))
    && forall key | key in stakeOf :: key in mine || key.round in Ids(facts, n)
  }

  /** Someone else's slash of a missing node holds the (node, round) key for another reason. */
  ghost predicate Clash(view: View, slashings: Decisions, facts: Facts, n: nat, node: Node)
    requires n < |facts|
  {
    var key := RoundNode(facts[n].id, node);
    && Missing(facts, n, node) && node in view.stakes
    && var cost := Cost(facts, n, node, view.stakes[node]);
       cost.amount > 0 && key in slashings && slashings[key].reason != cost.reason
  }

  ghost predicate Unknown(view: View, facts: Facts, n: nat, node: Node)
    requires n < |facts|
  {
    Missing(facts, n, node) && node !in view.stakes
  }

  /** Rows are neither deleted nor given another reason. */
  ghost predicate ReasonsStay(before: Decisions, after: Decisions) {
    forall key | key in before :: key in after && after[key].reason == before[key].reason
  }

  /** Nothing happens to the rows there are, every row added is one of the aggregator's own, and it forgets none of
      these. */
  ghost predicate Adds(before: Decisions, after: Decisions, mine: Decisions, mine': Decisions) {
    && (forall key | key in before :: key in after && after[key] == before[key])
    && (forall key | key in mine :: key in mine' && mine'[key] == mine[key])
    && (forall key | key in after && key !in before :: key in mine' && mine'[key] == after[key])
    && forall key | key in mine' && key !in mine :: key in after && key !in before
  }

  lemma {:induction false} AddsKeepsReasons(before: Decisions, after: Decisions, mine: Decisions, mine': Decisions)
    requires Adds(before, after, mine, mine')
    ensures ReasonsStay(before, after)
  {
  }

  /** What others make of the slashings: they insert rows under free keys, and correct the amounts of executed ones. */
  function Meddled(slashings: Decisions, rows: Decisions, amounts: Amounts): Decisions {
    var all := rows + slashings;
    map key | key in all :: if key in amounts then all[key].(amount := amounts[key]) else all[key]
  }

  /** The stakes put on record are those of the view. */
  ghost predicate StakesFrom(view: View, before: Amounts, after: Amounts) {
    && (forall key | key in before :: key in after && after[key] == before[key])
    && forall key | key in after && key !in before :: key.node in view.stakes && after[key] == view.stakes[key.node]
  }

  // ----- What each write does to the point -----------------------------------------------------

  lemma {:induction false} OutcomeLands(t: Tables, mine: Decisions, stakeOf: Amounts, facts: Facts, n: nat, k: nat)
    requires At(t, mine, stakeOf, facts, n, k) && n < |facts| && k < |facts[n].verdicts|
    ensures At(t.(outcomes := t.outcomes[KeyOf(facts, n, k) := RowOf(facts, n, k)]), mine, stakeOf, facts, n, k + 1)
  {
    var u := t.(outcomes := t.outcomes[KeyOf(facts, n, k) := RowOf(facts, n, k)]);
    SlashingsCarryOver(t, u, mine, stakeOf, facts, n, k, k + 1);
  }

  /** Nothing about the decisions depends on the rest of the tables. */
  lemma {:induction false} SlashingsCarryOver(t: Tables, u: Tables, mine: Decisions, stakeOf: Amounts,
                                              facts: Facts, n: nat, k: nat, l: nat)
    requires At(t, mine, stakeOf, facts, n, k) && Point(facts, n, l) && ReasonsStay(t.slashings, u.slashings)
    requires n < |facts| && k == |facts[n].verdicts| ==> l == k
    requires u.judged == t.judged && u.outcomes == OutcomesAt(facts, n, l)
    ensures At(u, mine, stakeOf, facts, n, l)
  {
    hide Cost, Missing, OutcomesAt, Ids;
    forall key | key in mine
      ensures exists i ::
              0 <= i < |facts| && (i < n || (i == n && l == |facts[n].verdicts|))
                  && Own(u, mine, stakeOf, facts, i, key)
    {
      var i :| 0 <= i < |facts| && (i < n || (i == n && k == |facts[n].verdicts|))
          && Own(t, mine, stakeOf, facts, i, key);
      assert Own(u, mine, stakeOf, facts, i, key);
    }
    forall i, node | 0 <= i < n && Missing(facts, i, node) ensures Decided(u, stakeOf, facts, i, node) {
      assert Decided(t, stakeOf, facts, i, node);
    }
  }

  /** Others may record slashes, and executed ones may be corrected in amount, without moving the point. */
  lemma {:induction false} OthersKeepThePoint(t: Tables, slashings: Decisions, mine: Decisions,
                                              stakeOf: Amounts, facts: Facts, n: nat, k: nat)
    requires At(t, mine, stakeOf, facts, n, k) && ReasonsStay(t.slashings, slashings)
    ensures At(t.(slashings := slashings), mine, stakeOf, facts, n, k)
  {
    SlashingsCarryOver(t, t.(slashings := slashings), mine, stakeOf, facts, n, k, k);
  }

  /** A decision recorded for a missing node whose outcomes are all there. */
  lemma {:induction false} DecisionLands(t: Tables, mine: Decisions, stakeOf: Amounts, facts: Facts, n: nat,
                                         node: Node, stake: nat)
    requires WellFormed(facts) && n < |facts| && At(t, mine, stakeOf, facts, n, |facts[n].verdicts|)
    requires Missing(facts, n, node) && Cost(facts, n, node, stake).amount > 0
    requires RoundNode(facts[n].id, node) !in t.slashings
    ensures var key, cost := RoundNode(facts[n].id, node), Cost(facts, n, node, stake);
            && key !in mine && key !in stakeOf
            && At(t.(slashings := t.slashings[key := cost]), mine[key := cost], stakeOf[key := stake], facts, n,
                  |facts[n].verdicts|)
  {
    hide Cost, Missing, OutcomesAt;
    var key, cost := RoundNode(facts[n].id, node), Cost(facts, n, node, stake);
    var u, mine', stakeOf' := t.(slashings := t.slashings[key := cost]), mine[key := cost], stakeOf[key := stake];
    assert key !in mine;
    assert facts[n].id !in Ids(facts, n) by {
      assert forall i | 0 <= i < n :: facts[i].id < facts[n].id;
    }
    forall i, other | 0 <= i < n && Missing(facts, i, other) ensures Decided(u, stakeOf', facts, i, other) {
      assert Decided(t, stakeOf, facts, i, other) && facts[i].id in Ids(facts, n);
    }
    forall own | own in mine'
      ensures exists i :: 0 <= i < |facts| && i <= n && Own(u, mine', stakeOf', facts, i, own)
    {
      if own == key {
        assert Own(u, mine', stakeOf', facts, n, own);
      } else {
        var i :| 0 <= i < |facts| && i <= n && Own(t, mine, stakeOf, facts, i, own);
        assert Own(u, mine', stakeOf', facts, i, own);
      }
    }
  }

  /** The (node, round) keys of a round's misses. */
  function MissKeys(fact: RoundFact): set<RoundNode> {
    set v | v in fact.verdicts && v.outcome == Missed :: RoundNode(fact.id, v.node)
  }

  /** The stakes that count for a round judged now: those on record, and the present ones of missing nodes with none. */
  ghost function StakesClosed(view: View, mine: Decisions, stakeOf: Amounts, fact: RoundFact): Amounts {
    stakeOf + map key | key in MissKeys(fact) && key !in mine && key.node in view.stakes :: view.stakes[key.node]
  }

  /** A missing node has been dealt with under `view`. */
  ghost predicate DealtWith(view: View, slashings: Decisions, facts: Facts, n: nat, node: Node)
    requires n < |facts|
  {
    var key := RoundNode(facts[n].id, node);
    && node in view.stakes
    && var cost := Cost(facts, n, node, view.stakes[node]);
       cost.amount > 0 ==> key in slashings && slashings[key].reason == cost.reason
  }

  /** Every missing node has been dealt with, so nothing clashed. */
  ghost predicate Clear(view: View, slashings: Decisions, facts: Facts, n: nat)
    requires n < |facts|
  {
    forall node | Missing(facts, n, node) :: DealtWith(view, slashings, facts, n, node)
  }

  lemma {:induction false} NotYetJudged(facts: Facts, n: nat)
    requires WellFormed(facts) && n < |facts|
    ensures facts[n].id !in Ids(facts, n) && Ids(facts, n + 1) == Ids(facts, n) + {facts[n].id}
    ensures OutcomesAt(facts, n + 1, 0) == OutcomesAt(facts, n, |facts[n].verdicts|)
  {
    assert forall i | 0 <= i < n :: facts[i].id < facts[n].id;
  }

  lemma {:induction false} StakesClosedAdds(view: View, t: Tables, mine: Decisions, stakeOf: Amounts, facts: Facts,
                                            n: nat)
    requires WellFormed(facts) && n < |facts| && At(t, mine, stakeOf, facts, n, |facts[n].verdicts|)
    ensures StakesFrom(view, stakeOf, StakesClosed(view, mine, stakeOf, facts[n]))
    ensures forall key | key in StakesClosed(view, mine, stakeOf, facts[n]) ::
            key in mine || key.round in Ids(facts, n + 1)
  {
    hide OutcomesAt, Own, Decided;
    NotYetJudged(facts, n);
    assert forall key | key in MissKeys(facts[n]) :: key.round == facts[n].id;
  }

  lemma {:induction false} MissingHasKey(facts: Facts, n: nat, node: Node)
    requires n < |facts| && Missing(facts, n, node)
    ensures RoundNode(facts[n].id, node) in MissKeys(facts[n])
  {
    var j :| 0 <= j < |facts[n].verdicts| && facts[n].verdicts[j].node == node
        && facts[n].verdicts[j].outcome == Missed;
    assert facts[n].verdicts[j] in facts[n].verdicts;
  }

  /** A missing node of the round being judged is decided once it has been dealt with. */
  lemma {:induction false} DealtWithIsDecided(view: View, t: Tables, mine: Decisions, stakeOf: Amounts,
                                              facts: Facts, n: nat, node: Node)
    requires WellFormed(facts) && n < |facts| && At(t, mine, stakeOf, facts, n, |facts[n].verdicts|)
    requires Missing(facts, n, node) && DealtWith(view, t.slashings, facts, n, node)
    ensures Decided(t, StakesClosed(view, mine, stakeOf, facts[n]), facts, n, node)
  {
    hide Cost, OutcomesAt, Missing;
    var key := RoundNode(facts[n].id, node);
    MissingHasKey(facts, n, node);
    StakesClosedAdds(view, t, mine, stakeOf, facts, n);
    NotYetJudged(facts, n);
    if key in mine {
      var i :| 0 <= i < |facts| && i <= n && Own(t, mine, stakeOf, facts, i, key);
      assert i < n ==> facts[i].id < facts[n].id;
    }
  }

  /** Once every missing node has been dealt with, the mark moves the point to the next round. */
  lemma {:induction false} MarkLands(view: View, t: Tables, mine: Decisions, stakeOf: Amounts, facts: Facts, n: nat)
    requires WellFormed(facts) && n < |facts| && At(t, mine, stakeOf, facts, n, |facts[n].verdicts|)
    requires Clear(view, t.slashings, facts, n)
    ensures var stakeOf' := StakesClosed(view, mine, stakeOf, facts[n]);
            At(t.(judged := t.judged + {facts[n].id}), mine, stakeOf', facts, n + 1, 0)
                && StakesFrom(view, stakeOf, stakeOf')
  {
    hide Cost, OutcomesAt, StakesClosed, Missing, Ids;
    var u, stakeOf' := t.(judged := t.judged + {facts[n].id}), StakesClosed(view, mine, stakeOf, facts[n]);
    NotYetJudged(facts, n);
    StakesClosedAdds(view, t, mine, stakeOf, facts, n);
    forall i, node | 0 <= i < n + 1 && Missing(facts, i, node) ensures Decided(u, stakeOf', facts, i, node) {
      if i == n {
        DealtWithIsDecided(view, t, mine, stakeOf, facts, n, node);
      } else {
        assert Decided(t, stakeOf, facts, i, node);
      }
    }
    forall key | key in mine
        ensures exists i :: 0 <= i < |facts| && i < n + 1 && Own(u, mine, stakeOf', facts, i, key) {
      var i :| 0 <= i < |facts| && i <= n && Own(t, mine, stakeOf, facts, i, key);
      assert Own(u, mine, stakeOf', facts, i, key);
    }
  }

  // ----- The aggregator ------------------------------------------------------------------------

  datatype Error = DuplicateSlash | NoPenalty | UnknownNode
  datatype Status = Done | Crashed | Stopped(error: Error)

  /** Whatever order its rows are read in, the round's verdicts are these. */
  ghost predicate VerdictsFixed(view: View, fact: RoundFact)
    requires fact.id in view.rounds
  {
    forall out | IsSelection(out, view.rows, view.rounds[fact.id].version) ::
        Judgement(view.Judged(fact.id), out) == fact.verdicts
  }

  /** The indexer has the first `known` rounds, and the verdicts of those finished and, from `n` on, not yet judged no
      longer change. */
  ghost predicate Fixes(view: View, facts: Facts, n: nat, known: nat) {
    && known <= |facts|
    && view.rounds.Keys == Ids(facts, known)
    && forall i | n <= i < known && view.Ready(facts[i].id) :: VerdictsFixed(view, facts[i])
  }

  lemma {:induction false} FixesFrom(view: View, facts: Facts, n: nat, known: nat)
    requires Fixes(view, facts, 0, known)
    ensures Fixes(view, facts, n, known)
  {
  }

  /** At most this many statements judge a round: its outcomes, its decisions, and the mark. */
  function Statements(fact: RoundFact): nat {
    2 * |fact.verdicts| + 1
  }

  function StatementsOf(facts: Facts, n: nat, m: nat): nat
    requires n <= m <= |facts|
  {
    if n == m then 0 else StatementsOf(facts, n, m - 1) + Statements(facts[m - 1])
  }

  lemma NoStatements(facts: Facts, n: nat)
    requires n <= |facts|
    ensures StatementsOf(facts, n, n) == 0
  {
  }

  lemma OneMoreRound(facts: Facts, n: nat, m: nat)
    requires n <= m < |facts|
    ensures StatementsOf(facts, n, m + 1) == StatementsOf(facts, n, m) + Statements(facts[m])
  {
  }

  /** Why judging round `n` failed: a slash for another reason, or a missing node the indexer has no row of. */
  ghost predicate Justified(view: View, slashings: Decisions, facts: Facts, n: nat, error: Error)
    requires n < |facts|
  {
    match error
    case DuplicateSlash => exists node :: Clash(view, slashings, facts, n, node)
    case UnknownNode => exists node :: Unknown(view, facts, n, node)
    case NoPenalty => false
  }

  /** A clash outlasts everything but a change of stake: a round is clear or stuck, never both. */
  lemma {:induction false} ClashBlocks(view: View, before: Decisions, after: Decisions, facts: Facts, n: nat,
                                       node: Node)
    requires n < |facts| && Clash(view, before, facts, n, node) && ReasonsStay(before, after)
    ensures Clash(view, after, facts, n, node) && !Clear(view, after, facts, n)
  {
    hide Cost, Missing;
    assert !DealtWith(view, after, facts, n, node);
  }

  /** Nothing stands in the way of judging the round. */
  ghost predicate Unhindered(view: View, slashings: Decisions, facts: Facts, n: nat)
    requires n < |facts|
  {
    forall node :: !Clash(view, slashings, facts, n, node) && !Unknown(view, facts, n, node)
  }

  lemma {:induction false} WasUnhindered(view: View, before: Decisions, after: Decisions, own: Decisions,
                                         mine: Decisions, facts: Facts, n: nat)
    requires n < |facts| && Adds(before, after, own, mine) && Clear(view, after, facts, n)
    ensures Unhindered(view, before, facts, n)
  {
    AddsKeepsReasons(before, after, own, mine);
    hide Cost, Missing, Adds;
    forall node ensures !Clash(view, before, facts, n, node) && !Unknown(view, facts, n, node) {
      if Clash(view, before, facts, n, node) {
        ClashBlocks(view, before, after, facts, n, node);
      }
      assert Missing(facts, n, node) ==> DealtWith(view, after, facts, n, node);
    }
  }

  /** Exactly when nothing stands in the way is there no reason to stop. */
  lemma {:induction false} UnhinderedOrJustified(view: View, slashings: Decisions, facts: Facts, n: nat)
    requires n < |facts|
    ensures Unhindered(view, slashings, facts, n) <==> forall error :: !Justified(view, slashings, facts, n, error)
  {
    hide Clash, Unknown;
    if !Unhindered(view, slashings, facts, n) {
      var node :| Clash(view, slashings, facts, n, node) || Unknown(view, facts, n, node);
      assert Justified(view, slashings, facts, n, if Clash(view, slashings, facts, n, node) then DuplicateSlash
                       else UnknownNode);
    }
  }

  lemma {:induction false} EarlierUnhindered(view: View, before: Decisions, after: Decisions, own: Decisions,
                                             mine: Decisions, facts: Facts, n: nat)
    requires n < |facts| && Adds(before, after, own, mine) && Unhindered(view, after, facts, n)
    ensures Unhindered(view, before, facts, n)
  {
    hide Cost, Missing;
    forall node ensures !Clash(view, before, facts, n, node) && !Unknown(view, facts, n, node) {
      assert !Clash(view, after, facts, n, node) && !Unknown(view, facts, n, node);
    }
  }

  lemma {:induction false} AtIsPoint(t: Tables, mine: Decisions, stakeOf: Amounts, facts: Facts, n: nat, k: nat)
    requires At(t, mine, stakeOf, facts, n, k)
    ensures Point(facts, n, k) && t.outcomes == OutcomesAt(facts, n, k) && t.judged == Ids(facts, n)
  {
  }

  /** One of the aggregator's own rows never clashes, so a clash met while judging was there from the start. */
  lemma {:induction false} ClashWasThere(view: View, t: Tables, mine: Decisions, stakeOf: Amounts, facts: Facts, n: nat,
                                         k: nat, before: Decisions, own: Decisions, error: Error)
    requires WellFormed(facts) && n < |facts| && At(t, mine, stakeOf, facts, n, k)
    requires Adds(before, t.slashings, own, mine) && Justified(view, t.slashings, facts, n, error)
    ensures Justified(view, before, facts, n, error)
  {
    hide At, PenaltyDue, Missing;
    if error.DuplicateSlash? {
      var node :| Clash(view, t.slashings, facts, n, node);
      var key := RoundNode(facts[n].id, node);
      if key in mine {
        OwnRound(t, mine, stakeOf, facts, n, k, n, key);
      }
      assert Clash(view, before, facts, n, node);
    }
  }

  lemma {:induction false} NothingMoved(view: View, slashings: Decisions, mine: Decisions, stakes: Amounts)
    ensures Adds(slashings, slashings, mine, mine) && StakesFrom(view, stakes, stakes)
  {
  }

  lemma {:induction false} Moved(view: View, a: Decisions, b: Decisions, c: Decisions, own: Decisions, own': Decisions,
                                 own'': Decisions, x: Amounts, y: Amounts, z: Amounts)
    requires Adds(a, b, own, own') && Adds(b, c, own', own'') && StakesFrom(view, x, y) && StakesFrom(view, y, z)
    ensures Adds(a, c, own, own'') && StakesFrom(view, x, z)
  {
  }

  lemma {:induction false} OneDecided(view: View, slashings: Decisions, mine: Decisions, stakes: Amounts,
                                      key: RoundNode, cost: Decision)
    requires key !in slashings && key !in mine && key !in stakes && key.node in view.stakes
    ensures Adds(slashings, slashings[key := cost], mine, mine[key := cost])
    ensures StakesFrom(view, stakes, stakes[key := view.stakes[key.node]])
  {
  }

  lemma {:induction false} Misses(facts: Facts, n: nat, j: nat)
    requires n < |facts| && j < |facts[n].verdicts| && facts[n].verdicts[j].outcome == Missed
    ensures Missing(facts, n, facts[n].verdicts[j].node)
  {
  }

  lemma {:induction false} DealtWithStays(view: View, before: Decisions, after: Decisions, facts: Facts, n: nat,
                                          node: Node)
    requires n < |facts| && DealtWith(view, before, facts, n, node) && ReasonsStay(before, after)
    ensures DealtWith(view, after, facts, n, node)
  {
    hide Cost;
  }

  lemma {:induction false} AllDealtWith(view: View, slashings: Decisions, facts: Facts, n: nat)
    requires n < |facts|
    requires forall i | 0 <= i < |facts[n].verdicts| && facts[n].verdicts[i].outcome == Missed ::
             DealtWith(view, slashings, facts, n, facts[n].verdicts[i].node)
    ensures Clear(view, slashings, facts, n)
  {
    hide DealtWith;
  }

  class Aggregator {
    var outcomes: map<RoundNode, OutcomeRow>
    var slashings: Decisions
    var judged: set<RoundId>
    /** How many more writes land before the process dies. */
    var writesLeft: nat
    /** The decisions recorded here, as recorded, and the stakes they were taken from. */
    ghost var mine: Decisions
    ghost var stakeOf: Amounts

    function Contents(): Tables
      reads this
    {
      Tables(outcomes, slashings, judged)
    }

    ghost predicate AtPoint(facts: Facts, n: nat, k: nat)
      reads this
    {
      At(Contents(), mine, stakeOf, facts, n, k)
    }

    constructor ()
      ensures Contents() == Tables(map[], map[], {}) && mine == map[] && stakeOf == map[]
    {
      outcomes, slashings, judged, writesLeft := map[], map[], {}, 0;
      mine, stakeOf := map[], map[];
    }

    method OthersWrite(rows: Decisions, amounts: Amounts)
      modifies this`slashings
      ensures slashings == Meddled(old(slashings), rows, amounts) && ReasonsStay(old(slashings), slashings)
    {
      slashings := Meddled(slashings, rows, amounts);
    }

    method RecordRoundOutcome(key: RoundNode, row: OutcomeRow) returns (alive: bool)
      modifies this`outcomes, this`writesLeft
      ensures alive == (old(writesLeft) > 0) && writesLeft == old(writesLeft) - (if alive then 1 else 0)
      ensures outcomes == if alive && key !in old(outcomes) then old(outcomes)[key := row] else old(outcomes)
    {
      if writesLeft == 0 { return false; }
      writesLeft := writesLeft - 1;
      if key !in outcomes {
        outcomes := outcomes[key := row];
      }
      return true;
    }

    /** The statement guards against a second decision for the same reason; the unique index on node and round turns one
        for another reason into an error. */
    method RecordSlashDecision(key: RoundNode, decision: Decision, ghost stake: nat) returns (status: Status)
      modifies this`slashings, this`writesLeft, this`mine, this`stakeOf
      ensures status == if old(writesLeft) == 0 then Crashed
                        else if key in old(slashings) && old(slashings)[key].reason != decision.reason
                            then Stopped(DuplicateSlash)
                        else Done
      ensures writesLeft == old(writesLeft) - (if status.Done? then 1 else 0)
      ensures var inserted := status.Done? && key !in old(slashings);
              && slashings == (if inserted then old(slashings)[key := decision] else old(slashings))
              && mine == (if inserted then old(mine)[key := decision] else old(mine))
              && stakeOf == (if inserted then old(stakeOf)[key := stake] else old(stakeOf))
    {
      if writesLeft == 0 { return Crashed; }
      if key in slashings && slashings[key].reason != decision.reason {
        return Stopped(DuplicateSlash);
      }
      writesLeft := writesLeft - 1;
      if key !in slashings {
        slashings := slashings[key := decision];
        mine, stakeOf := mine[key := decision], stakeOf[key := stake];
      }
      return Done;
    }

    method MarkMissesJudged(id: RoundId) returns (alive: bool)
      modifies this`judged, this`writesLeft
      ensures alive == (old(writesLeft) > 0) && writesLeft == old(writesLeft) - (if alive then 1 else 0)
      ensures judged == if alive then old(judged) + {id} else old(judged)
    {
      if writesLeft == 0 { return false; }
      writesLeft := writesLeft - 1;
      judged := judged + {id};
      return true;
    }

    /** The lowest round not judged yet, whatever its state. */
    method NextRoundToJudge(view: View) returns (next: Option<RoundId>)
      ensures next.None? ==> forall id | id in view.rounds :: id in judged
      ensures next.Some? ==> next.value in view.rounds && next.value !in judged
      ensures next.Some? ==> forall id | id in view.rounds && id !in judged :: next.value <= id
    {
      var left: set<RoundId> := view.rounds.Keys - judged;
      next := None;
      while left != {}
        invariant forall id | id in left :: id in view.rounds && id !in judged
        invariant next.None? ==> forall id | id in view.rounds && id !in judged :: id in left
        invariant next.Some? ==> next.value in view.rounds && next.value !in judged
        invariant next.Some? ==> forall id | id in view.rounds && id !in judged && id !in left :: next.value <= id
        decreases |left|
      {
        var id :| id in left;
        left := left - {id};
        if next.None? || id < next.value {
          next := Some(id);
        }
      }
    }

    method NodeOutcomeHistory(node: Node) returns (history: seq<Outcome>)
      ensures forall below | Bounds(outcomes, below) :: history == History(outcomes, node, below)
    {
      var left := outcomes.Keys;
      var top: nat := 0;
      while left != {}
        invariant left <= outcomes.Keys
        invariant forall k | k in outcomes && k !in left :: k.round < top
        decreases |left|
      {
        var k :| k in left;
        left := left - {k};
        if k.round >= top {
          top := k.round + 1;
        }
      }
      history := History(outcomes, node, top);
      forall below: nat | Bounds(outcomes, below) ensures history == History(outcomes, node, below) {
        HistoryIgnoresTheBound(outcomes, node, if below < top then below else top, if below < top then top else below);
      }
    }

    /** `decide`: nothing is recorded for a penalty that rounds to nothing. */
    method Decide(view: View, id: RoundId, node: Node, penalty: Penalty) returns (status: Status)
      modifies this`slashings, this`writesLeft, this`mine, this`stakeOf
      ensures node !in view.stakes ==> status == Stopped(UnknownNode) && unchanged(this)
      ensures node in view.stakes && Amount(view.stakes[node], penalty.bps) == 0 ==> status == Done && unchanged(this)
      ensures node in view.stakes && Amount(view.stakes[node], penalty.bps) > 0 ==>
        var key, decision := RoundNode(id, node), Decision(penalty.reason, Amount(view.stakes[node], penalty.bps));
        var clash := key in old(slashings) && old(slashings)[key].reason != decision.reason;
        && status == (if old(writesLeft) == 0 then Crashed else if clash then Stopped(DuplicateSlash) else Done)
        && writesLeft == old(writesLeft) - (if status.Done? then 1 else 0)
        && var inserted := status.Done? && key !in old(slashings);
           && slashings == (if inserted then old(slashings)[key := decision] else old(slashings))
           && mine == (if inserted then old(mine)[key := decision] else old(mine))
           && stakeOf == (if inserted then old(stakeOf)[key := view.stakes[node]] else old(stakeOf))
      ensures node in view.stakes && RoundNode(id, node) in mine && RoundNode(id, node) !in old(mine) ==>
        var decision, due := mine[RoundNode(id, node)], view.stakes[node] * penalty.bps;
        decision.reason == penalty.reason && 0 < decision.amount
        && decision.amount * 10_000 <= due < (decision.amount + 1) * 10_000
      ensures node in view.stakes && status.Done? && view.stakes[node] * penalty.bps >= 10_000 ==>
        RoundNode(id, node) in slashings && slashings[RoundNode(id, node)].reason == penalty.reason
      ensures node in view.stakes && view.stakes[node] * penalty.bps < 10_000 ==> status == Done && unchanged(this)
    {
      if node !in view.stakes {
        return Stopped(UnknownNode);
      }
      var amount := Amount(view.stakes[node], penalty.bps);
      FloorOf(view.stakes[node] * penalty.bps);
      if amount == 0 {
        return Done;
      }
      status := RecordSlashDecision(RoundNode(id, node), Decision(penalty.reason, amount), view.stakes[node]);
    }

    /** The outcomes, in verdict order; those recorded before a crash stand. */
    method RecordRoundOutcomes(id: RoundId, verdicts: seq<Verdict>, ghost facts: Facts, ghost n: nat, ghost k: nat)
      returns (alive: bool, ghost k': nat)
      requires WellFormed(facts) && n < |facts| && facts[n] == RoundFact(id, verdicts) && AtPoint(facts, n, k)
      modifies this`outcomes, this`writesLeft
      ensures AtPoint(facts, n, k') && k' >= k && (alive ==> k' == |verdicts|)
      ensures if alive then writesLeft == old(writesLeft) - |verdicts|
              else writesLeft == 0 && old(writesLeft) < |verdicts|
    {
      hide At;
      k' := k;
      AtIsPoint(Contents(), mine, stakeOf, facts, n, k);
      for i := 0 to |verdicts|
        invariant AtPoint(facts, n, k') && k' == (if k < i then i else k) <= |verdicts|
        invariant writesLeft == old(writesLeft) - i
        invariant slashings == old(slashings) && judged == old(judged) && mine == old(mine) && stakeOf == old(stakeOf)
      {
        var v := verdicts[i];
        AtIsPoint(Contents(), mine, stakeOf, facts, n, k');
        if i < k' {
          OutcomeThere(facts, n, k', n, i);
        } else {
          NextIsNew(facts, n, k');
          OutcomeLands(Contents(), mine, stakeOf, facts, n, k');
        }
        alive := RecordRoundOutcome(RoundNode(id, v.node), OutcomeRow(v.outcome, v.why));
        if !alive { return false, k'; }
        k' := if k' == i then i + 1 else k';
      }
      alive := true;
    }

    /** A recorded miss's penalty, from the node's whole history: there always is one. */
    method PenaltyOf(v: Verdict, ghost facts: Facts, ghost n: nat, ghost j: nat) returns (penalty: Option<Penalty>)
      requires WellFormed(facts) && n < |facts| && AtPoint(facts, n, |facts[n].verdicts|)
      requires j < |facts[n].verdicts| && facts[n].verdicts[j] == v && v.outcome == Missed
      ensures penalty == Some(PenaltyDue(facts, n, v.node))
    {
      hide At, OutcomesAt;
      AtIsPoint(Contents(), mine, stakeOf, facts, n, |facts[n].verdicts|);
      NotYetJudged(facts, n);
      OutcomesAreBelow(facts, n);
      MissIsLast(facts, n, j);
      var history := NodeOutcomeHistory(v.node);
      assert history == UpTo(facts, n, v.node);
      var penalties := PenaltiesFor(history);
      penalty := if penalties == [] then None else penalties[|penalties| - 1];
    }

    /** One recorded miss. */
    method DecideMiss(view: View, id: RoundId, v: Verdict, ghost facts: Facts, ghost n: nat, ghost j: nat)
      returns (status: Status)
      requires WellFormed(facts) && n < |facts| && facts[n].id == id && AtPoint(facts, n, |facts[n].verdicts|)
      requires j < |facts[n].verdicts| && facts[n].verdicts[j] == v && v.outcome == Missed
      modifies this`slashings, this`writesLeft, this`mine, this`stakeOf
      ensures AtPoint(facts, n, |facts[n].verdicts|)
      ensures Adds(old(slashings), slashings, old(mine), mine) && StakesFrom(view, old(stakeOf), stakeOf)
      ensures status.Done? ==>
              DealtWith(view, slashings, facts, n, v.node) && old(writesLeft) - 1 <= writesLeft <= old(writesLeft)
      ensures status.Crashed? ==> writesLeft == old(writesLeft) == 0
      ensures status.Stopped? ==>
              Justified(view, old(slashings), facts, n, status.error) && writesLeft == old(writesLeft)
    {
      hide At, Missing, PenaltyDue, WellFormed, OutcomesAt, StakesFrom, Adds;
      var penalty := PenaltyOf(v, facts, n, j);
      Misses(facts, n, j);
      NothingMoved(view, slashings, mine, stakeOf);
      if penalty.None? {
        return Stopped(NoPenalty);
      }
      ghost var cost := if v.node in view.stakes then Cost(facts, n, v.node, view.stakes[v.node])
          else Decision(penalty.value.reason, 0);
      if cost.amount > 0 && RoundNode(id, v.node) !in slashings {
        DecisionLands(Contents(), mine, stakeOf, facts, n, v.node, view.stakes[v.node]);
        OneDecided(view, slashings, mine, stakeOf, RoundNode(id, v.node), cost);
      }
      status := Decide(view, id, v.node, penalty.value);
      if status == Stopped(DuplicateSlash) {
        assert Clash(view, slashings, facts, n, v.node);
      } else if status == Stopped(UnknownNode) {
        assert Unknown(view, facts, n, v.node);
      }
    }

    /** The decisions of one round, in verdict order. */
    method DecideMisses(view: View, id: RoundId, verdicts: seq<Verdict>, ghost facts: Facts, ghost n: nat)
      returns (status: Status)
      requires WellFormed(facts) && n < |facts| && facts[n] == RoundFact(id, verdicts) && AtPoint(facts, n, |verdicts|)
      modifies this`slashings, this`writesLeft, this`mine, this`stakeOf
      ensures AtPoint(facts, n, |verdicts|)
      ensures Adds(old(slashings), slashings, old(mine), mine) && StakesFrom(view, old(stakeOf), stakeOf)
      ensures status.Done? ==> Clear(view, slashings, facts, n) && old(writesLeft) - |verdicts| <= writesLeft
      ensures status.Crashed? ==> writesLeft == 0 && old(writesLeft) < |verdicts|
      ensures status.Stopped? ==> Justified(view, old(slashings), facts, n, status.error)
    {
      hide At, DealtWith, Justified, StakesFrom, Adds, WellFormed;
      NothingMoved(view, slashings, mine, stakeOf);
      for j := 0 to |verdicts|
        invariant AtPoint(facts, n, |verdicts|)
        invariant Adds(old(slashings), slashings, old(mine), mine) && StakesFrom(view, old(stakeOf), stakeOf)
        invariant old(writesLeft) - j <= writesLeft <= old(writesLeft)
        invariant forall i | 0 <= i < j && verdicts[i].outcome == Missed ::
                  DealtWith(view, slashings, facts, n, verdicts[i].node)
      {
        if verdicts[j].outcome != Missed {
          continue;
        }
        ghost var before, own, stakes := Contents(), mine, stakeOf;
        status := DecideMiss(view, id, verdicts[j], facts, n, j);
        if status.Stopped? {
          ClashWasThere(view, before, own, stakes, facts, n, |verdicts|, old(slashings), old(mine), status.error);
        }
        Moved(view, old(slashings), before.slashings, slashings, old(mine), own, mine, old(stakeOf), stakes, stakeOf);
        if !status.Done? {
          return;
        }
        AddsKeepsReasons(before.slashings, slashings, own, mine);
        forall i | 0 <= i < j && verdicts[i].outcome == Missed
            ensures DealtWith(view, slashings, facts, n, verdicts[i].node) {
          DealtWithStays(view, before.slashings, slashings, facts, n, verdicts[i].node);
        }
      }
      AllDealtWith(view, slashings, facts, n);
      status := Done;
    }

    /** The mark, once every missing node has been dealt with. */
    method Finish(view: View, id: RoundId, ghost facts: Facts, ghost n: nat) returns (alive: bool)
      requires WellFormed(facts) && n < |facts| && facts[n].id == id && AtPoint(facts, n, |facts[n].verdicts|)
      requires Clear(view, slashings, facts, n)
      modifies this`judged, this`writesLeft, this`stakeOf
      ensures if alive then AtPoint(facts, n + 1, 0) else AtPoint(facts, n, |facts[n].verdicts|)
      ensures Clear(view, slashings, facts, n) && StakesFrom(view, old(stakeOf), stakeOf)
      ensures alive == (old(writesLeft) > 0) && writesLeft == old(writesLeft) - (if alive then 1 else 0)
    {
      hide At, Clear, StakesFrom, StakesClosed, WellFormed;
      ghost var before := Contents();
      MarkLands(view, before, mine, stakeOf, facts, n);
      NothingMoved(view, slashings, mine, stakeOf);
      alive := MarkMissesJudged(id);
      if alive {
        stakeOf := StakesClosed(view, mine, stakeOf, facts[n]);
      }
    }

    method JudgeRound(view: View, id: RoundId, ghost facts: Facts, ghost n: nat, ghost k: nat)
      returns (status: Status, ghost k': nat)
      requires WellFormed(facts) && n < |facts| && facts[n].id == id
      requires id in view.rounds && VerdictsFixed(view, facts[n])
      requires AtPoint(facts, n, k)
      modifies this
      ensures if status.Done? then AtPoint(facts, n + 1, 0) && Clear(view, slashings, facts, n)
              else AtPoint(facts, n, k')
      ensures status.Done? ==> Unhindered(view, old(slashings), facts, n)
      ensures Adds(old(slashings), slashings, old(mine), mine) && StakesFrom(view, old(stakeOf), stakeOf)
      ensures status.Done? ==> old(writesLeft) - Statements(facts[n]) <= writesLeft
      ensures status.Crashed? ==> writesLeft == 0 && old(writesLeft) < Statements(facts[n])
      ensures status.Stopped? ==> Justified(view, old(slashings), facts, n, status.error)
    {
      hide At, Clear, Justified, StakesFrom, Adds, Unhindered;
      NothingMoved(view, slashings, mine, stakeOf);
      var intervals := SelectAt(view.rows, view.rounds[id].version);
      var verdicts := MissedRounds.JudgeRound(view.Judged(id), intervals);
      assert verdicts == facts[n].verdicts;
      var alive;
      alive, k' := RecordRoundOutcomes(id, verdicts, facts, n, k);
      if !alive {
        return Crashed, k';
      }
      status := DecideMisses(view, id, verdicts, facts, n);
      if !status.Done? {
        return;
      }
      ghost var before, own, stakes := slashings, mine, stakeOf;
      alive := Finish(view, id, facts, n);
      NothingMoved(view, slashings, mine, stakeOf);
      Moved(view, old(slashings), before, slashings, old(mine), own, mine, old(stakeOf), stakes, stakeOf);
      WasUnhindered(view, old(slashings), slashings, old(mine), mine, facts, n);
      if !alive {
        return Crashed, k';
      }
    }

    /** Judges rounds strictly in id order, stopping at the first that is unfinished or not fully indexed. From any
        crash point, and wherever the process dies, the tables are again at a crash point; it dies only when its writes
        run out, and stops only on a clash or an unknown node. */
    method JudgeMisses(view: View, batchSize: nat, ghost known: nat, ghost facts: Facts, ghost n: nat, ghost k: nat)
      returns (count: nat, status: Status, ghost k': nat)
      requires WellFormed(facts) && Fixes(view, facts, n, known) && n <= known && AtPoint(facts, n, k)
      modifies this
      ensures n + count <= known && AtPoint(facts, n + count, k')
      ensures Adds(old(slashings), slashings, old(mine), mine) && StakesFrom(view, old(stakeOf), stakeOf)
      ensures Ends(view, batchSize, old(writesLeft), old(slashings), facts, known, n, count, status)
    {
      hide At, WellFormed, Clear, Justified, StakesFrom, Adds, VerdictsFixed, Statements, Unhindered, Ends,
           StatementsOf;
      NoStatements(facts, n);
      count, k' := 0, k;
      NothingMoved(view, slashings, mine, stakeOf);
      while count < batchSize
        invariant count <= batchSize && n + count <= known && AtPoint(facts, n + count, k')
        invariant Adds(old(slashings), slashings, old(mine), mine) && StakesFrom(view, old(stakeOf), stakeOf)
        invariant forall i | n <= i < n + count :: Unhindered(view, old(slashings), facts, i)
        invariant forall i | n <= i < n + count :: view.Ready(facts[i].id)
        invariant writesLeft >= old(writesLeft) - StatementsOf(facts, n, n + count)
      {
        ghost var m := n + count;
        var next := NextRoundToJudge(view);
        AtIsPoint(Contents(), mine, stakeOf, facts, m, k');
        LowestUnjudged(view, facts, known, m);
        if next.None? {
          EndsSo(view, batchSize, old(writesLeft), old(slashings), facts, known, n, count, Done);
          return count, Done, k';
        }
        assert m < known && next.value == facts[m].id;
        var round := view.rounds[next.value];
        if round.state != Settled && round.state != Failed {
          EndsSo(view, batchSize, old(writesLeft), old(slashings), facts, known, n, count, Done);
          return count, Done, k';
        }
        if |view.Submitters(next.value)| < round.submissionCount {
          EndsSo(view, batchSize, old(writesLeft), old(slashings), facts, known, n, count, Done);
          return count, Done, k';
        }
        assert view.Ready(facts[m].id);
        OneMoreRound(facts, n, m);
        ghost var before, own, stakes, k0 := Contents(), mine, stakeOf, k';
        status, k' := JudgeRound(view, next.value, facts, m, k');
        Moved(view, old(slashings), before.slashings, slashings, old(mine), own, mine, old(stakeOf), stakes, stakeOf);
        if status.Stopped? {
          ClashWasThere(view, before, own, stakes, facts, m, k0, old(slashings), old(mine), status.error);
        }
        if !status.Done? {
          EndsSo(view, batchSize, old(writesLeft), old(slashings), facts, known, n, count, status);
          return;
        }
        EarlierUnhindered(view, old(slashings), before.slashings, old(mine), own, facts, m);
        count, k' := count + 1, 0;
      }
      status := Done;
      EndsSo(view, batchSize, old(writesLeft), old(slashings), facts, known, n, count, Done);
    }
  }

  /** How a call that found these slashings and judged `count` rounds from round `n` on ended, and why it did not judge
      more. */
  ghost predicate Ends(view: View, batchSize: nat, writes: nat, found: Decisions, facts: Facts, known: nat, n: nat,
                       count: nat, status: Status) {
    && n + count <= known <= |facts|
    && (forall i | n <= i < n + count :: Unhindered(view, found, facts, i))
    && (forall i | n <= i < |facts| && (i < n + count || (i == n + count && !status.Done?)) ::
          var id := facts[i].id;
          id in view.rounds && view.rounds[id].state in {Settled, Failed}
          && |view.Submitters(id)| >= view.rounds[id].submissionCount)
    && match status
       case Done => count == batchSize || n + count == known || !view.Ready(facts[n + count].id)
       case Crashed => n + count < |facts| && writes < StatementsOf(facts, n, n + count + 1)
       case Stopped(error) => n + count < |facts| && Justified(view, found, facts, n + count, error)
  }

  lemma EndsSo(view: View, batchSize: nat, writes: nat, found: Decisions, facts: Facts, known: nat, n: nat, count: nat,
               status: Status)
    requires n + count <= known <= |facts|
    requires forall i | n <= i < n + count :: Unhindered(view, found, facts, i) && view.Ready(facts[i].id)
    requires match status
             case Done => count == batchSize || n + count == known || !view.Ready(facts[n + count].id)
             case Crashed =>
               && n + count < |facts| && view.Ready(facts[n + count].id)
               && writes < StatementsOf(facts, n, n + count + 1)
             case Stopped(error) =>
               && n + count < |facts| && view.Ready(facts[n + count].id)
               && Justified(view, found, facts, n + count, error)
    ensures Ends(view, batchSize, writes, found, facts, known, n, count, status)
  {
    hide Unhindered, Justified, StatementsOf;
  }

  /** With writes enough, a call judges every round that is ready, as many as it may, up to the first that is hindered,
      and stops exactly when that one is next. */
  lemma {:induction false} JudgesAllItCan(view: View, batchSize: nat, writes: nat, found: Decisions, facts: Facts,
                                          known: nat, n: nat, count: nat, status: Status)
    requires Ends(view, batchSize, writes, found, facts, known, n, count, status)
    requires n + count < |facts| ==> writes >= StatementsOf(facts, n, n + count + 1)
    ensures count < batchSize && n + count < known && view.Ready(facts[n + count].id) ==>
              status.Stopped? && !Unhindered(view, found, facts, n + count)
    ensures status.Stopped? ==> n + count < |facts| && !Unhindered(view, found, facts, n + count)
  {
    hide Unhindered, Justified;
    if n + count < |facts| {
      UnhinderedOrJustified(view, found, facts, n + count);
    }
  }

  // ----- Every run -----------------------------------------------------------------------------

  /** One life of the process: what others wrote before it, what it reads, how much it may judge, and after how many
      writes it dies. Stakes may be any at all in each life. */
  datatype Life = Life(rows: Decisions, amounts: Amounts, view: View, batchSize: nat, writes: nat)

  datatype Report = Report(count: nat, status: Status)

  /** The indexer only gets further ahead. */
  ghost predicate Growing(lives: seq<Life>, facts: Facts, known: seq<nat>) {
    && |known| == |lives|
    && (forall i | 0 <= i < |lives| :: Fixes(lives[i].view, facts, 0, known[i]))
    && forall i, j | 0 <= i < j < |lives| :: known[i] <= known[j]
  }

  function Total(reports: seq<Report>): nat {
    if reports == [] then 0 else Total(reports[..|reports| - 1]) + reports[|reports| - 1].count
  }

  /** The tables a life found when it started and left when it ended, and the aggregator's own decisions by then. */
  datatype Passage = Passage(found: Tables, left: Tables, mine: Decisions)

  function LeftBefore(passages: seq<Passage>, i: nat): Tables
    requires i <= |passages|
  {
    if i == 0 then Tables(map[], map[], {}) else passages[i - 1].left
  }

  function MineBefore(passages: seq<Passage>, i: nat): Decisions
    requires i <= |passages|
  {
    if i == 0 then map[] else passages[i - 1].mine
  }

  /** A life finds what the one before it left and others made of it, and adds nothing but decisions of its own. */
  ghost predicate Passes(lives: seq<Life>, passages: seq<Passage>, i: nat)
    requires i < |lives| && i < |passages|
  {
    var left := LeftBefore(passages, i);
    && passages[i].found == left.(slashings := Meddled(left.slashings, lives[i].rows, lives[i].amounts))
    && Adds(passages[i].found.slashings, passages[i].left.slashings, MineBefore(passages, i), passages[i].mine)
  }

  ghost predicate AllPass(lives: seq<Life>, passages: seq<Passage>) {
    |passages| <= |lives| && forall i | 0 <= i < |passages| :: Passes(lives, passages, i)
  }

  /** Why each life judged no more, told from the tables it found. */
  ghost predicate AllEnd(lives: seq<Life>, passages: seq<Passage>, facts: Facts, known: seq<nat>,
                         reports: seq<Report>) {
    && |reports| == |passages| <= |lives| == |known|
    && forall i | 0 <= i < |reports| ::
         Ends(lives[i].view, lives[i].batchSize, lives[i].writes, passages[i].found.slashings, facts, known[i],
              Total(reports[..i]), reports[i].count, reports[i].status)
  }

  /** Every stake a decision was taken from is one some life read. */
  ghost predicate StakesSeen(lives: seq<Life>, stakeOf: Amounts) {
    forall key | key in stakeOf ::
      exists i :: 0 <= i < |lives| && key.node in lives[i].view.stakes && lives[i].view.stakes[key.node] == stakeOf[key]
  }

  lemma {:induction false} NoneEnded(lives: seq<Life>, facts: Facts, known: seq<nat>)
    requires |known| == |lives|
    ensures AllEnd(lives, [], facts, known, []) && AllPass(lives, []) && StakesSeen(lives, map[])
  {
  }

  lemma {:induction false} OneMoreEnds(lives: seq<Life>, passages: seq<Passage>, p: Passage, facts: Facts,
                                       known: seq<nat>, reports: seq<Report>, r: Report)
    requires AllEnd(lives, passages, facts, known, reports) && |reports| < |lives|
    requires var life := lives[|reports|];
             Ends(life.view, life.batchSize, life.writes, p.found.slashings, facts, known[|reports|], Total(reports),
                  r.count, r.status)
    ensures AllEnd(lives, passages + [p], facts, known, reports + [r])
    ensures Total(reports + [r]) == Total(reports) + r.count
  {
    hide Ends;
    var all, through := reports + [r], passages + [p];
    assert all[..|reports|] == reports;
    forall i | 0 <= i < |all|
      ensures Ends(lives[i].view, lives[i].batchSize, lives[i].writes, through[i].found.slashings, facts, known[i],
                   Total(all[..i]), all[i].count, all[i].status)
    {
      assert all[..i] == if i < |reports| then reports[..i] else reports;
    }
  }

  lemma {:induction false} OneMorePasses(lives: seq<Life>, passages: seq<Passage>, p: Passage)
    requires AllPass(lives, passages) && |passages| < |lives|
    requires var left, life := LeftBefore(passages, |passages|), lives[|passages|];
             && p.found == left.(slashings := Meddled(left.slashings, life.rows, life.amounts))
             && Adds(p.found.slashings, p.left.slashings, MineBefore(passages, |passages|), p.mine)
    ensures AllPass(lives, passages + [p])
  {
    hide Adds, Meddled;
    var all := passages + [p];
    forall i | 0 <= i < |all| ensures Passes(lives, all, i) {
      assert LeftBefore(all, i) == LeftBefore(passages, i) && MineBefore(all, i) == MineBefore(passages, i);
      assert i < |passages| ==> Passes(lives, passages, i);
    }
  }

  lemma {:induction false} MoreStakesSeen(lives: seq<Life>, i: nat, before: Amounts, after: Amounts)
    requires i < |lives| && StakesSeen(lives, before) && StakesFrom(lives[i].view, before, after)
    ensures StakesSeen(lives, after)
  {
  }

  lemma {:induction false} NothingDone(facts: Facts)
    ensures At(Tables(map[], map[], {}), map[], map[], facts, 0, 0)
  {
  }

  /** Any number of lives, each dying after any number of writes, with anything happening to stakes and to others'
      slashes between them: the tables are at a crash point of one pass over the rounds in ascending order, every
      decision recorded is that pass's for a stake some life read, no row is there that neither the aggregator nor
      someone else wrote, and no life stops judging without a reason in the tables it found. */
  method Run(lives: seq<Life>, ghost facts: Facts, ghost known: seq<nat>)
    returns (a: Aggregator, reports: seq<Report>, ghost passages: seq<Passage>, ghost k: nat)
    requires WellFormed(facts) && Growing(lives, facts, known)
    ensures fresh(a) && |reports| == |passages| == |lives|
    ensures a.AtPoint(facts, Total(reports), k)
    ensures AllPass(lives, passages) && a.Contents() == LeftBefore(passages, |lives|)
    ensures a.mine == MineBefore(passages, |lives|)
    ensures AllEnd(lives, passages, facts, known, reports) && StakesSeen(lives, a.stakeOf)
  {
    hide At, WellFormed, AllEnd, AllPass, StakesSeen, Fixes, Adds, StakesFrom, Ends, Meddled, ReasonsStay;
    a := new Aggregator();
    reports, passages, k := [], [], 0;
    NothingDone(facts);
    NoneEnded(lives, facts, known);
    for i := 0 to |lives|
      invariant fresh(a) && |reports| == |passages| == i && a.AtPoint(facts, Total(reports), k)
      invariant Total(reports) == 0 || (i > 0 && Total(reports) <= known[i - 1])
      invariant AllPass(lives, passages) && a.Contents() == LeftBefore(passages, i) && a.mine == MineBefore(passages, i)
      invariant AllEnd(lives, passages, facts, known, reports) && StakesSeen(lives, a.stakeOf)
    {
      ghost var start := a.Contents();
      a.OthersWrite(lives[i].rows, lives[i].amounts);
      OthersKeepThePoint(start, a.slashings, a.mine, a.stakeOf, facts, Total(reports), k);
      a.writesLeft := lives[i].writes;
      ghost var found, stakes := a.Contents(), a.stakeOf;
      FixesFrom(lives[i].view, facts, Total(reports), known[i]);
      var count, status;
      count, status, k := a.JudgeMisses(lives[i].view, lives[i].batchSize, known[i], facts, Total(reports), k);
      ghost var passage := Passage(found, a.Contents(), a.mine);
      OneMoreEnds(lives, passages, passage, facts, known, reports, Report(count, status));
      OneMorePasses(lives, passages, passage);
      MoreStakesSeen(lives, i, stakes, a.stakeOf);
      reports, passages := reports + [Report(count, status)], passages + [passage];
    }
  }

  // ----- What a run has recorded ---------------------------------------------------------------

  /** No round is judged before a lower one. */
  lemma {:induction false} JudgedInOrder(t: Tables, mine: Decisions, stakeOf: Amounts, facts: Facts,
                                         n: nat, k: nat, i: nat, j: nat)
    requires WellFormed(facts) && At(t, mine, stakeOf, facts, n, k) && i < j < |facts| && facts[j].id in t.judged
    ensures facts[i].id in t.judged
  {
    var l :| 0 <= l < n && facts[l].id == facts[j].id;
    assert l == j;
  }

  /** Nor is a decision taken before every outcome of its round is recorded, and a judged round's are its verdicts. */
  lemma {:induction false} JudgedOutcomes(t: Tables, mine: Decisions, stakeOf: Amounts, facts: Facts,
                                          n: nat, k: nat, i: nat, j: nat)
    requires WellFormed(facts) && At(t, mine, stakeOf, facts, n, k) && i < |facts| && j < |facts[i].verdicts|
    requires facts[i].id in t.judged || exists key :: key in mine && key.round == facts[i].id
    ensures KeyOf(facts, i, j) in t.outcomes && t.outcomes[KeyOf(facts, i, j)] == RowOf(facts, i, j)
  {
    hide OutcomesAt, Own, Decided;
    SameRound(t, mine, stakeOf, facts, n, k, i);
    OutcomeThere(facts, n, k, i, j);
  }

  lemma {:induction false} SameRound(t: Tables, mine: Decisions, stakeOf: Amounts, facts: Facts,
                                     n: nat, k: nat, i: nat)
    requires WellFormed(facts) && At(t, mine, stakeOf, facts, n, k) && i < |facts|
    requires facts[i].id in t.judged || exists key :: key in mine && key.round == facts[i].id
    ensures i < n || (i == n && k == |facts[n].verdicts|)
  {
    if facts[i].id in t.judged {
      var l :| 0 <= l < n && facts[l].id == facts[i].id;
      assert l == i;
    } else {
      var key :| key in mine && key.round == facts[i].id;
      var l :| 0 <= l < |facts| && (l < n || (l == n && k == |facts[n].verdicts|))
          && Own(t, mine, stakeOf, facts, l, key);
      assert l == i;
    }
  }

  /** A judged round's decisions are exactly what its misses cost: one for each missing node whose stake makes it more
      than nothing, unless someone else holds its row, and then for the same reason. */
  lemma {:induction false} JudgedDecisions(t: Tables, mine: Decisions, stakeOf: Amounts, facts: Facts,
                                           n: nat, k: nat, i: nat, node: Node)
    requires WellFormed(facts) && At(t, mine, stakeOf, facts, n, k) && i < n
    ensures var key := RoundNode(facts[i].id, node);
            && (Missing(facts, i, node) ==> key in stakeOf)
            && (key in mine ==>
                Missing(facts, i, node) && mine[key] == Cost(facts, i, node, stakeOf[key]) && mine[key].amount > 0)
            && (key in mine ==> key in t.slashings && t.slashings[key].reason == mine[key].reason)
            && (Missing(facts, i, node) && Cost(facts, i, node, stakeOf[key]).amount > 0 ==>
                  key in t.slashings && t.slashings[key].reason == PenaltyDue(facts, i, node).reason)
  {
    AtIsPoint(t, mine, stakeOf, facts, n, k);
    hide At, OutcomesAt, PenaltyDue, Missing;
    var key := RoundNode(facts[i].id, node);
    if Missing(facts, i, node) {
      MissIsDecided(t, mine, stakeOf, facts, n, k, i, node);
    }
    if key in mine {
      OwnRound(t, mine, stakeOf, facts, n, k, i, key);
    }
  }

  /** A node's verdict, if it has one. */
  function OutcomeIn(verdicts: seq<Verdict>, node: Node): seq<Outcome> {
    if verdicts == [] then []
    else if verdicts[|verdicts| - 1].node == node then [verdicts[|verdicts| - 1].outcome]
    else OutcomeIn(verdicts[..|verdicts| - 1], node)
  }

  /** A node's outcomes in the first `n` rounds, read off the verdicts. */
  function OutcomesOf(facts: Facts, n: nat, node: Node): seq<Outcome>
    requires n <= |facts|
  {
    if n == 0 then [] else OutcomesOf(facts, n - 1, node) + OutcomeIn(facts[n - 1].verdicts, node)
  }

  lemma {:induction false} OutcomeInIs(verdicts: seq<Verdict>, node: Node, j: nat)
    requires Distinct(verdicts) && j < |verdicts|
    ensures verdicts[j].node == node ==> OutcomeIn(verdicts, node) == [verdicts[j].outcome]
    ensures OutcomeIn(verdicts, node) != [] ==> Mentions(verdicts, node)
    decreases |verdicts|
  {
    var n := |verdicts| - 1;
    assert verdicts[n] in verdicts && forall v | v in verdicts[..n] :: v in verdicts;
    assert j < n ==> verdicts[j].node != verdicts[n].node;
    if n > 0 {
      OutcomeInIs(verdicts[..n], node, if j < n then j else 0);
      if verdicts[n].node != node && OutcomeIn(verdicts[..n], node) != [] {
        var v :| v in verdicts[..n] && v.node == node;
        assert v in verdicts;
      }
    }
  }

  lemma {:induction false} HistoriesAgree(a: map<RoundNode, OutcomeRow>, b: map<RoundNode, OutcomeRow>, node: Node,
                                          n: nat)
    requires forall r: nat | r < n :: var key := RoundNode(r, node);
               (key in a <==> key in b) && (key in a ==> a[key] == b[key])
    ensures History(a, node, n) == History(b, node, n)
  {
    if n > 0 { HistoriesAgree(a, b, node, n - 1); }
  }

  /** What the outcome table says of a node, in round order, is what the verdicts say. */
  lemma {:induction false} HistoryIsTheVerdicts(facts: Facts, n: nat, node: Node, below: nat)
    requires WellFormed(facts) && n <= |facts| && forall i | 0 <= i < n :: facts[i].id < below
    ensures History(OutcomesAt(facts, n, 0), node, below) == OutcomesOf(facts, n, node)
  {
    if n == 0 {
      NoHistory(node, below);
    } else {
      var f, after := facts[n - 1], OutcomesAt(facts, n, 0);
      var before := OutcomesAt(facts, n - 1, 0);
      assert forall i | 0 <= i < n - 1 :: facts[i].id < f.id;
      HistoryIsTheVerdicts(facts, n - 1, node, f.id);
      OutcomesAreBelow(facts, n - 1);
      OnlyThisRound(facts, n, node);
      HistoriesAgree(after, before, node, f.id);
      assert Bounds(after, f.id + 1);
      HistoryIgnoresTheBound(after, node, f.id + 1, below);
    }
  }

  lemma {:induction false} NoHistory(node: Node, below: nat)
    ensures History(map[], node, below) == []
  {
    if below > 0 { NoHistory(node, below - 1); }
  }

  /** A round adds its own outcomes and leaves the earlier ones. */
  lemma {:induction false} OnlyThisRound(facts: Facts, n: nat, node: Node)
    requires WellFormed(facts) && 0 < n <= |facts|
    ensures var f, after, before := facts[n - 1], OutcomesAt(facts, n, 0), OutcomesAt(facts, n - 1, 0);
            var key := RoundNode(f.id, node);
            && OutcomeIn(f.verdicts, node) == (if key in after then [after[key].outcome] else [])
            && forall r: nat | r < f.id ::
                 (RoundNode(r, node) in after <==> RoundNode(r, node) in before)
                 && (RoundNode(r, node) in after ==> after[RoundNode(r, node)] == before[RoundNode(r, node)])
  {
    var f, after, before := facts[n - 1], OutcomesAt(facts, n, 0), OutcomesAt(facts, n - 1, 0);
    assert OutcomesAt(facts, n, 0) == OutcomesAt(facts, n - 1, |f.verdicts|);
    var key := RoundNode(f.id, node);
    hide OutcomesAt;
    assert forall l | 0 <= l < n - 1 :: facts[l].id < f.id;
    if key in after {
      var i, j := OutcomeFrom(facts, n, 0, key);
      OutcomeThere(facts, n, 0, i, j);
      OutcomeInIs(f.verdicts, node, j);
    }
    if OutcomeIn(f.verdicts, node) != [] {
      OutcomeInIs(f.verdicts, node, 0);
      var v :| v in f.verdicts && v.node == node;
      var j :| 0 <= j < |f.verdicts| && f.verdicts[j] == v;
      OutcomeThere(facts, n, 0, n - 1, j);
    }
    forall r: nat | r < f.id
      ensures RoundNode(r, node) in after <==> RoundNode(r, node) in before
      ensures RoundNode(r, node) in after ==> after[RoundNode(r, node)] == before[RoundNode(r, node)]
    {
      var k := RoundNode(r, node);
      if k in after {
        var i, j := OutcomeFrom(facts, n, 0, k);
        OutcomeThere(facts, n, 0, i, j);
        OutcomeThere(facts, n - 1, 0, i, j);
      }
      if k in before {
        var i, j := OutcomeFrom(facts, n - 1, 0, k);
        OutcomeThere(facts, n, 0, i, j);
      }
    }
  }

  /** What is written for a judged round, in numbers: half a percent of the stake for a miss, ten percent for every
      third since the node last submitted, rounded down. A miss goes without a row only when that comes to less than
      one. */
  lemma {:induction false} SlashesInNumbers(t: Tables, mine: Decisions, stakeOf: Amounts, facts: Facts,
                                            n: nat, k: nat, i: nat, node: Node)
    requires WellFormed(facts) && At(t, mine, stakeOf, facts, n, k) && i < n
    ensures var key, missed := RoundNode(facts[i].id, node), OutcomeIn(facts[i].verdicts, node) == [Missed];
            var third := MissesSinceSubmission(OutcomesOf(facts, i + 1, node)) % 3 == 0;
            var bps, reason := if third then 1000 else 50, if third then ConsecutiveMisses else MissedRound;
            && (key in mine || missed ==> key in stakeOf)
            && (key in mine ==>
                  && missed && mine[key].reason == reason && 0 < mine[key].amount
                  && mine[key].amount * 10_000 <= stakeOf[key] * bps < (mine[key].amount + 1) * 10_000)
            && (missed && stakeOf[key] * bps >= 10_000 ==>
                  key in t.slashings && t.slashings[key].reason == reason)
  {
    var key := RoundNode(facts[i].id, node);
    JudgedDecisions(t, mine, stakeOf, facts, n, k, i, node);
    MissingIs(facts, i, node);
    assert forall l | 0 <= l < i + 1 :: facts[l].id < facts[i].id + 1;
    HistoryIsTheVerdicts(facts, i + 1, node, facts[i].id + 1);
    hide At, Missing, OutcomesAt, OutcomesOf, OutcomeIn, MissesSinceSubmission, History;
    if key in stakeOf {
      FloorOf(stakeOf[key] * 1000);
      FloorOf(stakeOf[key] * 50);
    }
  }

  lemma FloorOf(n: nat)
    ensures n / 10_000 * 10_000 <= n < (n / 10_000 + 1) * 10_000
  {
  }

  lemma {:induction false} MissingIs(facts: Facts, i: nat, node: Node)
    requires WellFormed(facts) && i < |facts|
    ensures Missing(facts, i, node) <==> OutcomeIn(facts[i].verdicts, node) == [Missed]
  {
    var vs := facts[i].verdicts;
    if Missing(facts, i, node) {
      var j :| 0 <= j < |vs| && vs[j].node == node && vs[j].outcome == Missed;
      OutcomeInIs(vs, node, j);
    }
    if OutcomeIn(vs, node) == [Missed] {
      OutcomeInIs(vs, node, 0);
      var v :| v in vs && v.node == node;
      var j :| 0 <= j < |vs| && vs[j] == v;
      OutcomeInIs(vs, node, j);
    }
  }

  lemma {:induction false} MissIsDecided(t: Tables, mine: Decisions, stakeOf: Amounts, facts: Facts,
                                         n: nat, k: nat, i: nat, node: Node)
    requires At(t, mine, stakeOf, facts, n, k) && i < n && Missing(facts, i, node)
    ensures Decided(t, stakeOf, facts, i, node)
  {
  }

  lemma {:induction false} OwnRound(t: Tables, mine: Decisions, stakeOf: Amounts, facts: Facts,
                                    n: nat, k: nat, i: nat, key: RoundNode)
    requires WellFormed(facts) && At(t, mine, stakeOf, facts, n, k) && i < |facts| && key in mine
    requires key.round == facts[i].id
    ensures Own(t, mine, stakeOf, facts, i, key)
  {
    var l: nat :| (l < n || (l == n && n < |facts| && k == |facts[n].verdicts|))
        && Own(t, mine, stakeOf, facts, l, key);
    assert facts[l].id == facts[i].id;
  }

  /** A judged (node, round) key that nobody else wrote. */
  ghost predicate OnlyMine(t: Tables, mine: Decisions, facts: Facts, n: nat)
    requires n <= |facts|
  {
    forall key | key in t.slashings && key.round in Ids(facts, n) :: key in mine
  }

  /** Every row there is was recorded by the aggregator or written by others before some life. */
  lemma {:induction false} RowsAreKnown(lives: seq<Life>, passages: seq<Passage>, n: nat, key: RoundNode)
    requires AllPass(lives, passages) && n <= |passages| && key in LeftBefore(passages, n).slashings
    ensures key in MineBefore(passages, n) || exists i :: 0 <= i < n && key in lives[i].rows
  {
    if n > 0 {
      assert Passes(lives, passages, n - 1);
      if key in LeftBefore(passages, n - 1).slashings {
        RowsAreKnown(lives, passages, n - 1, key);
      }
    }
  }

  /** Two runs over the same rounds, one of them uninterrupted if you like, that took decisions from the same stakes and
      met no one else's rows: the rounds judged in both have the same outcomes and the same decisions. */
  lemma {:induction false} CrashesLeaveNoTrace(t: Tables, mine: Decisions, u: Tables, yours: Decisions,
                                               stakeOf: Amounts, stakesOf: Amounts, facts: Facts,
                                               n: nat, k: nat, m: nat, l: nat, i: nat, node: Node)
    requires WellFormed(facts) && At(t, mine, stakeOf, facts, n, k) && At(u, yours, stakesOf, facts, m, l) && i < n
    requires i < m
    requires OnlyMine(t, mine, facts, n) && OnlyMine(u, yours, facts, m)
    requires var key := RoundNode(facts[i].id, node); key in stakeOf && key in stakesOf ==>
             stakeOf[key] == stakesOf[key]
    ensures AgreeOn(t, mine, u, yours, RoundNode(facts[i].id, node))
  {
    hide OutcomesAt, Cost, PenaltyDue, Missing, Own, Decided;
    var key := RoundNode(facts[i].id, node);
    assert facts[i].id in Ids(facts, n) && facts[i].id in Ids(facts, m);
    JudgedDecisions(t, mine, stakeOf, facts, n, k, i, node);
    JudgedDecisions(u, yours, stakesOf, facts, m, l, i, node);
    if key in t.outcomes { SameOutcome(facts, n, k, m, l, i, key); }
    if key in u.outcomes { SameOutcome(facts, m, l, n, k, i, key); }
  }

  /** What two runs without others' slashes agree on: everything recorded for the rounds judged in both. */
  ghost predicate Agree(t: Tables, mine: Decisions, u: Tables, yours: Decisions, facts: Facts) {
    forall i, node | 0 <= i < |facts| && facts[i].id in t.judged && facts[i].id in u.judged ::
      AgreeOn(t, mine, u, yours, RoundNode(facts[i].id, node))
  }

  ghost predicate AgreeOn(t: Tables, mine: Decisions, u: Tables, yours: Decisions, key: RoundNode) {
    && (key in t.outcomes <==> key in u.outcomes) && (key in t.outcomes ==> t.outcomes[key] == u.outcomes[key])
    && (key in mine <==> key in yours) && (key in mine ==> mine[key] == yours[key])
    && (key in t.slashings <==> key in u.slashings)
    && (key in t.slashings ==> key in mine && t.slashings[key].reason == u.slashings[key].reason)
  }

  /** Nobody else writes slashes, and no node's stake is read as two different amounts. */
  ghost predicate Undisturbed(lives: seq<Life>, others: seq<Life>) {
    && (forall i | 0 <= i < |lives| :: lives[i].rows == map[])
    && (forall i | 0 <= i < |others| :: others[i].rows == map[])
    && forall i, j, node | 0 <= i < |lives| && 0 <= j < |others| && node in lives[i].view.stakes
        && node in others[j].view.stakes ::
         lives[i].view.stakes[node] == others[j].view.stakes[node]
  }

  /** However two undisturbed runs are cut into lives and wherever those die, they record the same. */
  method RunsAgree(lives: seq<Life>, others: seq<Life>, ghost facts: Facts, ghost known: seq<nat>,
                   ghost known': seq<nat>)
    returns (a: Aggregator, b: Aggregator)
    requires WellFormed(facts) && Growing(lives, facts, known) && Growing(others, facts, known')
    requires Undisturbed(lives, others)
    ensures Agree(a.Contents(), a.mine, b.Contents(), b.mine, facts)
  {
    hide At, WellFormed, Growing, AllPass, AllEnd, StakesSeen, Undisturbed;
    var reports, reports';
    ghost var passages, passages', k, k';
    a, reports, passages, k := Run(lives, facts, known);
    ghost var t, mine, stakeOf := a.Contents(), a.mine, a.stakeOf;
    b, reports', passages', k' := Run(others, facts, known');
    AgreeAt(lives, others, passages, passages', t, mine, stakeOf, b.Contents(), b.mine, b.stakeOf, facts,
            Total(reports), k, Total(reports'), k');
  }

  lemma {:induction false} AgreeAt(lives: seq<Life>, others: seq<Life>, passages: seq<Passage>, passages': seq<Passage>,
                                   t: Tables, mine: Decisions, stakeOf: Amounts, u: Tables, yours: Decisions,
                                   stakesOf: Amounts, facts: Facts, n: nat, k: nat, m: nat, l: nat)
    requires WellFormed(facts) && Undisturbed(lives, others)
    requires At(t, mine, stakeOf, facts, n, k) && At(u, yours, stakesOf, facts, m, l)
    requires StakesSeen(lives, stakeOf) && StakesSeen(others, stakesOf)
    requires |passages| == |lives| && AllPass(lives, passages) && t == LeftBefore(passages, |lives|)
    requires mine == MineBefore(passages, |lives|)
    requires |passages'| == |others| && AllPass(others, passages') && u == LeftBefore(passages', |others|)
    requires yours == MineBefore(passages', |others|)
    ensures Agree(t, mine, u, yours, facts)
  {
    hide AllPass, StakesSeen, At, WellFormed, AgreeOn;
    AtIsPoint(t, mine, stakeOf, facts, n, k);
    AtIsPoint(u, yours, stakesOf, facts, m, l);
    OnlyMineWhenUndisturbed(lives, passages, facts, n);
    OnlyMineWhenUndisturbed(others, passages', facts, m);
    forall i, node | 0 <= i < |facts| && facts[i].id in t.judged && facts[i].id in u.judged
      ensures AgreeOn(t, mine, u, yours, RoundNode(facts[i].id, node))
    {
      var key := RoundNode(facts[i].id, node);
      JudgedIsBelow(facts, n, i);
      JudgedIsBelow(facts, m, i);
      SameStakes(lives, others, stakeOf, stakesOf, key);
      CrashesLeaveNoTrace(t, mine, u, yours, stakeOf, stakesOf, facts, n, k, m, l, i, node);
    }
  }

  lemma {:induction false} JudgedIsBelow(facts: Facts, n: nat, i: nat)
    requires WellFormed(facts) && n <= |facts| && i < |facts| && facts[i].id in Ids(facts, n)
    ensures i < n
  {
    var l :| 0 <= l < n && facts[l].id == facts[i].id;
    assert l == i;
  }

  lemma {:induction false} SameStakes(lives: seq<Life>, others: seq<Life>, stakeOf: Amounts, stakesOf: Amounts,
                                      key: RoundNode)
    requires Undisturbed(lives, others) && StakesSeen(lives, stakeOf) && StakesSeen(others, stakesOf)
    ensures key in stakeOf && key in stakesOf ==> stakeOf[key] == stakesOf[key]
  {
    if key in stakeOf && key in stakesOf {
      var i :| 0 <= i < |lives| && key.node in lives[i].view.stakes && lives[i].view.stakes[key.node] == stakeOf[key];
      var j :| 0 <= j < |others| && key.node in others[j].view.stakes
          && others[j].view.stakes[key.node] == stakesOf[key];
    }
  }

  lemma {:induction false} OnlyMineWhenUndisturbed(lives: seq<Life>, passages: seq<Passage>, facts: Facts, n: nat)
    requires |passages| == |lives| && AllPass(lives, passages) && n <= |facts|
    requires forall i | 0 <= i < |lives| :: lives[i].rows == map[]
    ensures OnlyMine(LeftBefore(passages, |lives|), MineBefore(passages, |lives|), facts, n)
  {
    hide AllPass;
    forall key | key in LeftBefore(passages, |lives|).slashings ensures key in MineBefore(passages, |lives|) {
      RowsAreKnown(lives, passages, |lives|, key);
    }
  }

  lemma {:induction false} SameOutcome(facts: Facts, n: nat, k: nat, m: nat, l: nat, i: nat, key: RoundNode)
    requires WellFormed(facts) && Point(facts, n, k) && Point(facts, m, l) && i < n && i < m && key.round == facts[i].id
    requires key in OutcomesAt(facts, n, k)
    ensures key in OutcomesAt(facts, m, l) && OutcomesAt(facts, m, l)[key] == OutcomesAt(facts, n, k)[key]
  {
    var a, j := OutcomeFrom(facts, n, k, key);
    assert a == i;
    OutcomeThere(facts, n, k, i, j);
    OutcomeThere(facts, m, l, i, j);
  }

  // ----- Why the verdicts stay fixed -----------------------------------------------------------

  /** Along one lawful history of set changes, delivered with any replays, a finished round's verdicts are those of the
      events indexed when it finished, provided that each later one leaves the round alone. */
  lemma {:induction false} HistoriesFixVerdicts(view: View, fact: RoundFact, deliveries: seq<SetEvent>,
                                                events: seq<SetEvent>, later: seq<SetEvent>, first: seq<NodeInterval>)
    requires Firsts(deliveries) == events + later && Lawful(events + later) && view.rows == AppliedAll(deliveries)
    requires fact.id in view.rounds && ComeAfter(later, view.Judged(fact.id))
    requires IsSelection(first, AppliedAll(events), view.rounds[fact.id].version)
    requires fact.verdicts == Judgement(view.Judged(fact.id), first)
    ensures VerdictsFixed(view, fact)
  {
    hide Judgement, IsSelection, Lawful, AppliedAll;
    ReplayIsInvisible(deliveries);
    var round := view.Judged(fact.id);
    forall out | IsSelection(out, view.rows, round.version) ensures Judgement(round, out) == fact.verdicts {
      LaterEventsKeepVerdicts(events, later, round, first, out);
    }
  }

  /** They do when the chain's clock has gone on since the round settled or failed. */
  lemma {:induction false} FinishedRoundsStayFixed(view: View, fact: RoundFact, deliveries: seq<SetEvent>,
                                                   events: seq<SetEvent>, later: seq<SetEvent>,
                                                   first: seq<NodeInterval>)
    requires Firsts(deliveries) == events + later && Lawful(events + later) && view.rows == AppliedAll(deliveries)
    requires fact.id in view.rounds && view.rounds[fact.id].settledAt.Some?
    requires forall e | e in later ::
               e.version > view.rounds[fact.id].version
                   && (e.Deactivated? ==> e.at >= view.rounds[fact.id].settledAt.value)
    requires IsSelection(first, AppliedAll(events), view.rounds[fact.id].version)
    requires fact.verdicts == Judgement(view.Judged(fact.id), first)
    ensures VerdictsFixed(view, fact)
  {
    hide Judgement, IsSelection, Lawful, AppliedAll, VerdictsFixed;
    forall e | e in later ensures LeavesAlone(e, view.Judged(fact.id)) {
      LaterThanSettling(e, view.Judged(fact.id));
    }
    HistoriesFixVerdicts(view, fact, deliveries, events, later, first);
  }

  // ----- A round that is stuck -----------------------------------------------------------------

  const TWO_NODES: Rows := map[NodeIntervals.Key(1, 1) := Row(0, None), NodeIntervals.Key(2, 2) := Row(0, None)]
  const SECOND_MISSED := [Verdict(1, Submitted, ""), Verdict(2, Missed, "")]

  lemma {:induction false} ExampleVerdicts(round: JudgedRound, out: seq<NodeInterval>)
    requires round == JudgedRound(2, 10, Some(10), {1}) && IsSelection(out, TWO_NODES, 2)
    ensures Judgement(round, out) == SECOND_MISSED
  {
    hide Judgement;
    var a, b := NodeInterval(1, 1, None), NodeInterval(2, 2, None);
    assert NodeIntervals.Key(1, 1) in TWO_NODES && NodeIntervals.Key(2, 2) in TWO_NODES;
    assert forall iv :: iv in out <==> iv == a || iv == b;
    JudgementIsExact(round, out);
    forall v ensures v in Judgement(round, out) <==> v in SECOND_MISSED {
      assert Due(VerdictOn(round, a), round, out) && Due(VerdictOn(round, b), round, out);
    }
    AscendingIsUnique(Judgement(round, out), SECOND_MISSED);
  }

  function ExampleView(): View {
    View(map[1 := RoundRow(Settled, 2, 10, Some(10), 1)], map[1 := {1}], TWO_NODES, map[1 := 10_000, 2 := 10_000])
  }

  lemma {:induction false} ExampleIsFixed()
    ensures Fixes(ExampleView(), [RoundFact(1, SECOND_MISSED)], 0, 1) && WellFormed([RoundFact(1, SECOND_MISSED)])
  {
    var view, facts := ExampleView(), [RoundFact(1, SECOND_MISSED)];
    forall out | IsSelection(out, TWO_NODES, 2) ensures Judgement(view.Judged(1), out) == SECOND_MISSED {
      ExampleVerdicts(view.Judged(1), out);
    }
    hide Judgement, IsSelection;
    assert VerdictsFixed(view, facts[0]);
    assert Ids(facts, 1) == {1};
  }

  lemma {:induction false} MissesAre(facts: Facts)
    requires facts == [RoundFact(1, SECOND_MISSED)]
    ensures forall node :: Missing(facts, 0, node) ==> node == 2
  {
  }

  /** A round that clashes, with known stakes and writes to spare, can only end in the clash. */
  lemma {:induction false} ExampleStops(slashings: Decisions, count: nat, status: Status)
    requires Ends(ExampleView(), 5, 100, slashings, [RoundFact(1, SECOND_MISSED)], 1, 0, count, status)
    requires Clash(ExampleView(), slashings, [RoundFact(1, SECOND_MISSED)], 0, 2)
    ensures count == 0 && status == Stopped(DuplicateSlash)
  {
    var view, facts := ExampleView(), [RoundFact(1, SECOND_MISSED)];
    assert StatementsOf(facts, 0, 1) == StatementsOf(facts, 0, 0) + Statements(facts[0]);
    assert view.Ready(1);
    MissesAre(facts);
    hide Cost, Clash, Missing;
    assert forall node :: !Unknown(view, facts, 0, node);
    assert !Unhindered(view, slashings, facts, 0);
    assert count == 0 && status.Stopped?;
  }

  /** Nodes 1 and 2 are active, 1 submits to round 1, and 2 misses it with an outlier slash already on its key: judging
      stops there, and reports why. */
  method StoppedByAnotherReason() returns (count: nat, status: Status)
    ensures count == 0 && status == Stopped(DuplicateSlash)
  {
    hide At, Ends, Fixes, WellFormed, Adds, StakesFrom;
    ghost var facts := [RoundFact(1, SECOND_MISSED)];
    ExampleIsFixed();
    NothingDone(facts);
    var a := new Aggregator();
    a.OthersWrite(map[RoundNode(1, 2) := Decision(Other("OUTLIER"), 1)], map[]);
    OthersKeepThePoint(Tables(map[], map[], {}), a.slashings, map[], map[], facts, 0, 0);
    a.writesLeft := 100;
    ghost var found := a.slashings;
    assert RoundNode(1, 2) in found && found[RoundNode(1, 2)].reason == Other("OUTLIER");
    ExampleClashes(found);
    ghost var k;
    count, status, k := a.JudgeMisses(ExampleView(), 5, 1, facts, 0, 0);
    ExampleStops(found, count, status);
  }

  lemma {:induction false} ExampleClashes(slashings: Decisions)
    requires RoundNode(1, 2) in slashings && slashings[RoundNode(1, 2)].reason == Other("OUTLIER")
    ensures Clash(ExampleView(), slashings, [RoundFact(1, SECOND_MISSED)], 0, 2)
  {
    var facts := [RoundFact(1, SECOND_MISSED)];
    assert facts[0].verdicts[1].node == 2 && facts[0].verdicts[1].outcome == Missed;
    assert Missing(facts, 0, 2);
    hide UpTo, MissesSinceSubmission;
  }
}
