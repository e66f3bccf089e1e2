/** The governance store: proposals that move through guarded states, votes whose tallies are recomputed, and actions
    received and closed on another chain. Every call may be replayed or arrive out of order. */
module Governance {
  import opened Options

  datatype State = Pending | Active | Succeeded | Defeated | Queued | Dispatched | Executed | Failed | Cancelled

  /** How far along a state is. No guarded update goes from a higher rank to a lower one. */
  function Rank(s: State): nat {
    match s
    case Pending | Active | Succeeded => 0
    case Queued => 1
    case Defeated | Dispatched | Failed => 2
    case Executed | Cancelled => 3
  }

  /** A proposal or action is named by its chain and a number; an event by its chain, transaction and log index. */
  type Id = (int, int)
  type EventKey = (int, string, nat)

  datatype Tally = Tally(against: int, inFavour: int, abstain: int)

  datatype Proposal = Proposal(proposer: string, target: string, targetChain: int, state: State, operation: Option<int>,
                               executableAt: Option<int>, tally: Tally)

  datatype Vote = Vote(txHash: string, logIndex: nat, proposal: Id, voter: string, support: nat, weight: int) {
    /** The vote is on its proposal's chain. */
    function Key(): EventKey {
      (proposal.0, txHash, logIndex)
    }
  }

  datatype Status = Waiting | Closed(executed: bool, at: int, closedBy: string)

  /** A message on the chain that runs it: (chain, emitter chain, sequence). */
  type MessageId = (int, int, int)

  datatype Action = Action(sourceChain: int, operation: int, target: string, declaredValue: int, receivedAt: int,
                           status: Status)

  datatype Tables = Tables(proposals: map<Id, Proposal>, votes: seq<Vote>, actions: map<MessageId, Action>)

  datatype Event =
    | Created(id: Id, proposer: string, target: string, targetChain: int, value: int)
    | Cast(vote: Vote)
    | Queue(id: Id, operation: int, executableAt: int)
    | Dispatch(id: Id)
    | Execute(id: Id)
    | Cancel(id: Id)
    | Receive(message: MessageId, action: Action)
    | Close(message: MessageId, executed: bool, at: int, closedBy: string)

  datatype Error = CheckViolated | AlreadyVoted | NoProposal | NeverReceived

  // ----- Tallies -------------------------------------------------------------------------------

  /** SUM(weight) FILTER (WHERE support = ...) over one proposal's votes. */
  function Sum(votes: seq<Vote>, id: Id, support: nat): int {
    if votes == [] then 0
    else
      var v := votes[|votes| - 1];
      Sum(votes[..|votes| - 1], id, support) + if v.proposal == id && v.support == support then v.weight else 0
  }

  function TallyOf(votes: seq<Vote>, id: Id): Tally {
    Tally(Sum(votes, id, 0), Sum(votes, id, 1), Sum(votes, id, 2))
  }

  function Total(votes: seq<Vote>, id: Id): int {
    if votes == [] then 0
    else
      var v := votes[|votes| - 1];
      Total(votes[..|votes| - 1], id) + if v.proposal == id then v.weight else 0
  }

  // ----- One call ------------------------------------------------------------------------------

  predicate MayQueue(s: State) {
    s == Pending || s == Active || s == Succeeded
  }

  /** The row a guarded update leaves: unchanged when the guard does not match. */
  function Moved(p: Proposal, e: Event): Proposal {
    match e
    case Queue(_, operation, executableAt) =>
      if !MayQueue(p.state) then p
      else p.(state := Queued, operation := Some(operation), executableAt := Some(executableAt))
    case Dispatch(_) => if p.state == Queued then p.(state := Dispatched) else p
    case Execute(_) => if p.state == Queued || p.state == Dispatched then p.(state := State.Executed) else p
    case Cancel(_) => if p.state == State.Executed || p.state == Cancelled then p else p.(state := Cancelled)
    case _ => p
  }

  predicate VoteAllowed(v: Vote) {
    v.support <= 2 && v.weight > 0
  }

  predicate HasKey(votes: seq<Vote>, key: EventKey) {
    exists v :: v in votes && v.Key() == key
  }

  predicate HasVoted(votes: seq<Vote>, id: Id, voter: string) {
    exists v :: v in votes && v.proposal == id && v.voter == voter
  }

  function Retallied(t: Tables, id: Id): Tables {
    if id in t.proposals then t.(proposals := t.proposals[id := t.proposals[id].(tally := TallyOf(t.votes, id))]) else t
  }

  /** INSERT ... ON CONFLICT (chain_id, tx_hash, log_index) DO NOTHING, under the table's checks, unique keys and
      foreign key, then the retally. */
  function Voted(t: Tables, v: Vote): Result<Tables, Error> {
    if !VoteAllowed(v) then Err(CheckViolated)
    else if HasKey(t.votes, v.Key()) then Ok(Retallied(t, v.proposal))
    else if HasVoted(t.votes, v.proposal, v.voter) then Err(AlreadyVoted)
    else if v.proposal !in t.proposals then Err(NoProposal)
    else Ok(Retallied(t.(votes := t.votes + [v]), v.proposal))
  }

  function Applied(t: Tables, e: Event): Result<Tables, Error> {
    match e
    case Created(id, proposer, target, targetChain, value) =>
      if id.1 <= 0 || value < 0 then Err(CheckViolated)
      else if id in t.proposals then Ok(t)
      else
        var p := Proposal(proposer, target, targetChain, Pending, None, None, Tally(0, 0, 0));
        Ok(t.(proposals := t.proposals[id := p]))
    case Cast(v) => Voted(t, v)
    case Receive(message, action) =>
      if !(0 <= message.1 <= 65535) || message.2 < 0 || action.operation <= 0
          || action.declaredValue < 0 then Err(CheckViolated)
      else if message in t.actions then Ok(t)
      else Ok(t.(actions := t.actions[message := action.(status := Waiting)]))
    case Close(message, executed, at, closedBy) =>
      if message !in t.actions then Err(NeverReceived)
      else if t.actions[message].status.Closed? then Ok(t)
      else Ok(t.(actions := t.actions[message := t.actions[message].(status := Closed(executed, at, closedBy))]))
    case Queue(id, operation, _) =>
      if id !in t.proposals || !MayQueue(t.proposals[id].state) then Ok(t)
      else if operation <= 0 then Err(CheckViolated)
      else Ok(t.(proposals := t.proposals[id := Moved(t.proposals[id], e)]))
    case _ =>
      if e.id !in t.proposals then Ok(t) else Ok(t.(proposals := t.proposals[e.id := Moved(t.proposals[e.id], e)]))
  }

  /** A failed call is rolled back. */
  function After(t: Tables, e: Event): Tables {
    match Applied(t, e)
    case Ok(after) => after
    case Err(_) => t
  }

  function AfterFrom(t: Tables, events: seq<Event>): Tables {
    if events == [] then t else After(AfterFrom(t, events[..|events| - 1]), events[|events| - 1])
  }

  const EMPTY := Tables(map[], [], map[])

  // ----- What every sequence of calls keeps ----------------------------------------------------

  /** The states a proposal can reach: nothing writes the others. An operation is given when it is queued. */
  predicate Reached(p: Proposal) {
    && (p.state == Pending || p.state == Queued || p.state == Dispatched || p.state == State.Executed
        || p.state == Cancelled)
    && (p.state == Pending ==> p.operation.None?)
  }

  ghost predicate TalliesOk(t: Tables) {
    forall id | id in t.proposals :: t.proposals[id].tally == TallyOf(t.votes, id)
  }

  ghost predicate VotesOk(t: Tables) {
    && (forall i | 0 <= i < |t.votes| :: VoteAllowed(t.votes[i]) && t.votes[i].proposal in t.proposals)
    && (forall i, j | 0 <= i < j < |t.votes| :: t.votes[i].Key() != t.votes[j].Key())
    && (forall i, j | 0 <= i < j < |t.votes| && t.votes[i].proposal == t.votes[j].proposal ::
        t.votes[i].voter != t.votes[j].voter)
  }

  ghost predicate Valid(t: Tables) {
    TalliesOk(t) && VotesOk(t) && forall id | id in t.proposals :: Reached(t.proposals[id])
  }

  lemma {:induction false} OtherVotesDoNotCount(votes: seq<Vote>, id: Id, support: nat)
    requires forall i | 0 <= i < |votes| :: votes[i].proposal != id
    ensures Sum(votes, id, support) == 0
  {
    if votes != [] {
      OtherVotesDoNotCount(votes[..|votes| - 1], id, support);
    }
  }

  lemma RetallyKeeps(t: Tables, v: Vote)
    requires TalliesOk(t)
    ensures TalliesOk(Retallied(t, v.proposal)) && Retallied(t, v.proposal) == t
    ensures TalliesOk(Retallied(t.(votes := t.votes + [v]), v.proposal))
  {
  }

  lemma VoteKeeps(t: Tables, v: Vote)
    requires Valid(t)
    ensures Valid(After(t, Cast(v)))
  {
    RetallyKeeps(t, v);
    var votes := t.votes + [v];
    if Voted(t, v).Ok? && !HasKey(t.votes, v.Key()) {
      forall i | 0 <= i < |t.votes|
        ensures t.votes[i].Key() != v.Key() && !(t.votes[i].proposal == v.proposal && t.votes[i].voter == v.voter)
      {
        assert t.votes[i] in t.votes;
      }
      assert VotesOk(t.(votes := votes));
    }
    hide TalliesOk, TallyOf, Sum;
  }

  lemma CreationKeeps(t: Tables, e: Event)
    requires Valid(t) && e.Created?
    ensures Valid(After(t, e))
  {
    if e.id !in t.proposals {
      OtherVotesDoNotCount(t.votes, e.id, 0);
      OtherVotesDoNotCount(t.votes, e.id, 1);
      OtherVotesDoNotCount(t.votes, e.id, 2);
    }
    hide Sum;
  }

  lemma StepKeeps(t: Tables, e: Event)
    requires Valid(t)
    ensures Valid(After(t, e))
  {
    if e.Cast? {
      VoteKeeps(t, e.vote);
      hide Valid;
    } else if e.Created? {
      CreationKeeps(t, e);
      hide Valid;
    } else {
      hide TallyOf, Retallied, Voted;
    }
  }

  /** No call lowers a proposal's rank or moves it out of executed or cancelled, and nothing but its state, its queueing
      and its tally changes. */
  lemma StatesOnlyAdvance(t: Tables, e: Event, id: Id)
    requires Valid(t) && id in t.proposals
    ensures var p := t.proposals[id]; var q := After(t, e).proposals;
            && id in q
            && Rank(p.state) <= Rank(q[id].state) && (Rank(p.state) == Rank(q[id].state) ==> p.state == q[id].state)
            && (p.state == State.Executed || p.state == Cancelled ==> q[id].state == p.state)
            && q[id].proposer == p.proposer && q[id].target == p.target && q[id].targetChain == p.targetChain
            && (p.operation.Some? ==> q[id].operation == p.operation)
  {
    hide TalliesOk, VotesOk, TallyOf;
  }

  /** A vote is counted once, whatever is replayed: the tallies are the sums over the distinct votes recorded, and
      between them count every vote's weight. */
  lemma {:induction false} TalliesCountEveryVote(votes: seq<Vote>, id: Id)
    requires forall i | 0 <= i < |votes| :: VoteAllowed(votes[i])
    ensures var t := TallyOf(votes, id); t.against + t.inFavour + t.abstain == Total(votes, id)
  {
    if votes != [] {
      TalliesCountEveryVote(votes[..|votes| - 1], id);
    }
  }

  /** A vote is recorded exactly when its proposal is there, its support is 0, 1 or 2, its weight positive, and neither
      its event nor its voter's vote on the proposal is there. Then one number of its proposal's tally grows by its
      weight, and nothing else changes; otherwise nothing changes at all. */
  lemma VoteMovesOneNumber(t: Tables, v: Vote)
    requires Valid(t)
    ensures var recorded := v.proposal in t.proposals && v.support < 3 && v.weight > 0 && forall u | u in t.votes ::
              && (u.proposal.0, u.txHash, u.logIndex) != (v.proposal.0, v.txHash, v.logIndex)
              && (u.proposal != v.proposal || u.voter != v.voter);
            var after := After(t, Cast(v));
            if !recorded then after == t
            else
              var p := t.proposals[v.proposal];
              && after.votes == t.votes + [v] && after.actions == t.actions
              && after.proposals == t.proposals[v.proposal := p.(tally :=
                   Tally(p.tally.against + (if v.support == 0 then v.weight else 0),
                         p.tally.inFavour + (if v.support == 1 then v.weight else 0),
                         p.tally.abstain + (if v.support == 2 then v.weight else 0)))]
  {
    var votes := t.votes + [v];
    assert votes[..|t.votes|] == t.votes;
    RetallyKeeps(t, v);
    if HasKey(t.votes, v.Key()) {
      var u :| u in t.votes && u.Key() == v.Key();
    }
    if HasVoted(t.votes, v.proposal, v.voter) {
      var u :| u in t.votes && u.proposal == v.proposal && u.voter == v.voter;
    }
  }

  /** Which votes are refused, and why; a vote whose event is there already is not refused. */
  lemma VotesRefused(t: Tables, v: Vote)
    ensures var r := Applied(t, Cast(v));
            var sound, seen := v.support < 3 && v.weight > 0, exists u :: u in t.votes && u.Key() == v.Key();
            var voted := exists u :: u in t.votes && u.proposal == v.proposal && u.voter == v.voter;
            && (r == Err(CheckViolated) <==> !sound)
            && (r == Err(AlreadyVoted) <==> sound && !seen && voted)
            && (r == Err(NoProposal) <==> sound && !seen && !voted && v.proposal !in t.proposals)
            && (r.Ok? <==> sound && (seen || (!voted && v.proposal in t.proposals)))
  {
  }

  /** A proposal is recorded as it was created, pending and without votes, and only once. */
  lemma ProposalStartsPending(t: Tables, id: Id, proposer: string, target: string, targetChain: int, value: int)
    requires Valid(t)
    ensures var after := After(t, Created(id, proposer, target, targetChain, value));
            if id in t.proposals || id.1 <= 0 || value < 0 then after == t
            else
              && after.votes == t.votes && after.actions == t.actions
              && after.proposals.Keys == t.proposals.Keys + {id}
              && (forall other | other in t.proposals :: after.proposals[other] == t.proposals[other])
              && var p := after.proposals[id];
                 && p.proposer == proposer && p.target == target && p.targetChain == targetChain && p.state == Pending
                 && p.operation == p.executableAt == None && p.tally.against == p.tally.inFavour == p.tally.abstain == 0
  {
  }

  /** Which calls move a proposal, and where to. */
  lemma MovesInFull(t: Tables, e: Event, id: Id)
    requires Valid(t) && id in t.proposals
    ensures var p, q := t.proposals[id], After(t, e).proposals;
            id in q
            && q[id].state == (
                 if e.Queue? && e.id == id && p.state in {Pending, Active, Succeeded} && e.operation > 0 then Queued
                 else if e.Dispatch? && e.id == id && p.state == Queued then Dispatched
                 else if e.Execute? && e.id == id && p.state in {Queued, Dispatched} then State.Executed
                 else if e.Cancel? && e.id == id && p.state != State.Executed then Cancelled
                 else p.state)
            && (e.Queue? && e.id == id && p.state != q[id].state ==>
                  q[id].operation == Some(e.operation) && q[id].executableAt == Some(e.executableAt))
            && (!e.Queue? || e.id != id || p.state == q[id].state ==>
                  q[id].operation == p.operation && q[id].executableAt == p.executableAt)
            && (!e.Cast? || e.vote.proposal != id ==> q[id].tally == p.tally)
  {
    hide TalliesOk, VotesOk, TallyOf;
  }

  /** A closed action keeps its outcome, whoever reports another; only its status ever changes. The first report of a
      waiting one is what is stored. */
  lemma ActionsCloseOnce(t: Tables, e: Event, message: MessageId)
    requires message in t.actions
    ensures var a := t.actions[message]; var b := After(t, e).actions;
            && message in b && b[message].(status := a.status) == a && (a.status.Closed? ==> b[message] == a)
            && (a.status.Waiting? ==>
                  b[message].status == if e.Close? && e.message == message then Closed(e.executed, e.at, e.closedBy)
                                       else Waiting)
  {
  }

  /** An action is stored as received, waiting, and only once. */
  lemma ActionsArriveWaiting(t: Tables, message: MessageId, action: Action)
    ensures var after := After(t, Receive(message, action));
            if message in t.actions || message.1 < 0 || message.1 >= 0x1_0000 || message.2 < 0 || action.operation <= 0
               || action.declaredValue < 0 then after == t
            else after == t.(actions := t.actions[message := action.(status := Waiting)])
  {
  }

  // ----- Replays -------------------------------------------------------------------------------

  predicate Receivable(message: MessageId) {
    0 <= message.1 <= 65535 && message.2 >= 0
  }

  /** Delivering `e` can never have an effect again: what it reports is recorded or overtaken, or the schema refuses
      it. */
  predicate Absorbed(t: Tables, e: Event) {
    match e
    case Created(id, _, _, _, value) => id in t.proposals || id.1 <= 0 || value < 0
    case Cast(v) => HasKey(t.votes, v.Key()) || HasVoted(t.votes, v.proposal, v.voter) || !VoteAllowed(v)
        || v.proposal.1 <= 0
    case Queue(id, operation, _) => (id in t.proposals && !MayQueue(t.proposals[id].state)) || id.1 <= 0
        || operation <= 0
    case Dispatch(id) => (id in t.proposals && Rank(t.proposals[id].state) >= 2) || id.1 <= 0
    case Execute(id) => (id in t.proposals && Rank(t.proposals[id].state) == 3) || id.1 <= 0
    case Cancel(id) => (id in t.proposals && Rank(t.proposals[id].state) == 3) || id.1 <= 0
    case Receive(message, action) => message in t.actions || !Receivable(message) || action.operation <= 0
        || action.declaredValue < 0
    case Close(message, _, _, _) => (message in t.actions && t.actions[message].status.Closed?) || !Receivable(message)
  }

  /** Every id in the tables passed the schema's checks. */
  ghost predicate Checked(t: Tables) {
    (forall id | id in t.proposals :: id.1 > 0) && forall m | m in t.actions :: Receivable(m)
  }

  lemma AbsorbedHasNoEffect(t: Tables, e: Event)
    requires Valid(t) && Checked(t) && Absorbed(t, e)
    ensures After(t, e) == t
  {
    if e.Cast? {
      RetallyKeeps(t, e.vote);
    }
    hide TalliesOk, VotesOk, TallyOf, Retallied;
  }

  /** Nothing is deleted, and nothing moves back. */
  ghost predicate Extends(t: Tables, u: Tables) {
    && (forall v | v in t.votes :: v in u.votes)
    && (forall id | id in t.proposals ::
        id in u.proposals && Rank(t.proposals[id].state) <= Rank(u.proposals[id].state))
    && (forall m | m in t.actions :: m in u.actions && (t.actions[m].status.Closed? ==> u.actions[m].status.Closed?))
  }

  lemma VotesStay(t: Tables, f: Event)
    ensures forall w | w in t.votes :: w in After(t, f).votes
  {
  }

  lemma CheckedStays(t: Tables, f: Event)
    requires Checked(t) && VotesOk(t)
    ensures Checked(After(t, f))
  {
  }

  lemma CallsExtend(t: Tables, f: Event)
    requires Valid(t) && Checked(t)
    ensures Extends(t, After(t, f)) && Checked(After(t, f))
  {
    var u := After(t, f);
    forall id | id in t.proposals
        ensures id in u.proposals && Rank(t.proposals[id].state) <= Rank(u.proposals[id].state) {
      StatesOnlyAdvance(t, f, id);
    }
    forall m | m in t.actions ensures m in u.actions && (t.actions[m].status.Closed? ==> u.actions[m].status.Closed?) {
      ActionsCloseOnce(t, f, m);
    }
    VotesStay(t, f);
    CheckedStays(t, f);
    hide TalliesOk, VotesOk, Checked, After;
  }

  lemma ExtensionAbsorbs(t: Tables, u: Tables, e: Event)
    requires Extends(t, u) && Absorbed(t, e)
    ensures Absorbed(u, e)
  {
  }

  lemma AbsorbedStays(t: Tables, f: Event, e: Event)
    requires Valid(t) && Checked(t) && Absorbed(t, e)
    ensures Checked(After(t, f)) && Absorbed(After(t, f), e)
  {
    CallsExtend(t, f);
    ExtensionAbsorbs(t, After(t, f), e);
    hide Valid, Absorbed, Extends, After;
  }

  lemma VoteAbsorbs(t: Tables, v: Vote)
    requires TalliesOk(t) && After(t, Cast(v)) != t
    ensures Absorbed(After(t, Cast(v)), Cast(v))
  {
  }

  /** An effect is had once: what takes effect is absorbed. */
  lemma EffectAbsorbs(t: Tables, e: Event)
    requires Valid(t) && Checked(t) && After(t, e) != t
    ensures Absorbed(After(t, e), e)
  {
    if e.Cast? {
      VoteAbsorbs(t, e.vote);
      hide Absorbed, After;
    } else {
      hide TalliesOk, VotesOk, TallyOf, Voted, Retallied, HasKey, HasVoted;
    }
  }

  lemma {:induction false} AbsorbedForGood(t: Tables, events: seq<Event>, e: Event)
    requires Valid(t) && Checked(t) && Absorbed(t, e)
    ensures var u := AfterFrom(t, events); Valid(u) && Checked(u) && Absorbed(u, e) && After(u, e) == u
    decreases |events|
  {
    if events == [] {
      AbsorbedHasNoEffect(t, e);
    } else {
      var u, f := AfterFrom(t, events[..|events| - 1]), events[|events| - 1];
      AbsorbedForGood(t, events[..|events| - 1], e);
      StepKeeps(u, f);
      AbsorbedStays(u, f, e);
      AbsorbedHasNoEffect(After(u, f), e);
    }
    hide Valid, Checked, Absorbed, After;
  }

  /** What would let a call that is not absorbed take effect. */
  function Revival(e: Event): seq<Event> {
    match e
    case Created(_, _, _, _, _) => []
    case Receive(_, _) => []
    case Cast(v) => [Created(v.proposal, "", "", 0, 0)]
    case Close(message, _, _, _) => [Receive(message, Action(0, 1, "", 0, 0, Waiting))]
    case Queue(id, _, _) => [Created(id, "", "", 0, 0)]
    case Cancel(id) => [Created(id, "", "", 0, 0)]
    case Dispatch(id) => [Created(id, "", "", 0, 0), Queue(id, 1, 0)]
    case Execute(id) => [Created(id, "", "", 0, 0), Queue(id, 1, 0)]
  }

  lemma VoteRevives(t: Tables, v: Vote)
    requires Valid(t) && !Absorbed(t, Cast(v))
    ensures var u := After(t, Revival(Cast(v))[0]); After(u, Cast(v)).votes == u.votes + [v]
  {
  }

  lemma ProposalRevives(t: Tables, e: Event)
    requires Valid(t) && !Absorbed(t, e) && (e.Queue? || e.Cancel? || e.Dispatch? || e.Execute?)
    ensures var u := if |Revival(e)| == 1 then After(t, Revival(e)[0])
            else After(After(t, Revival(e)[0]), Revival(e)[1]);
            e.id in u.proposals && e.id in After(u, e).proposals && After(u, e).proposals[e.id] != u.proposals[e.id]
  {
    hide TalliesOk, VotesOk, TallyOf, Voted, HasKey, HasVoted;
  }

  lemma NotAbsorbedTakesEffect(t: Tables, e: Event)
    requires Valid(t) && Checked(t) && !Absorbed(t, e)
    ensures var u := AfterFrom(t, Revival(e)); After(u, e) != u
  {
    var first := Revival(e);
    if |first| == 1 {
      assert first[..0] == [] && AfterFrom(t, first) == After(t, first[0]);
    } else if |first| == 2 {
      assert first[..1] == [first[0]] && first[..1][..0] == [];
      assert AfterFrom(t, first[..1]) == After(t, first[0]);
      assert AfterFrom(t, first) == After(After(t, first[0]), first[1]);
    }
    if e.Cast? {
      VoteRevives(t, e.vote);
      hide Absorbed, After, Revival;
    } else if e.Queue? || e.Cancel? || e.Dispatch? || e.Execute? {
      ProposalRevives(t, e);
      hide Absorbed, After, Revival;
    }
    hide Valid, Checked, TallyOf, Voted, HasKey, HasVoted;
  }

  /** Exactly the absorbed calls can be replayed at any later time without effect. */
  lemma ReplayIsInvisibleExactlyWhen(t: Tables, e: Event)
    requires Valid(t) && Checked(t)
    ensures Absorbed(t, e) <==> forall events :: After(AfterFrom(t, events), e) == AfterFrom(t, events)
  {
    if Absorbed(t, e) {
      forall events ensures After(AfterFrom(t, events), e) == AfterFrom(t, events) {
        AbsorbedForGood(t, events, e);
      }
    } else {
      NotAbsorbedTakesEffect(t, e);
    }
    hide Valid, Checked, Absorbed, After, Revival;
  }

  /** A delivery of a stream by index: each is a repeat of one already delivered, or the next. */
  ghost predicate AtLeastOnce(order: seq<nat>, n: nat) {
    forall i | 0 <= i < |order| :: order[i] < n && order[i] <= Reach(order[..i])
  }

  /** How much of the stream has been delivered. */
  function Reach(order: seq<nat>): nat {
    if order == [] then 0
    else
      var before, last := Reach(order[..|order| - 1]), order[|order| - 1];
      if last >= before then last + 1 else before
  }

  function Delivered(stream: seq<Event>, order: seq<nat>): seq<Event>
    requires forall i | 0 <= i < |order| :: order[i] < |stream|
  {
    seq(|order|, i requires 0 <= i < |order| => stream[order[i]])
  }

  /** Each event of the stream was absorbed when it first arrived: it took effect, or could not have any. */
  ghost predicate TakesHold(stream: seq<Event>) {
    forall i | 0 <= i < |stream| :: Absorbed(AfterFrom(EMPTY, stream[..i + 1]), stream[i])
  }

  lemma {:induction false} AbsorbedLater(stream: seq<Event>, i: nat, n: nat)
    requires TakesHold(stream) && i < n <= |stream|
    ensures var u := AfterFrom(EMPTY, stream[..n]); Valid(u) && Checked(u) && Absorbed(u, stream[i])
    decreases n
  {
    FromEmpty(stream[..n]);
    if i + 1 < n {
      AbsorbedLater(stream, i, n - 1);
      assert stream[..n][..n - 1] == stream[..n - 1];
      AbsorbedStays(AfterFrom(EMPTY, stream[..n - 1]), stream[n - 1], stream[i]);
    }
    hide Valid, Checked, Absorbed, After;
  }

  lemma {:induction false} FromEmpty(events: seq<Event>)
    ensures Valid(AfterFrom(EMPTY, events)) && Checked(AfterFrom(EMPTY, events))
  {
    if events != [] {
      var t := AfterFrom(EMPTY, events[..|events| - 1]);
      FromEmpty(events[..|events| - 1]);
      StepKeeps(t, events[|events| - 1]);
      CallsExtend(t, events[|events| - 1]);
      hide Valid, Checked, After;
    }
  }

  /** At-least-once delivery of such a stream, with any stretches replayed any number of times, leaves the tables of one
      clean pass over what has arrived. */
  lemma {:induction false} ReplaysLeaveACleanPass(stream: seq<Event>, order: seq<nat>)
    requires TakesHold(stream) && AtLeastOnce(order, |stream|)
    ensures Reach(order) <= |stream|
    ensures AfterFrom(EMPTY, Delivered(stream, order)) == AfterFrom(EMPTY, stream[..Reach(order)])
    decreases |order|
  {
    hide Valid, Checked, Absorbed, After, TakesHold;
    if order != [] {
      var init, last := order[..|order| - 1], order[|order| - 1];
      assert AtLeastOnce(init, |stream|) by {
        assert forall i | 0 <= i < |init| :: init[..i] == order[..i] && init[i] == order[i];
      }
      ReplaysLeaveACleanPass(stream, init);
      var n := Reach(init);
      assert Delivered(stream, order)[..|order| - 1] == Delivered(stream, init);
      assert last <= n;
      if last == n {
        assert stream[..n + 1][..n] == stream[..n];
      } else {
        AbsorbedLater(stream, last, n);
        AbsorbedHasNoEffect(AfterFrom(EMPTY, stream[..n]), stream[last]);
      }
    }
  }

  // ----- The store -----------------------------------------------------------------------------

  /** A call's outcome is its transaction's: an error leaves the tables as they were. */
  ghost predicate Outcome(before: Tables, e: Event, after: Tables, error: Option<Error>) {
    && after == After(before, e)
    && error == if Applied(before, e).Ok? then None else Some(Applied(before, e).error)
  }

  class Store {
    var proposals: map<Id, Proposal>
    var votes: seq<Vote>
    var actions: map<MessageId, Action>

    ghost function Contents(): Tables
      reads this
    {
      Tables(proposals, votes, actions)
    }

    constructor ()
      ensures Contents() == EMPTY
    {
      proposals, votes, actions := map[], [], map[];
    }

    method InsertGovernanceProposal(id: Id, proposer: string, target: string, targetChain: int, value: int)
      returns (error: Option<Error>)
      modifies this`proposals
      ensures Outcome(old(Contents()), Created(id, proposer, target, targetChain, value), Contents(), error)
    {
      if id.1 <= 0 || value < 0 {
        return Some(CheckViolated);
      }
      if id !in proposals {
        proposals := proposals[id := Proposal(proposer, target, targetChain, Pending, None, None, Tally(0, 0, 0))];
      }
      return None;
    }

    /** The retally, row by row. */
    method RetallyProposal(id: Id)
      modifies this`proposals
      ensures Contents() == Retallied(old(Contents()), id)
    {
      if id !in proposals {
        return;
      }
      var against, inFavour, abstain := 0, 0, 0;
      for i := 0 to |votes|
        invariant Tally(against, inFavour, abstain) == TallyOf(votes[..i], id)
        invariant unchanged(this)
      {
        var v := votes[i];
        assert votes[..i + 1][..i] == votes[..i];
        if v.proposal == id {
          match v.support {
            case 0 => against := against + v.weight;
            case 1 => inFavour := inFavour + v.weight;
            case 2 => abstain := abstain + v.weight;
            case _ =>
          }
        }
      }
      assert votes[..|votes|] == votes;
      proposals := proposals[id := proposals[id].(tally := Tally(against, inFavour, abstain))];
    }

    /** The vote and the retally commit together or not at all. */
    method InsertGovernanceVote(v: Vote) returns (error: Option<Error>)
      modifies this
      ensures Outcome(old(Contents()), Cast(v), Contents(), error)
    {
      if !VoteAllowed(v) {
        return Some(CheckViolated);
      }
      if !HasKey(votes, v.Key()) {
        if HasVoted(votes, v.proposal, v.voter) {
          return Some(AlreadyVoted);
        }
        if v.proposal !in proposals {
          return Some(NoProposal);
        }
        votes := votes + [v];
      }
      RetallyProposal(v.proposal);
      return None;
    }

    method MarkProposalQueued(id: Id, operation: int, executableAt: int) returns (error: Option<Error>)
      modifies this`proposals
      ensures Outcome(old(Contents()), Queue(id, operation, executableAt), Contents(), error)
    {
      if id in proposals && MayQueue(proposals[id].state) {
        if operation <= 0 {
          return Some(CheckViolated);
        }
        proposals := proposals[id := proposals[id].(state := Queued, operation := Some(operation),
                                                    executableAt := Some(executableAt))];
      }
      return None;
    }

    method MarkProposalDispatched(id: Id) returns (error: Option<Error>)
      modifies this`proposals
      ensures Outcome(old(Contents()), Dispatch(id), Contents(), error)
    {
      assert id in proposals ==> proposals == proposals[id := proposals[id]];
      if id in proposals && proposals[id].state == Queued {
        proposals := proposals[id := proposals[id].(state := Dispatched)];
      }
      return None;
    }

    method MarkProposalExecuted(id: Id) returns (error: Option<Error>)
      modifies this`proposals
      ensures Outcome(old(Contents()), Execute(id), Contents(), error)
    {
      assert id in proposals ==> proposals == proposals[id := proposals[id]];
      if id in proposals && (proposals[id].state == Queued || proposals[id].state == Dispatched) {
        proposals := proposals[id := proposals[id].(state := State.Executed)];
      }
      return None;
    }

    method MarkProposalCancelled(id: Id) returns (error: Option<Error>)
      modifies this`proposals
      ensures Outcome(old(Contents()), Cancel(id), Contents(), error)
    {
      assert id in proposals ==> proposals == proposals[id := proposals[id]];
      if id in proposals && proposals[id].state != State.Executed && proposals[id].state != Cancelled {
        proposals := proposals[id := proposals[id].(state := Cancelled)];
      }
      return None;
    }

    method InsertRemoteAction(message: MessageId, action: Action) returns (error: Option<Error>)
      modifies this`actions
      ensures Outcome(old(Contents()), Receive(message, action), Contents(), error)
    {
      if !Receivable(message) || action.operation <= 0 || action.declaredValue < 0 {
        return Some(CheckViolated);
      }
      if message !in actions {
        actions := actions[message := action.(status := Waiting)];
      }
      return None;
    }

    /** A missing row is an indexing fault and reported; a closed one is left alone. */
    method CloseRemoteAction(message: MessageId, executed: bool, at: int, closedBy: string)
      returns (error: Option<Error>)
      modifies this`actions
      ensures Outcome(old(Contents()), Close(message, executed, at, closedBy), Contents(), error)
    {
      if message in actions && actions[message].status.Waiting? {
        actions := actions[message := actions[message].(status := Closed(executed, at, closedBy))];
        return None;
      }
      if message !in actions {
        return Some(NeverReceived);
      }
      return None;
    }

    method Handle(e: Event) returns (error: Option<Error>)
      modifies this
      ensures Outcome(old(Contents()), e, Contents(), error)
    {
      match e {
        case Created(id, proposer, target, targetChain, value) =>
          error := InsertGovernanceProposal(id, proposer, target, targetChain, value);
        case Cast(v) => error := InsertGovernanceVote(v);
        case Queue(id, operation, executableAt) => error := MarkProposalQueued(id, operation, executableAt);
        case Dispatch(id) => error := MarkProposalDispatched(id);
        case Execute(id) => error := MarkProposalExecuted(id);
        case Cancel(id) => error := MarkProposalCancelled(id);
        case Receive(message, action) => error := InsertRemoteAction(message, action);
        case Close(message, executed, at, closedBy) => error := CloseRemoteAction(message, executed, at, closedBy);
      }
    }
  }

  /** Any sequence of calls on a new store, each of which may fail. */
  method Run(events: seq<Event>) returns (store: Store)
    ensures fresh(store) && store.Contents() == AfterFrom(EMPTY, events)
    ensures Valid(store.Contents()) && Checked(store.Contents())
  {
    store := new Store();
    for i := 0 to |events|
      invariant fresh(store) && store.Contents() == AfterFrom(EMPTY, events[..i])
    {
      var error := store.Handle(events[i]);
      assert events[..i + 1][..i] == events[..i];
    }
    assert events[..|events|] == events;
    FromEmpty(events);
  }
}
