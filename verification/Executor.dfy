/** The slash executor: any number of executors claim recorded decisions, send them to the chain, and close them. They
    interleave freely, and any of them may stop between any two steps. */
module Executor {
  import opened Options

  datatype Abandoned = AlreadyOnChain | GaveUp(message: string)

  /** A row of oracle_slashings; its id is its place in the order of decided_at. */
  datatype Decision = Decision(node: string, round: Option<int>, amount: int, reason: string, attempts: nat,
                               submitted: bool, txHash: string, abandoned: Option<Abandoned>, executed: bool) {
    predicate Open() {
      !submitted && abandoned.None? && !executed
    }

    predicate Claimable(max: nat) {
      Open() && round.Some? && attempts < max
    }
  }

  /** A claimed decision in an executor's memory. `attempts` counts the submissions already made. */
  datatype Pending = Pending(id: nat, node: string, round: int, amount: int, reason: string, attempts: nat)

  /** What the chain client answers. An error may follow a transaction that landed; a hash may be of one that will
      not. */
  datatype Reply = Sent(txHash: string) | Already | Failed(message: string)

  /** The local state of one Step: the batch not yet finished, and the answer for its first decision once called. */
  datatype Agent = Agent(batch: seq<Pending>, reply: Option<Reply>)

  /** The `attempt`-th submission of decision `id`. */
  datatype Ticket = Ticket(id: nat, attempt: int)

  function TicketOf(p: Pending): Ticket {
    Ticket(p.id, p.attempts)
  }

  type Penalty = (string, int)

  // ----- What every interleaving keeps ---------------------------------------------------------

  ghost predicate NoDuplicates<T>(s: seq<T>) {
    forall i, j | 0 <= i < j < |s| :: s[i] != s[j]
  }

  ghost predicate DecisionOk(d: Decision, max: nat, landed: seq<Penalty>) {
    && d.attempts <= max
    && (d.attempts > 0 ==> d.round.Some?)
    && (d.abandoned.Some? && d.abandoned.value.GaveUp? ==> d.attempts == max)
    && (d.abandoned == Some(AlreadyOnChain) ==> d.round.Some? && (d.node, d.round.value) in landed)
  }

  ghost predicate TableOk(rows: seq<Decision>, max: nat, landed: seq<Penalty>) {
    forall id | 0 <= id < |rows| :: DecisionOk(rows[id], max, landed)
  }

  /** The claim is of a real decision, and is the only one with its attempt number. */
  ghost predicate ClaimOk(p: Pending, rows: seq<Decision>) {
    && p.id < |rows| && p.attempts < rows[p.id].attempts
    && rows[p.id].node == p.node && rows[p.id].round == Some(p.round)
  }

  ghost predicate AgentOk(a: nat, agent: Agent, rows: seq<Decision>, landed: seq<Penalty>, owner: map<Ticket, nat>,
                          calls: seq<Ticket>) {
    && (agent.reply.Some? ==> agent.batch != [])
    && (agent.reply == Some(Already) ==> (agent.batch[0].node, agent.batch[0].round) in landed)
    && (forall i | 0 <= i < |agent.batch| ::
          ClaimOk(agent.batch[i], rows) && TicketOf(agent.batch[i]) in owner && owner[TicketOf(agent.batch[i])] == a)
    && (forall i | 0 <= i < |agent.batch| && (i > 0 || agent.reply.None?) :: TicketOf(agent.batch[i]) !in calls)
    && (forall i, j | 0 <= i < j < |agent.batch| :: agent.batch[i].id < agent.batch[j].id)
  }

  ghost predicate AgentsOk(agents: seq<Agent>, rows: seq<Decision>, landed: seq<Penalty>, owner: map<Ticket, nat>,
                           calls: seq<Ticket>) {
    forall a | 0 <= a < |agents| :: AgentOk(a, agents[a], rows, landed, owner, calls)
  }

  /** Every ticket handed out, and so every call made, is of an attempt the table has counted. */
  ghost predicate TicketsOk(rows: seq<Decision>, owner: map<Ticket, nat>, calls: seq<Ticket>) {
    && (forall t | t in owner :: t.id < |rows| && 0 <= t.attempt < rows[t.id].attempts)
    && (forall i | 0 <= i < |calls| :: calls[i] in owner)
    && NoDuplicates(calls)
  }

  ghost predicate InBatch(batch: seq<Pending>, t: Ticket) {
    exists i :: 0 <= i < |batch| && TicketOf(batch[i]) == t
  }

  /** The last attempt is still in some executor's hands, or it was lost, or the decision is closed. */
  ghost predicate LastAttemptOk(id: nat, d: Decision, max: nat, agents: seq<Agent>, lost: set<nat>) {
    && (id in lost ==> d.attempts == max)
    && (d.Open() && d.attempts == max ==>
          id in lost || exists a :: 0 <= a < |agents| && InBatch(agents[a].batch, Ticket(id, d.attempts - 1)))
  }

  ghost predicate LastAttemptsOk(rows: seq<Decision>, max: nat, agents: seq<Agent>, lost: set<nat>) {
    && (forall id | id in lost :: id < |rows|)
    && forall id | 0 <= id < |rows| :: LastAttemptOk(id, rows[id], max, agents, lost)
  }

  /** Counters only rise, a closed decision stays closed and is not claimed, and nothing a decision says is
      rewritten. */
  ghost predicate DecisionKept(before: Decision, after: Decision) {
    && after.node == before.node && after.round == before.round && after.reason == before.reason
    && before.attempts <= after.attempts
    && (before.submitted ==> after.submitted)
    && (before.abandoned.Some? ==> after.abandoned == before.abandoned)
    && (before.executed ==> after.executed)
    && (!before.Open() ==> after.attempts == before.attempts)
  }

  ghost predicate Kept(before: seq<Decision>, after: seq<Decision>) {
    |before| <= |after| && forall id | 0 <= id < |before| :: DecisionKept(before[id], after[id])
  }

  // ----- The claim -----------------------------------------------------------------------------

  function Bumped(d: Decision): Decision {
    d.(attempts := d.attempts + 1)
  }

  function PendingOf(id: nat, d: Decision): Pending
    requires d.round.Some?
  {
    Pending(id, d.node, d.round.value, d.amount, d.reason, d.attempts)
  }

  /** The ids below `n` the claim takes: the oldest claimable decisions no concurrent claim has locked. */
  ghost predicate Takes(rows: seq<Decision>, max: nat, locked: set<nat>, limit: nat, n: nat, batch: seq<Pending>)
    requires n <= |rows|
  {
    && |batch| <= limit
    && (forall i | 0 <= i < |batch| ::
          && batch[i].id < n && rows[batch[i].id].Claimable(max) && batch[i].id !in locked
          && batch[i] == PendingOf(batch[i].id, rows[batch[i].id]))
    && (forall i, j | 0 <= i < j < |batch| :: batch[i].id < batch[j].id)
    && (forall id | 0 <= id < n && rows[id].Claimable(max) && id !in locked ::
          Chosen(batch, id) || (|batch| == limit && forall i | 0 <= i < |batch| :: batch[i].id < id))
  }

  /** What an executor holds of a decision is what the row said when it was claimed. */
  lemma ClaimedAsRecorded(rows: seq<Decision>, max: nat, locked: set<nat>, limit: nat, batch: seq<Pending>, i: nat)
    requires Takes(rows, max, locked, limit, |rows|, batch) && i < |batch|
    ensures batch[i].id < |rows|
    ensures var p, d := batch[i], rows[batch[i].id];
            && p.node == d.node && d.round == Some(p.round) && p.amount == d.amount && p.reason == d.reason
            && p.attempts == d.attempts
  {
  }

  ghost predicate Chosen(batch: seq<Pending>, id: nat) {
    exists i :: 0 <= i < |batch| && batch[i].id == id
  }

  /** Exactly the decisions in the batch are counted once more. */
  ghost predicate CountedUp(before: seq<Decision>, after: seq<Decision>, batch: seq<Pending>) {
    && |after| == |before|
    && forall id | 0 <= id < |before| :: after[id] == if Chosen(batch, id) then Bumped(before[id]) else before[id]
  }

  function Remaining(rows: seq<Decision>, max: nat): nat {
    if rows == [] then 0
    else
      var d := rows[|rows| - 1];
      Remaining(rows[..|rows| - 1], max) + if d.attempts < max then max - d.attempts else 0
  }

  lemma ChosenSnoc(batch: seq<Pending>, p: Pending, id: nat)
    ensures Chosen(batch + [p], id) <==> Chosen(batch, id) || p.id == id
  {
    if Chosen(batch, id) {
      var i :| 0 <= i < |batch| && batch[i].id == id;
      assert (batch + [p])[i].id == id;
    }
    assert (batch + [p])[|batch|] == p;
  }

  lemma {:induction false} TakesNext(rows: seq<Decision>, max: nat, locked: set<nat>, limit: nat, id: nat,
                                     batch: seq<Pending>)
    requires id < |rows| && Takes(rows, max, locked, limit, id, batch)
    ensures var taken := |batch| < limit && rows[id].Claimable(max) && id !in locked;
            Takes(rows, max, locked, limit, id + 1, if taken then batch + [PendingOf(id, rows[id])] else batch)
  {
    if |batch| < limit && rows[id].Claimable(max) && id !in locked {
      TakesOne(rows, max, locked, limit, id, batch);
    }
  }

  lemma {:induction false} TakesOne(rows: seq<Decision>, max: nat, locked: set<nat>, limit: nat, id: nat,
                                    batch: seq<Pending>)
    requires id < |rows| && Takes(rows, max, locked, limit, id, batch)
    requires |batch| < limit && rows[id].Claimable(max) && id !in locked
    ensures Takes(rows, max, locked, limit, id + 1, batch + [PendingOf(id, rows[id])])
  {
    var longer := batch + [PendingOf(id, rows[id])];
    forall older | 0 <= older < id + 1 && rows[older].Claimable(max) && older !in locked ensures Chosen(longer, older) {
      ChosenSnoc(batch, PendingOf(id, rows[id]), older);
    }
    hide Chosen;
  }

  lemma CountedUpNext(before: seq<Decision>, after: seq<Decision>, batch: seq<Pending>, p: Pending)
    requires CountedUp(before, after, batch) && p.id < |before| && !Chosen(batch, p.id)
    ensures CountedUp(before, after[p.id := Bumped(before[p.id])], batch + [p])
  {
    forall k: nat {
      ChosenSnoc(batch, p, k);
    }
  }

  ghost function Tickets(batch: seq<Pending>): set<Ticket> {
    set i | 0 <= i < |batch| :: TicketOf(batch[i])
  }

  /** The claims of a batch, handed to executor `a`. */
  ghost function Handed(owner: map<Ticket, nat>, batch: seq<Pending>, a: nat): map<Ticket, nat> {
    owner + map t | t in Tickets(batch) :: a
  }

  lemma ClaimKeepsTable(rows: seq<Decision>, after: seq<Decision>, max: nat, landed: seq<Penalty>, locked: set<nat>,
                        limit: nat, batch: seq<Pending>)
    requires TableOk(rows, max, landed)
    requires Takes(rows, max, locked, limit, |rows|, batch) && CountedUp(rows, after, batch)
    ensures TableOk(after, max, landed) && Kept(rows, after)
  {
  }

  lemma ClaimKeepsTickets(rows: seq<Decision>, after: seq<Decision>, max: nat, owner: map<Ticket, nat>,
                          calls: seq<Ticket>, locked: set<nat>, limit: nat, batch: seq<Pending>, a: nat)
    requires TicketsOk(rows, owner, calls)
    requires Takes(rows, max, locked, limit, |rows|, batch) && CountedUp(rows, after, batch)
    ensures TicketsOk(after, Handed(owner, batch, a), calls)
    ensures forall t | t in owner :: t in Handed(owner, batch, a) && Handed(owner, batch, a)[t] == owner[t]
    ensures forall i | 0 <= i < |batch| :: TicketOf(batch[i]) !in owner
  {
  }

  lemma ClaimKeepsAgents(rows: seq<Decision>, after: seq<Decision>, max: nat, agents: seq<Agent>, landed: seq<Penalty>,
                         owner: map<Ticket, nat>, calls: seq<Ticket>, locked: set<nat>, limit: nat, batch: seq<Pending>,
                         a: nat)
    requires a < |agents| && AgentsOk(agents, rows, landed, owner, calls) && TicketsOk(rows, owner, calls)
    requires Takes(rows, max, locked, limit, |rows|, batch) && CountedUp(rows, after, batch) && Kept(rows, after)
    ensures AgentsOk(agents[a := Agent(batch, None)], after, landed, Handed(owner, batch, a), calls)
  {
    ClaimKeepsTickets(rows, after, max, owner, calls, locked, limit, batch, a);
    var owned := Handed(owner, batch, a);
    forall b | 0 <= b < |agents| && b != a ensures AgentOk(b, agents[b], after, landed, owned, calls) {
      assert AgentOk(b, agents[b], rows, landed, owner, calls);
      AgentKept(b, agents[b], rows, after, landed, owner, owned, calls);
    }
    NewBatchOk(rows, after, max, landed, owner, calls, locked, limit, batch, a);
    hide Takes, CountedUp, AgentOk, TicketsOk, Handed;
  }

  lemma NewBatchOk(rows: seq<Decision>, after: seq<Decision>, max: nat, landed: seq<Penalty>, owner: map<Ticket, nat>,
                   calls: seq<Ticket>, locked: set<nat>, limit: nat, batch: seq<Pending>, a: nat)
    requires TicketsOk(rows, owner, calls)
    requires Takes(rows, max, locked, limit, |rows|, batch) && CountedUp(rows, after, batch)
    ensures AgentOk(a, Agent(batch, None), after, landed, Handed(owner, batch, a), calls)
  {
    ClaimKeepsTickets(rows, after, max, owner, calls, locked, limit, batch, a);
    forall i | 0 <= i < |batch| ensures ClaimOk(batch[i], after) {
      assert Chosen(batch, batch[i].id);
    }
    hide ClaimOk, CountedUp, Chosen;
  }

  /** What an executor holds survives anything the others do to the table. */
  lemma AgentKept(a: nat, agent: Agent, rows: seq<Decision>, after: seq<Decision>, landed: seq<Penalty>,
                  owner: map<Ticket, nat>, owned: map<Ticket, nat>, calls: seq<Ticket>)
    requires AgentOk(a, agent, rows, landed, owner, calls) && Kept(rows, after)
    requires forall t | t in owner :: t in owned && owned[t] == owner[t]
    ensures AgentOk(a, agent, after, landed, owned, calls)
  {
  }

  lemma ClaimKeepsLast(rows: seq<Decision>, after: seq<Decision>, max: nat, agents: seq<Agent>, lost: set<nat>,
                       locked: set<nat>, limit: nat, batch: seq<Pending>, a: nat)
    requires LastAttemptsOk(rows, max, agents, lost) && a < |agents| && agents[a].batch == []
    requires Takes(rows, max, locked, limit, |rows|, batch) && CountedUp(rows, after, batch)
    ensures LastAttemptsOk(after, max, agents[a := Agent(batch, None)], lost)
  {
    var agents' := agents[a := Agent(batch, None)];
    forall id | 0 <= id < |after| ensures LastAttemptOk(id, after[id], max, agents', lost) {
      assert LastAttemptOk(id, rows[id], max, agents, lost);
      if Chosen(batch, id) {
        var i :| 0 <= i < |batch| && batch[i].id == id;
        assert InBatch(agents'[a].batch, Ticket(id, after[id].attempts - 1));
      } else if after[id].Open() && after[id].attempts == max && id !in lost {
        var b :| 0 <= b < |agents| && InBatch(agents[b].batch, Ticket(id, rows[id].attempts - 1));
        assert InBatch(agents'[b].batch, Ticket(id, after[id].attempts - 1));
      }
    }
  }

  // ----- The other steps -----------------------------------------------------------------------

  /** How a submission fares. The chain applies one penalty per node and round, and answers a repeat with Already. */
  datatype Delivery = Delivered(txHash: string) | AnswerLost(message: string) | Dropped(txHash: string)
      | NeverSent(message: string)

  function Landed(landed: seq<Penalty>, penalty: Penalty, how: Delivery): seq<Penalty> {
    if (how.Delivered? || how.AnswerLost?) && penalty !in landed then landed + [penalty] else landed
  }

  function Answer(landed: seq<Penalty>, penalty: Penalty, how: Delivery): Reply {
    match how
    case Delivered(txHash) => if penalty in landed then Already else Sent(txHash)
    case AnswerLost(message) => Failed(message)
    case Dropped(txHash) => Sent(txHash)
    case NeverSent(message) => Failed(message)
  }

  /** The row once `reply` is recorded: submitted, abandoned, or left for another attempt. */
  function Recorded(d: Decision, p: Pending, reply: Reply, max: nat): Decision {
    match reply
    case Sent(txHash) => if d.submitted then d else d.(submitted := true, txHash := txHash)
    case Already => if d.abandoned.Some? then d else d.(abandoned := Some(AlreadyOnChain))
    case Failed(message) =>
      if p.attempts + 1 < max || d.abandoned.Some? then d else d.(abandoned := Some(GaveUp(message)))
  }

  /** Failing before the last attempt writes nothing, and is the one outcome that is not a handled decision. */
  predicate Retries(p: Pending, reply: Reply, max: nat) {
    reply.Failed? && p.attempts + 1 < max
  }

  lemma LandingKeeps(rows: seq<Decision>, max: nat, agents: seq<Agent>, landed: seq<Penalty>, owner: map<Ticket, nat>,
                     calls: seq<Ticket>, penalty: Penalty)
    requires TableOk(rows, max, landed) && AgentsOk(agents, rows, landed, owner, calls)
    requires NoDuplicates(landed) && penalty !in landed
    ensures TableOk(rows, max, landed + [penalty]) && AgentsOk(agents, rows, landed + [penalty], owner, calls)
    ensures NoDuplicates(landed + [penalty])
  {
  }

  lemma CallKeepsAgents(agents: seq<Agent>, a: nat, reply: Reply, rows: seq<Decision>, landed: seq<Penalty>,
                        owner: map<Ticket, nat>, calls: seq<Ticket>)
    requires AgentsOk(agents, rows, landed, owner, calls)
    requires a < |agents| && agents[a].batch != [] && agents[a].reply.None?
    requires reply.Already? ==> (agents[a].batch[0].node, agents[a].batch[0].round) in landed
    ensures AgentsOk(agents[a := Agent(agents[a].batch, Some(reply))], rows, landed, owner,
                     calls + [TicketOf(agents[a].batch[0])])
    ensures TicketOf(agents[a].batch[0]) in owner && TicketOf(agents[a].batch[0]) !in calls
  {
  }

  lemma SameBatchesKeepLast(rows: seq<Decision>, max: nat, agents: seq<Agent>, a: nat, reply: Option<Reply>,
                            lost: set<nat>)
    requires LastAttemptsOk(rows, max, agents, lost) && a < |agents|
    ensures LastAttemptsOk(rows, max, agents[a := Agent(agents[a].batch, reply)], lost)
  {
    var agents' := agents[a := Agent(agents[a].batch, reply)];
    forall id | 0 <= id < |rows| ensures LastAttemptOk(id, rows[id], max, agents', lost) {
      assert LastAttemptOk(id, rows[id], max, agents, lost);
      if rows[id].Open() && rows[id].attempts == max && id !in lost {
        var b :| 0 <= b < |agents| && InBatch(agents[b].batch, Ticket(id, rows[id].attempts - 1));
        assert InBatch(agents'[b].batch, Ticket(id, rows[id].attempts - 1));
      }
    }
  }

  /** Writing one row without claiming it. */
  lemma WriteKeeps(rows: seq<Decision>, max: nat, agents: seq<Agent>, landed: seq<Penalty>, owner: map<Ticket, nat>,
                   calls: seq<Ticket>, id: nat, d: Decision)
    requires TableOk(rows, max, landed) && AgentsOk(agents, rows, landed, owner, calls) && TicketsOk(rows, owner, calls)
    requires id < |rows| && DecisionKept(rows[id], d) && d.attempts == rows[id].attempts && DecisionOk(d, max, landed)
    ensures TableOk(rows[id := d], max, landed) && Kept(rows, rows[id := d])
    ensures AgentsOk(agents, rows[id := d], landed, owner, calls) && TicketsOk(rows[id := d], owner, calls)
  {
  }

  /** Finishing the first decision of a batch keeps what the executor still holds. */
  lemma DropKeepsAgents(agents: seq<Agent>, a: nat, rows: seq<Decision>, landed: seq<Penalty>, owner: map<Ticket, nat>,
                        calls: seq<Ticket>)
    requires AgentsOk(agents, rows, landed, owner, calls) && a < |agents| && |agents[a].batch| > 0
    ensures AgentsOk(agents[a := Agent(agents[a].batch[1..], None)], rows, landed, owner, calls)
  {
  }

  /** Executor `a` drops its first `n` decisions; those at their last attempt are closed or counted as lost. */
  lemma DropKeepsLast(rows: seq<Decision>, after: seq<Decision>, max: nat, agents: seq<Agent>, a: nat, n: nat,
                      lost: set<nat>, lost': set<nat>)
    requires LastAttemptsOk(rows, max, agents, lost) && a < |agents| && n <= |agents[a].batch| && lost <= lost'
    requires |after| == |rows|
    requires forall id | 0 <= id < |rows| ::
             after[id].attempts == rows[id].attempts && (after[id].Open() ==> rows[id].Open())
    requires forall id | id in lost' - lost :: id < |rows| && rows[id].attempts == max
    requires forall i | 0 <= i < n && agents[a].batch[i].attempts == max - 1 && agents[a].batch[i].id < |rows| ::
               agents[a].batch[i].id in lost' || !after[agents[a].batch[i].id].Open()
    ensures LastAttemptsOk(after, max, agents[a := Agent(agents[a].batch[n..], None)], lost')
  {
    var batch, rest := agents[a].batch, agents[a].batch[n..];
    assert forall id | id in lost' :: id in lost || id in lost' - lost;
    var agents' := agents[a := Agent(rest, None)];
    forall id | 0 <= id < |after| ensures LastAttemptOk(id, after[id], max, agents', lost') {
      assert LastAttemptOk(id, rows[id], max, agents, lost);
      if after[id].Open() && after[id].attempts == max && id !in lost' {
        var b :| 0 <= b < |agents| && InBatch(agents[b].batch, Ticket(id, rows[id].attempts - 1));
        var i :| 0 <= i < |agents[b].batch| && TicketOf(agents[b].batch[i]) == Ticket(id, rows[id].attempts - 1);
        if b == a {
          assert i >= n;
          assert TicketOf(rest[i - n]) == Ticket(id, after[id].attempts - 1);
          assert InBatch(agents'[a].batch, Ticket(id, after[id].attempts - 1));
        } else {
          assert InBatch(agents'[b].batch, Ticket(id, after[id].attempts - 1));
        }
      }
    }
  }

  lemma HeadIsClaimed(rows: seq<Decision>, max: nat, agents: seq<Agent>, landed: seq<Penalty>, owner: map<Ticket, nat>,
                      calls: seq<Ticket>, a: nat)
    requires TableOk(rows, max, landed) && AgentsOk(agents, rows, landed, owner, calls)
    requires a < |agents| && agents[a].reply.Some? && agents[a].batch != []
    ensures var p := agents[a].batch[0]; var reply := agents[a].reply.value;
            && p.id < |rows| && p.attempts < rows[p.id].attempts <= max
            && DecisionOk(rows[p.id], max, landed)
            && DecisionOk(Recorded(rows[p.id], p, reply, max), max, landed)
            && DecisionKept(rows[p.id], Recorded(rows[p.id], p, reply, max))
  {
  }

  lemma BatchIsClaimed(rows: seq<Decision>, max: nat, agents: seq<Agent>, landed: seq<Penalty>, owner: map<Ticket, nat>,
                       calls: seq<Ticket>, a: nat)
    requires TableOk(rows, max, landed) && AgentsOk(agents, rows, landed, owner, calls) && a < |agents|
    ensures var batch := agents[a].batch;
            forall i | 0 <= i < |batch| ::
              batch[i].id < |rows| && (batch[i].attempts == max - 1 ==> rows[batch[i].id].attempts == max)
  {
  }

  lemma NoReplyKeepsAgents(agents: seq<Agent>, a: nat, rows: seq<Decision>, landed: seq<Penalty>,
                           owner: map<Ticket, nat>, calls: seq<Ticket>)
    requires AgentsOk(agents, rows, landed, owner, calls) && a < |agents|
    ensures AgentsOk(agents[a := Agent([], None)], rows, landed, owner, calls)
  {
  }

  /** A new row: a recorded decision, or the audit row of a penalty applied by hand. */
  lemma InsertKeeps(rows: seq<Decision>, max: nat, agents: seq<Agent>, landed: seq<Penalty>, owner: map<Ticket, nat>,
                    calls: seq<Ticket>, lost: set<nat>, d: Decision)
    requires TableOk(rows, max, landed) && AgentsOk(agents, rows, landed, owner, calls) && TicketsOk(rows, owner, calls)
    requires LastAttemptsOk(rows, max, agents, lost) && |rows| !in lost && max > 0
    requires d.attempts == 0 && d.abandoned.None?
    ensures TableOk(rows + [d], max, landed) && Kept(rows, rows + [d])
    ensures AgentsOk(agents, rows + [d], landed, owner, calls) && TicketsOk(rows + [d], owner, calls)
    ensures LastAttemptsOk(rows + [d], max, agents, lost)
  {
  }

  lemma KeptTrans(a: seq<Decision>, b: seq<Decision>, c: seq<Decision>)
    requires Kept(a, b) && Kept(b, c)
    ensures Kept(a, c)
  {
  }

  lemma KeptFromStart(a: seq<Decision>)
    ensures Kept(a, a)
  {
  }

  /** The chain's penalties after the first `k` calls of a batch. */
  function LandedAfter(batch: seq<Pending>, landed: seq<Penalty>, how: nat -> Delivery, k: nat): seq<Penalty>
    requires k <= |batch|
  {
    if k == 0 then landed
    else Landed(LandedAfter(batch, landed, how, k - 1), (batch[k - 1].node, batch[k - 1].round), how(k - 1))
  }

  /** The answer to the `i`-th call of a batch. */
  function ReplyAt(batch: seq<Pending>, landed: seq<Penalty>, how: nat -> Delivery, i: nat): Reply
    requires i < |batch|
  {
    Answer(LandedAfter(batch, landed, how, i), (batch[i].node, batch[i].round), how(i))
  }

  /** How many of the first `k` decisions are closed without an error. */
  function HandledOf(batch: seq<Pending>, landed: seq<Penalty>, how: nat -> Delivery, writes: nat -> bool, max: nat,
                     k: nat): nat
    requires k <= |batch|
  {
    if k == 0 then 0
    else
      var done := writes(k - 1) && !Retries(batch[k - 1], ReplyAt(batch, landed, how, k - 1), max);
      HandledOf(batch, landed, how, writes, max, k - 1) + if done then 1 else 0
  }

  /** The table when the first `k` decisions of a claimed batch have been dealt with. */
  ghost predicate Settled(before: seq<Decision>, after: seq<Decision>, batch: seq<Pending>, k: nat,
                          landed: seq<Penalty>, how: nat -> Delivery, writes: nat -> bool, max: nat) {
    && |after| == |before|
    && (forall id | 0 <= id < |before| && !Chosen(batch, id) :: after[id] == before[id])
    && (forall i | 0 <= i < |batch| ::
          && batch[i].id < |before|
          && after[batch[i].id] ==
             if i < k && writes(i) then Recorded(Bumped(before[batch[i].id]), batch[i], ReplyAt(batch, landed, how, i),
                                                 max)
             else Bumped(before[batch[i].id]))
  }

  lemma TakesInOrder(rows: seq<Decision>, max: nat, locked: set<nat>, limit: nat, n: nat, batch: seq<Pending>)
    requires n <= |rows| && Takes(rows, max, locked, limit, n, batch)
    ensures forall i, j | 0 <= i < j < |batch| :: batch[i].id < batch[j].id
    ensures forall i | 0 <= i < |batch| :: batch[i].id < |rows|
  {
  }

  lemma SettledFromClaim(before: seq<Decision>, after: seq<Decision>, batch: seq<Pending>, landed: seq<Penalty>,
                         how: nat -> Delivery, writes: nat -> bool, max: nat)
    requires CountedUp(before, after, batch) && forall i | 0 <= i < |batch| :: batch[i].id < |before|
    ensures Settled(before, after, batch, 0, landed, how, writes, max)
  {
  }

  lemma SettledNext(before: seq<Decision>, after: seq<Decision>, batch: seq<Pending>, k: nat, landed: seq<Penalty>,
                    how: nat -> Delivery, writes: nat -> bool, max: nat)
    requires k < |batch| && Settled(before, after, batch, k, landed, how, writes, max)
    requires forall i, j | 0 <= i < j < |batch| :: batch[i].id < batch[j].id
    ensures var id := batch[k].id; var reply := ReplyAt(batch, landed, how, k);
            Settled(before, if writes(k) then after[id := Recorded(after[id], batch[k], reply, max)]
                    else after, batch, k + 1, landed, how, writes, max)
  {
    hide Recorded, ReplyAt;
    assert Chosen(batch, batch[k].id);
  }

  /** After a Step, a decision claimed for the last time is closed exactly when its closing write succeeded. */
  lemma LastAttemptCloses(before: seq<Decision>, after: seq<Decision>, locked: set<nat>, limit: nat,
                          batch: seq<Pending>, landed: seq<Penalty>, how: nat -> Delivery, writes: nat -> bool,
                          max: nat, i: nat)
    requires Takes(before, max, locked, limit, |before|, batch)
    requires Settled(before, after, batch, |batch|, landed, how, writes, max)
    requires i < |batch| && batch[i].attempts + 1 == max
    ensures after[batch[i].id].Open() <==> !writes(i)
    ensures after[batch[i].id].attempts == max && !after[batch[i].id].Claimable(max)
  {
    assert before[batch[i].id].Claimable(max);
  }

  lemma RowIsOk(rows: seq<Decision>, max: nat, landed: seq<Penalty>, id: nat)
    requires TableOk(rows, max, landed) && id < |rows|
    ensures DecisionOk(rows[id], max, landed)
  {
  }

  lemma ExecutedKeepsLast(rows: seq<Decision>, max: nat, agents: seq<Agent>, lost: set<nat>, id: nat, d: Decision)
    requires LastAttemptsOk(rows, max, agents, lost) && id < |rows| && d.attempts == rows[id].attempts && !d.Open()
    ensures LastAttemptsOk(rows[id := d], max, agents, lost)
  {
  }

  /** The row after a penalty seen on chain is reconciled with it: executed once, with the amount that moved. */
  function Confirmed(d: Decision, amount: int, txHash: string): Decision {
    if d.executed || d.round.None? then d else d.(executed := true, amount := amount, txHash := txHash)
  }

  /** The decisions of a batch claimed for the last time. */
  ghost function LastAttempts(batch: seq<Pending>, max: nat): set<nat> {
    set i | 0 <= i < |batch| && batch[i].attempts == max - 1 :: batch[i].id
  }

  /** Everything a move can change. */
  datatype State = State(rows: seq<Decision>, agents: seq<Agent>, landed: seq<Penalty>, calls: seq<Ticket>,
                         lost: set<nat>)

  function TicketsOf(batch: seq<Pending>): seq<Ticket> {
    seq(|batch|, i requires 0 <= i < |batch| => TicketOf(batch[i]))
  }

  /** What one submission does to the state. */
  ghost predicate Submitted(max: nat, s: State, t: State, a: nat, how: Delivery, writes: bool, handled: bool)
    requires a < |s.agents| && s.agents[a].batch != []
  {
    var p := s.agents[a].batch[0];
    var penalty := (p.node, p.round);
    var reply := Answer(s.landed, penalty, how);
    && handled == (writes && !Retries(p, reply, max))
    && p.id < |s.rows|
    && t.rows == (if writes then s.rows[p.id := Recorded(s.rows[p.id], p, reply, max)] else s.rows)
    && t.landed == Landed(s.landed, penalty, how) && t.calls == s.calls + [TicketOf(p)]
    && (writes ==> t.lost == s.lost)
    && t.agents == s.agents[a := Agent(s.agents[a].batch[1..], None)]
  }

  /** The state when executor `a` has dealt with the first `k` decisions of its batch. */
  ghost predicate DealtWith(max: nat, s: State, t: State, a: nat, batch: seq<Pending>, k: nat, how: nat -> Delivery,
                            writes: nat -> bool, handled: nat) {
    && k <= |batch| && a < |s.agents| && t.agents == s.agents[a := Agent(batch[k..], None)]
    && t.landed == LandedAfter(batch, s.landed, how, k) && t.calls == s.calls + TicketsOf(batch[..k])
    && handled == HandledOf(batch, s.landed, how, writes, max, k)
    && Settled(s.rows, t.rows, batch, k, s.landed, how, writes, max)
    && ((forall i | 0 <= i < k :: writes(i)) ==> t.lost == s.lost)
    && forall i, j | 0 <= i < j < |batch| :: batch[i].id < batch[j].id
  }

  lemma {:induction false} NothingDealtWith(max: nat, s: State, t: State, a: nat, batch: seq<Pending>,
                                            how: nat -> Delivery, writes: nat -> bool)
    requires CountedUp(s.rows, t.rows, batch) && forall i | 0 <= i < |batch| :: batch[i].id < |s.rows|
    requires forall i, j | 0 <= i < j < |batch| :: batch[i].id < batch[j].id
    requires a < |s.agents| && t == s.(rows := t.rows, agents := s.agents[a := Agent(batch, None)])
    ensures DealtWith(max, s, t, a, batch, 0, how, writes, 0)
  {
    SettledFromClaim(s.rows, t.rows, batch, s.landed, how, writes, max);
    assert batch[0..] == batch && TicketsOf(batch[..0]) == [];
    hide Settled;
  }

  lemma {:induction false} BatchIs(max: nat, s: State, t: State, a: nat, batch: seq<Pending>, k: nat,
                                   how: nat -> Delivery, writes: nat -> bool, handled: nat)
    requires DealtWith(max, s, t, a, batch, k, how, writes, handled)
    ensures a < |t.agents| && t.agents[a] == Agent(batch[k..], None)
  {
  }

  lemma {:induction false} OneMoreDealtWith(max: nat, s: State, t: State, u: State, a: nat, batch: seq<Pending>, k: nat,
                                            how: nat -> Delivery, writes: nat -> bool, handled: nat, done: bool)
    requires k < |batch| && DealtWith(max, s, t, a, batch, k, how, writes, handled)
    requires a < |t.agents| && t.agents[a].batch != [] && Submitted(max, t, u, a, how(k), writes(k), done)
    ensures DealtWith(max, s, u, a, batch, k + 1, how, writes, handled + if done then 1 else 0)
  {
    hide Settled, Recorded, Answer, Retries, Landed, TicketsOf;
    SettledNext(s.rows, t.rows, batch, k, s.landed, how, writes, max);
    OneMoreTicket(s.calls, batch, k);
    var p := batch[k];
    assert t.agents[a].batch[0] == p && batch[k..][1..] == batch[k + 1..];
    assert Answer(t.landed, (p.node, p.round), how(k)) == ReplyAt(batch, s.landed, how, k);
    assert u.agents == s.agents[a := Agent(batch[k + 1..], None)];
    assert u.landed == LandedAfter(batch, s.landed, how, k + 1);
    assert (forall i | 0 <= i < k + 1 :: writes(i)) ==> (forall i | 0 <= i < k :: writes(i)) && writes(k);
  }

  lemma {:induction false} OneMoreTicket(calls: seq<Ticket>, batch: seq<Pending>, k: nat)
    requires k < |batch|
    ensures calls + TicketsOf(batch[..k + 1]) == (calls + TicketsOf(batch[..k])) + [TicketOf(batch[k])]
  {
    assert TicketsOf(batch[..k + 1]) == TicketsOf(batch[..k]) + [TicketOf(batch[k])];
  }

  lemma {:induction false} AllDealtWith(max: nat, s: State, t: State, a: nat, batch: seq<Pending>, how: nat -> Delivery,
                                        writes: nat -> bool, handled: nat)
    requires DealtWith(max, s, t, a, batch, |batch|, how, writes, handled)
    ensures t.agents == s.agents[a := Agent([], None)] && t.landed == LandedAfter(batch, s.landed, how, |batch|)
    ensures t.calls == s.calls + TicketsOf(batch) && handled == HandledOf(batch, s.landed, how, writes, max, |batch|)
    ensures Settled(s.rows, t.rows, batch, |batch|, s.landed, how, writes, max)
    ensures (forall i | 0 <= i < |batch| :: writes(i)) ==> t.lost == s.lost
  {
    assert batch[|batch|..] == [] && batch[..|batch|] == batch;
    hide Settled;
  }

  /** UPDATE ... SET attempts = attempts + 1 ... RETURNING: the claimed decisions, and the table after. */
  method Select(rows: seq<Decision>, max: nat, locked: set<nat>, limit: nat)
    returns (batch: seq<Pending>, updated: seq<Decision>)
    ensures Takes(rows, max, locked, limit, |rows|, batch) && CountedUp(rows, updated, batch)
  {
    batch, updated := [], rows;
    for id := 0 to |rows|
      invariant Takes(rows, max, locked, limit, id, batch)
      invariant CountedUp(rows, updated, batch)
    {
      TakesNext(rows, max, locked, limit, id, batch);
      if |batch| < limit && rows[id].Claimable(max) && id !in locked {
        CountedUpNext(rows, updated, batch, PendingOf(id, rows[id]));
        batch := batch + [PendingOf(id, rows[id])];
        updated := updated[id := Bumped(rows[id])];
      }
    }
  }

  class System {
    const max: nat
    var rows: seq<Decision>
    var agents: seq<Agent>
    /** The penalties the chain has applied, in order. */
    var landed: seq<Penalty>
    /** Who made each claim, every submission passed to the chain, and the decisions whose last attempt was dropped. */
    ghost var owner: map<Ticket, nat>
    ghost var calls: seq<Ticket>
    ghost var lost: set<nat>

    ghost predicate Valid()
      reads this
    {
      && max > 0
      && TableOk(rows, max, landed) && AgentsOk(agents, rows, landed, owner, calls)
      && TicketsOk(rows, owner, calls) && LastAttemptsOk(rows, max, agents, lost)
      && NoDuplicates(landed)
    }

    ghost function Snapshot(): State
      reads this
    {
      State(rows, agents, landed, calls, lost)
    }

    constructor (max: nat, executors: nat)
      requires max > 0
      ensures Valid() && this.max == max && rows == [] && landed == [] && calls == [] && lost == {}
      ensures |agents| == executors && forall a | 0 <= a < executors :: agents[a] == Agent([], None)
    {
      this.max := max;
      rows, landed, agents := [], [], seq(executors, _ => Agent([], None));
      owner, calls, lost := map[], [], {};
    }

    /** The claim is one statement, so no two executors ever hold the same attempt. */
    method Claim(a: nat, limit: nat, locked: set<nat>)
      requires Valid() && a < |agents| && agents[a].batch == []
      modifies this`rows, this`agents, this`owner
      ensures Valid() && Kept(old(rows), rows)
      ensures |agents| == |old(agents)| && agents == old(agents)[a := agents[a]] && agents[a].reply.None?
      ensures Takes(old(rows), max, locked, limit, |old(rows)|, agents[a].batch)
      ensures CountedUp(old(rows), rows, agents[a].batch)
    {
      hide TableOk, AgentsOk, TicketsOk, LastAttemptsOk, NoDuplicates, Kept, Takes, CountedUp, Handed;
      var batch, updated := Select(rows, max, locked, limit);
      ClaimKeepsTable(rows, updated, max, landed, locked, limit, batch);
      ClaimKeepsTickets(rows, updated, max, owner, calls, locked, limit, batch, a);
      ClaimKeepsAgents(rows, updated, max, agents, landed, owner, calls, locked, limit, batch, a);
      ClaimKeepsLast(rows, updated, max, agents, lost, locked, limit, batch, a);
      rows, agents, owner := updated, agents[a := Agent(batch, None)], Handed(owner, batch, a);
    }

    /** The chain call: an attempt no call was made for before. */
    method Call(a: nat, how: Delivery)
      requires Valid() && a < |agents| && agents[a].batch != [] && agents[a].reply.None?
      modifies this`agents, this`landed, this`calls
      ensures Valid()
      ensures var p := old(agents)[a].batch[0]; var penalty := (p.node, p.round);
              && landed == Landed(old(landed), penalty, how) && calls == old(calls) + [TicketOf(p)]
              && agents == old(agents)[a := Agent(old(agents)[a].batch, Some(Answer(old(landed), penalty, how)))]
    {
      hide TableOk, AgentsOk, LastAttemptsOk, AgentOk;
      var p := agents[a].batch[0];
      var penalty := (p.node, p.round);
      var reply := Answer(landed, penalty, how);
      SameBatchesKeepLast(rows, max, agents, a, Some(reply), lost);
      if penalty !in landed {
        LandingKeeps(rows, max, agents, landed, owner, calls, penalty);
      }
      landed := Landed(landed, penalty, how);
      CallKeepsAgents(agents, a, reply, rows, landed, owner, calls);
      agents, calls := agents[a := Agent(agents[a].batch, Some(reply))], calls + [TicketOf(p)];
    }

    /** Recording the answer. A failed write drops the decision; it is lost if that was its last attempt. */
    method Close(a: nat, writes: bool) returns (handled: bool)
      requires Valid() && a < |agents| && agents[a].reply.Some? && agents[a].batch != []
      modifies this`agents, this`rows, this`lost
      ensures Valid() && Kept(old(rows), rows)
      ensures var p := old(agents)[a].batch[0]; var reply := old(agents)[a].reply.value;
              && handled == (writes && !Retries(p, reply, max))
              && p.id < |old(rows)|
              && rows == (if writes then old(rows)[p.id := Recorded(old(rows)[p.id], p, reply, max)] else old(rows))
              && lost == old(lost) + (if !writes && p.attempts + 1 >= max then {p.id} else {})
              && agents == old(agents)[a := Agent(old(agents)[a].batch[1..], None)]
    {
      hide TableOk, AgentsOk, TicketsOk, LastAttemptsOk, NoDuplicates;
      var p, reply := agents[a].batch[0], agents[a].reply.value;
      HeadIsClaimed(rows, max, agents, landed, owner, calls, a);
      var d := if writes then Recorded(rows[p.id], p, reply, max) else rows[p.id];
      WriteKeeps(rows, max, agents, landed, owner, calls, p.id, d);
      ghost var lost' := lost + if !writes && p.attempts + 1 >= max then {p.id} else {};
      DropKeepsLast(rows, rows[p.id := d], max, agents, a, 1, lost, lost');
      DropKeepsAgents(agents, a, rows[p.id := d], landed, owner, calls);
      assert !writes ==> rows[p.id := d] == rows;
      rows, lost := rows[p.id := d], lost';
      agents := agents[a := Agent(agents[a].batch[1..], None)];
      handled := writes && !Retries(p, reply, max);
    }

    /** The process stops: whatever it had claimed is forgotten, and the attempts stay counted. */
    method Crash(a: nat)
      requires Valid() && a < |agents|
      modifies this`agents, this`lost
      ensures Valid() && agents == old(agents)[a := Agent([], None)]
      ensures lost == old(lost) + LastAttempts(old(agents)[a].batch, max)
    {
      hide TableOk, AgentsOk, TicketsOk, LastAttemptsOk, NoDuplicates;
      ghost var batch := agents[a].batch;
      ghost var lost' := lost + LastAttempts(batch, max);
      BatchIsClaimed(rows, max, agents, landed, owner, calls, a);
      DropKeepsLast(rows, rows, max, agents, a, |batch|, lost, lost');
      NoReplyKeepsAgents(agents, a, rows, landed, owner, calls);
      assert batch[|batch|..] == [];
      lost, agents := lost', agents[a := Agent([], None)];
    }

    /** The indexer's reconciliation of a penalty seen on chain: the row is executed once. */
    method Confirm(id: nat, amount: int, txHash: string)
      requires Valid() && id < |rows|
      modifies this`rows
      ensures Valid() && Kept(old(rows), rows)
      ensures rows == old(rows)[id := Confirmed(old(rows)[id], amount, txHash)]
    {
      hide TableOk, AgentsOk, TicketsOk, LastAttemptsOk, NoDuplicates;
      if !rows[id].executed && rows[id].round.Some? {
        var d := rows[id].(executed := true, amount := amount, txHash := txHash);
        RowIsOk(rows, max, landed, id);
        WriteKeeps(rows, max, agents, landed, owner, calls, id, d);
        ExecutedKeepsLast(rows, max, agents, lost, id, d);
        rows := rows[id := d];
      } else {
        KeptFromStart(rows);
      }
    }

    method Insert(node: string, round: Option<int>, amount: int, reason: string, executed: bool)
      requires Valid()
      modifies this`rows
      ensures Valid() && Kept(old(rows), rows)
      ensures rows == old(rows) + [Decision(node, round, amount, reason, 0, false, "", None, executed)]
    {
      hide TableOk, AgentsOk, TicketsOk, NoDuplicates;
      var d := Decision(node, round, amount, reason, 0, false, "", None, executed);
      InsertKeeps(rows, max, agents, landed, owner, calls, lost, d);
      rows := rows + [d];
    }

    /** A penalty applied without an executor, under the same guard. */
    method SlashByHand(node: string, round: int)
      requires Valid()
      modifies this`landed
      ensures Valid() && landed == Landed(old(landed), (node, round), Delivered(""))
    {
      hide TableOk, AgentsOk, TicketsOk, LastAttemptsOk;
      if (node, round) !in landed {
        LandingKeeps(rows, max, agents, landed, owner, calls, (node, round));
        landed := landed + [(node, round)];
      }
    }

    /** One decision of the batch: the call, and the recording of its answer. */
    method Submit(a: nat, how: Delivery, writes: bool) returns (handled: bool)
      requires Valid() && a < |agents| && agents[a].batch != [] && agents[a].reply.None?
      modifies this`agents, this`landed, this`calls, this`rows, this`lost
      ensures Valid() && Kept(old(rows), rows)
      ensures Submitted(max, old(Snapshot()), Snapshot(), a, how, writes, handled)
    {
      hide TableOk, AgentsOk, TicketsOk, LastAttemptsOk, NoDuplicates, Landed, Answer, Recorded, Kept;
      Call(a, how);
      handled := Close(a, writes);
    }

    /** One batch by one executor, with no other step between: every decision claimed is called once, in order, and one
        that fails does not hold up the others. */
    method Step(a: nat, limit: nat, locked: set<nat>, claims: bool, how: nat -> Delivery, writes: nat -> bool)
      returns (handled: nat, ok: bool, batch: seq<Pending>)
      requires Valid() && a < |agents| && agents[a] == Agent([], None)
      modifies this
      ensures Valid() && Kept(old(rows), rows) && agents == old(agents)
      ensures ok == claims && (!ok ==> batch == [] && rows == old(rows))
      ensures ok ==> Takes(old(rows), max, locked, limit, |old(rows)|, batch)
      ensures ok ==> Settled(old(rows), rows, batch, |batch|, old(landed), how, writes, max)
      ensures landed == LandedAfter(batch, old(landed), how, |batch|) && calls == old(calls) + TicketsOf(batch)
      ensures handled == HandledOf(batch, old(landed), how, writes, max, |batch|)
      ensures (forall i | 0 <= i < |batch| :: writes(i)) ==> lost == old(lost)
    {
      hide TableOk, AgentsOk, TicketsOk, LastAttemptsOk, NoDuplicates, Kept, CountedUp, Settled, Takes, DealtWith,
           Submitted;
      handled, batch := 0, [];
      KeptFromStart(rows);
      if !claims {
        return 0, false, batch;
      }
      ghost var start := Snapshot();
      Claim(a, limit, locked);
      batch := agents[a].batch;
      TakesInOrder(start.rows, max, locked, limit, |start.rows|, batch);
      NothingDealtWith(max, start, Snapshot(), a, batch, how, writes);
      var k := 0;
      while k < |batch|
        invariant k <= |batch| && Valid() && Kept(old(rows), rows)
        invariant DealtWith(max, start, Snapshot(), a, batch, k, how, writes, handled)
      {
        ghost var before, n := Snapshot(), handled;
        BatchIs(max, start, before, a, batch, k, how, writes, handled);
        var done := Submit(a, how(k), writes(k));
        KeptTrans(old(rows), before.rows, rows);
        if done {
          handled := handled + 1;
        }
        OneMoreDealtWith(max, start, before, Snapshot(), a, batch, k, how, writes, n, done);
        k := k + 1;
      }
      assert old(agents)[a] == Agent([], None);
      AllDealtWith(max, start, Snapshot(), a, batch, how, writes, handled);
      ok := true;
    }
  }

  // ----- Every interleaving --------------------------------------------------------------------

  function CallsOf(calls: seq<Ticket>, id: nat): nat {
    if calls == [] then 0
    else
      CallsOf(calls[..|calls| - 1], id) + if calls[|calls| - 1].id == id then 1 else 0
  }

  lemma {:induction false} CallsAreAttempts(calls: seq<Ticket>, id: nat, n: nat) returns (attempts: set<int>)
    requires NoDuplicates(calls)
    requires forall i | 0 <= i < |calls| && calls[i].id == id :: 0 <= calls[i].attempt < n
    ensures CallsOf(calls, id) == |attempts|
    ensures forall k | k in attempts :: 0 <= k < n && Ticket(id, k) in calls
  {
    if calls == [] {
      attempts := {};
    } else {
      var init, last := calls[..|calls| - 1], calls[|calls| - 1];
      assert calls == init + [last];
      attempts := CallsAreAttempts(init, id, n);
      if last.id == id {
        assert last !in init;
        attempts := attempts + {last.attempt};
      }
    }
  }

  lemma {:induction false} RangeBounds(s: set<int>, n: nat)
    requires forall k | k in s :: 0 <= k < n
    ensures |s| <= n
  {
    if n > 0 {
      RangeBounds(s - {n - 1}, n - 1);
    } else {
      assert forall k :: k !in s;
      assert s == {};
    }
  }

  /** A decision reaches the chain at most as often as it was claimed, and is never claimed more than `max` times. */
  lemma CallsAreBounded(rows: seq<Decision>, max: nat, landed: seq<Penalty>, owner: map<Ticket, nat>,
                        calls: seq<Ticket>, id: nat)
    requires TableOk(rows, max, landed) && TicketsOk(rows, owner, calls) && id < |rows|
    ensures CallsOf(calls, id) <= rows[id].attempts <= max
  {
    assert DecisionOk(rows[id], max, landed);
    var attempts := CallsAreAttempts(calls, id, rows[id].attempts);
    RangeBounds(attempts, rows[id].attempts);
  }

  lemma {:induction false} RemainingAdds(rows: seq<Decision>, id: nat, d: Decision, max: nat)
    requires id < |rows|
    ensures Remaining(rows[id := d], max) - Remaining(rows, max)
         == (if d.attempts < max then max - d.attempts else 0)
            - (if rows[id].attempts < max then max - rows[id].attempts else 0)
  {
    var n := |rows| - 1;
    if id < n {
      RemainingAdds(rows[..n], id, d, max);
      assert rows[id := d][..n] == rows[..n][id := d];
    } else {
      assert rows[id := d][..n] == rows[..n];
    }
  }

  /** Each claim uses up one of the attempts left. */
  lemma {:induction false} CountingUses(before: seq<Decision>, after: seq<Decision>, max: nat, batch: seq<Pending>)
    requires CountedUp(before, after, batch)
    requires forall i | 0 <= i < |batch| :: batch[i].id < |before| && before[batch[i].id].attempts < max
    requires forall i, j | 0 <= i < j < |batch| :: batch[i].id < batch[j].id
    ensures Remaining(after, max) == Remaining(before, max) - |batch|
    decreases |batch|
  {
    if batch == [] {
      assert forall id | 0 <= id < |before| :: !Chosen(batch, id);
      assert after == before;
    } else {
      var init, p := batch[..|batch| - 1], batch[|batch| - 1];
      var previous := after[p.id := before[p.id]];
      assert batch == init + [p] && Chosen(batch, p.id);
      forall k: nat ensures Chosen(batch, k) <==> Chosen(init, k) || p.id == k {
        ChosenSnoc(init, p, k);
      }
      CountingUses(before, previous, max, init);
      RemainingAdds(after, p.id, before[p.id], max);
    }
  }

  /** So claims cannot go on for ever: every one leaves fewer attempts over the whole table. */
  lemma ClaimsUseUpAttempts(before: seq<Decision>, after: seq<Decision>, max: nat, locked: set<nat>, limit: nat,
                            batch: seq<Pending>)
    requires Takes(before, max, locked, limit, |before|, batch) && CountedUp(before, after, batch)
    ensures Remaining(after, max) == Remaining(before, max) - |batch|
  {
    CountingUses(before, after, max, batch);
  }

  datatype Move =
    | Claims(a: nat, limit: nat, locked: set<nat>)
    | Calls(a: nat, how: Delivery)
    | Closes(a: nat, writes: bool)
    | Crashes(a: nat)
    | Confirms(id: nat, amount: int, txHash: string)
    | Inserts(node: string, round: Option<int>, amount: int, reason: string, executed: bool)
    | SlashedByHand(penalised: string, inRound: int)

  /** What each move does to the whole state; a move that is not enabled does nothing. */
  ghost predicate Stepped(max: nat, s: State, move: Move, t: State) {
    match move
    case Claims(a, limit, locked) =>
      if a < |s.agents| && s.agents[a].batch == [] then
        && |t.agents| == |s.agents| && t.agents[a].reply.None?
        && Takes(s.rows, max, locked, limit, |s.rows|, t.agents[a].batch)
            && CountedUp(s.rows, t.rows, t.agents[a].batch)
        && t == s.(rows := t.rows, agents := s.agents[a := t.agents[a]])
      else t == s
    case Calls(a, how) =>
      if a < |s.agents| && s.agents[a].batch != [] && s.agents[a].reply.None? then
        var p := s.agents[a].batch[0];
        var penalty := (p.node, p.round);
        t == s.(landed := Landed(s.landed, penalty, how), calls := s.calls + [TicketOf(p)],
                agents := s.agents[a := Agent(s.agents[a].batch, Some(Answer(s.landed, penalty, how)))])
      else t == s
    case Closes(a, writes) =>
      if a < |s.agents| && s.agents[a].batch != [] && s.agents[a].reply.Some? then
        var p, reply := s.agents[a].batch[0], s.agents[a].reply.value;
        && p.id < |s.rows|
        && t == s.(rows := if writes then s.rows[p.id := Recorded(s.rows[p.id], p, reply, max)] else s.rows,
                   agents := s.agents[a := Agent(s.agents[a].batch[1..], None)],
                   lost := s.lost + if !writes && p.attempts + 1 >= max then {p.id} else {})
      else t == s
    case Crashes(a) =>
      if a < |s.agents| then t == s.(agents := s.agents[a := Agent([], None)],
                                     lost := s.lost + LastAttempts(s.agents[a].batch, max))
      else t == s
    case Confirms(id, amount, txHash) =>
      t == s.(rows := if id < |s.rows| then s.rows[id := Confirmed(s.rows[id], amount, txHash)] else s.rows)
    case Inserts(node, round, amount, reason, executed) =>
      t == s.(rows := s.rows + [Decision(node, round, amount, reason, 0, false, "", None, executed)])
    case SlashedByHand(penalised, inRound) =>
      t == s.(landed := Landed(s.landed, (penalised, inRound), Delivered("")))
  }

  /** The move drops decision `id` at its last attempt: its executor stops holding it, or cannot write its closing. */
  ghost predicate Drops(max: nat, s: State, move: Move, id: nat) {
    || (move.Crashes? && move.a < |s.agents| && id in LastAttempts(s.agents[move.a].batch, max))
    || (move.Closes? && !move.writes && move.a < |s.agents| && s.agents[move.a].batch != []
        && s.agents[move.a].reply.Some?
        && s.agents[move.a].batch[0].id == id && s.agents[move.a].batch[0].attempts + 1 >= max)
  }

  ghost predicate Trace(max: nat, trace: seq<State>, moves: seq<Move>) {
    |trace| == |moves| + 1 && forall i | 0 <= i < |moves| :: Stepped(max, trace[i], moves[i], trace[i + 1])
  }

  ghost predicate DroppedOnTheWay(max: nat, trace: seq<State>, moves: seq<Move>, id: nat)
    requires |trace| == |moves| + 1
  {
    exists i :: 0 <= i < |moves| && Drops(max, trace[i], moves[i], id)
  }

  /** The lost decisions are those that some move dropped. */
  lemma {:induction false} LostExactlyWhenDropped(max: nat, trace: seq<State>, moves: seq<Move>, n: nat, id: nat)
    requires Trace(max, trace, moves) && n <= |moves|
    ensures id in trace[n].lost <==>
            id in trace[0].lost || exists i :: 0 <= i < n && Drops(max, trace[i], moves[i], id)
  {
    if n > 0 {
      LostExactlyWhenDropped(max, trace, moves, n - 1, id);
      assert Stepped(max, trace[n - 1], moves[n - 1], trace[n]);
      OneMoveDrops(max, trace[n - 1], moves[n - 1], trace[n], id);
      hide Stepped, Drops;
    }
  }

  lemma OneMoveDrops(max: nat, s: State, move: Move, t: State, id: nat)
    requires Stepped(max, s, move, t)
    ensures id in t.lost <==> id in s.lost || Drops(max, s, move, id)
  {
    hide Takes, CountedUp, Landed, Answer, Recorded, Confirmed, LastAttempts;
  }

  /** The move marks decision `id`: its answer is recorded and it is not to be retried, or its penalty is seen on
      chain. */
  ghost predicate Marks(max: nat, s: State, move: Move, id: nat) {
    || (move.Closes? && move.writes && move.a < |s.agents| && s.agents[move.a].batch != []
        && s.agents[move.a].reply.Some?
        && s.agents[move.a].batch[0].id == id && !Retries(s.agents[move.a].batch[0], s.agents[move.a].reply.value, max))
    || (move.Confirms? && move.id == id < |s.rows| && s.rows[id].round.Some?)
  }

  lemma OneMoveMarks(max: nat, s: State, move: Move, t: State, id: nat)
    requires Stepped(max, s, move, t) && id < |s.rows|
    ensures id < |t.rows| && (t.rows[id].Open() <==> s.rows[id].Open() && !Marks(max, s, move, id))
  {
    hide Takes, Landed, Answer, LastAttempts;
  }

  /** A decision is open at the end exactly when it was at the start and no move marked it, whichever attempt's it
      was. */
  lemma {:induction false} OpenExactlyWhen(max: nat, trace: seq<State>, moves: seq<Move>, n: nat, id: nat)
    requires Trace(max, trace, moves) && n <= |moves| && id < |trace[0].rows|
    ensures id < |trace[n].rows|
    ensures trace[n].rows[id].Open() <==>
            trace[0].rows[id].Open() && forall i | 0 <= i < n :: !Marks(max, trace[i], moves[i], id)
  {
    if n > 0 {
      OpenExactlyWhen(max, trace, moves, n - 1, id);
      assert Stepped(max, trace[n - 1], moves[n - 1], trace[n]);
      OneMoveMarks(max, trace[n - 1], moves[n - 1], trace[n], id);
      hide Stepped, Marks;
    }
  }

  // ----- Which marks a decision carries --------------------------------------------------------

  /** The claim and the answer a move records for decision `id`. */
  function Wrote(s: State, move: Move, id: nat): Option<(Pending, Reply)> {
    if move.Closes? && move.writes && move.a < |s.agents| && s.agents[move.a].batch != []
       && s.agents[move.a].reply.Some? && s.agents[move.a].batch[0].id == id
    then Some((s.agents[move.a].batch[0], s.agents[move.a].reply.value))
    else None
  }

  predicate WroteSent(s: State, move: Move, id: nat) {
    Wrote(s, move, id).Some? && Wrote(s, move, id).value.1.Sent?
  }

  predicate WroteAlready(s: State, move: Move, id: nat) {
    Wrote(s, move, id).Some? && Wrote(s, move, id).value.1.Already?
  }

  predicate WroteLastFailure(max: nat, s: State, move: Move, id: nat, message: string) {
    Wrote(s, move, id).Some? && Wrote(s, move, id).value.1 == Failed(message)
    && Wrote(s, move, id).value.0.attempts + 1 >= max
  }

  /** The penalty is seen on chain for the first time. */
  predicate Sees(s: State, move: Move, id: nat) {
    move.Confirms? && move.id == id < |s.rows| && s.rows[id].round.Some? && !s.rows[id].executed
  }

  /** What one move makes of a decision's marks. */
  lemma OneMoveRecords(max: nat, s: State, move: Move, t: State, id: nat)
    requires Stepped(max, s, move, t) && id < |s.rows|
    ensures id < |t.rows| && var d, e := s.rows[id], t.rows[id];
            && e.node == d.node && e.round == d.round && e.reason == d.reason
            && (e.submitted <==> d.submitted || WroteSent(s, move, id))
            && (e.executed <==> d.executed || Sees(s, move, id))
            && (e.abandoned == Some(AlreadyOnChain) <==>
                  d.abandoned == Some(AlreadyOnChain) || (d.abandoned.None? && WroteAlready(s, move, id)))
            && (forall m :: e.abandoned == Some(GaveUp(m)) <==>
                  d.abandoned == Some(GaveUp(m)) || (d.abandoned.None? && WroteLastFailure(max, s, move, id, m)))
            && e.amount == (if Sees(s, move, id) then move.amount else d.amount)
            && e.txHash == (if Sees(s, move, id) then move.txHash
                            else if WroteSent(s, move, id) && !d.submitted then Wrote(s, move, id).value.1.txHash
                            else d.txHash)
  {
    hide Takes, Landed, Answer, LastAttempts;
  }

  /** A decision is submitted exactly when some recorded answer was a sent transaction, abandoned as already on chain
      exactly when an answer to that effect was recorded while it was not abandoned, given up with a message exactly
      when the failure of a last attempt with it was, and executed exactly when its penalty was seen. */
  lemma {:induction false} MarksInFull(max: nat, trace: seq<State>, moves: seq<Move>, n: nat, id: nat)
    requires Trace(max, trace, moves) && n <= |moves| && id < |trace[0].rows|
    ensures n < |trace| && id < |trace[n].rows| && var d, e := trace[0].rows[id], trace[n].rows[id];
            && (e.submitted <==> d.submitted || exists i :: 0 <= i < n && WroteSent(trace[i], moves[i], id))
            && (e.executed <==> d.executed || exists i :: 0 <= i < n && Sees(trace[i], moves[i], id))
            && (e.abandoned == Some(AlreadyOnChain) <==>
                  || d.abandoned == Some(AlreadyOnChain)
                  || exists i :: 0 <= i < n && ClosesAsLanded(trace[i], moves[i], id))
            && (forall m :: e.abandoned == Some(GaveUp(m)) <==>
                  d.abandoned == Some(GaveUp(m)) || exists i :: 0 <= i < n && GivesUp(max, trace[i], moves[i], id, m))
  {
    if n > 0 {
      MarksInFull(max, trace, moves, n - 1, id);
      assert Stepped(max, trace[n - 1], moves[n - 1], trace[n]);
      OneMoveRecords(max, trace[n - 1], moves[n - 1], trace[n], id);
      hide Stepped, Wrote, WroteSent, WroteAlready, WroteLastFailure, Sees;
    }
  }

  predicate ClosesAsLanded(s: State, move: Move, id: nat) {
    id < |s.rows| && s.rows[id].abandoned.None? && WroteAlready(s, move, id)
  }

  predicate GivesUp(max: nat, s: State, move: Move, id: nat, message: string) {
    id < |s.rows| && s.rows[id].abandoned.None? && WroteLastFailure(max, s, move, id, message)
  }

  /** The hash a decision holds is the first one recorded for it, until the chain's own takes its place. */
  lemma {:induction false} FirstHashStays(max: nat, trace: seq<State>, moves: seq<Move>, i: nat, n: nat, id: nat)
    requires Trace(max, trace, moves) && i < n <= |moves| && id < |trace[i].rows|
    requires !trace[i].rows[id].submitted && WroteSent(trace[i], moves[i], id)
    requires forall j | i < j < n :: !Sees(trace[j], moves[j], id)
    ensures id < |trace[n].rows| && trace[n].rows[id].submitted
    ensures trace[n].rows[id].txHash == Wrote(trace[i], moves[i], id).value.1.txHash
  {
    assert !Sees(trace[i], moves[i], id);
    hide Stepped, Wrote, WroteAlready, WroteLastFailure, Sees;
    if i < n - 1 {
      FirstHashStays(max, trace, moves, i, n - 1, id);
    }
    assert Stepped(max, trace[n - 1], moves[n - 1], trace[n]);
    OneMoveRecords(max, trace[n - 1], moves[n - 1], trace[n], id);
  }

  /** The move brings the penalty to the chain. */
  predicate Delivers(s: State, move: Move, penalty: Penalty) {
    || (move.Calls? && move.a < |s.agents| && s.agents[move.a].batch != [] && s.agents[move.a].reply.None?
        && (move.how.Delivered? || move.how.AnswerLost?)
        && (s.agents[move.a].batch[0].node, s.agents[move.a].batch[0].round) == penalty)
    || (move.SlashedByHand? && (move.penalised, move.inRound) == penalty)
  }

  /** The chain has applied a penalty exactly when some call brought it there, and each call is answered by what the
      chain held before it. */
  lemma {:induction false} LandedExactlyWhen(max: nat, trace: seq<State>, moves: seq<Move>, n: nat, penalty: Penalty)
    requires Trace(max, trace, moves) && n <= |moves|
    ensures n < |trace|
    ensures penalty in trace[n].landed <==>
            penalty in trace[0].landed || exists i :: 0 <= i < n && Delivers(trace[i], moves[i], penalty)
  {
    if n > 0 {
      LandedExactlyWhen(max, trace, moves, n - 1, penalty);
      assert Stepped(max, trace[n - 1], moves[n - 1], trace[n]);
      OneMoveLands(max, trace[n - 1], moves[n - 1], trace[n], penalty);
      hide Stepped, Delivers;
    }
  }

  lemma OneMoveLands(max: nat, s: State, move: Move, t: State, penalty: Penalty)
    requires Stepped(max, s, move, t)
    ensures penalty in t.landed <==> penalty in s.landed || Delivers(s, move, penalty)
  {
    hide Takes, CountedUp, Answer, Recorded, Confirmed, LastAttempts;
  }

  lemma OneCallIsAnswered(max: nat, s: State, a: nat, how: Delivery, t: State)
    requires Stepped(max, s, Calls(a, how), t) && a < |s.agents| && s.agents[a].batch != [] && s.agents[a].reply.None?
    ensures a < |t.agents| && t.agents[a].batch == s.agents[a].batch && t.agents[a].reply.Some?
    ensures var reply := t.agents[a].reply.value;
            && (reply.Already? <==>
                how.Delivered? && (s.agents[a].batch[0].node, s.agents[a].batch[0].round) in s.landed)
            && (reply.Sent? ==> (how.Delivered? || how.Dropped?) && reply.txHash == how.txHash)
            && (reply.Failed? <==> how.AnswerLost? || how.NeverSent?)
                && (reply.Failed? ==> reply.message == how.message)
  {
  }

  ghost predicate AllIdle(agents: seq<Agent>) {
    forall a | 0 <= a < |agents| :: agents[a].batch == []
  }

  /** Open with every attempt spent and none outstanding: never to be claimed again. */
  ghost predicate Stuck(s: State, max: nat, id: nat) {
    AllIdle(s.agents) && id < |s.rows| && s.rows[id].Open() && s.rows[id].attempts == max
  }

  /** Every call bounded, and one penalty per node and round. */
  ghost predicate CallsAreSafe(s: State, max: nat) {
    (forall id: nat | id < |s.rows| :: CallsOf(s.calls, id) <= s.rows[id].attempts <= max) && NoDuplicates(s.landed)
  }

  lemma ValidIsSafe(s: State, max: nat, owner: map<Ticket, nat>)
    requires TableOk(s.rows, max, s.landed) && TicketsOk(s.rows, owner, s.calls)
    requires LastAttemptsOk(s.rows, max, s.agents, s.lost)
    requires NoDuplicates(s.landed)
    ensures CallsAreSafe(s, max)
    ensures forall id: nat :: Stuck(s, max, id) <==>
            AllIdle(s.agents) && id < |s.rows| && id in s.lost && s.rows[id].Open()
  {
    forall id: nat | id < |s.rows| ensures CallsOf(s.calls, id) <= s.rows[id].attempts <= max {
      CallsAreBounded(s.rows, max, s.landed, owner, s.calls, id);
    }
    forall id: nat ensures Stuck(s, max, id) <==>
        AllIdle(s.agents) && id < |s.rows| && id in s.lost && s.rows[id].Open() {
      assert id < |s.rows| ==> LastAttemptOk(id, s.rows[id], max, s.agents, s.lost);
    }
  }

  /** A decision open at the start ends up stuck exactly when, with no claim outstanding, some move dropped it at its
      last attempt and no move marked it. */
  ghost predicate StuckAsTold(max: nat, trace: seq<State>, moves: seq<Move>, id: nat)
    requires |trace| == |moves| + 1
  {
    id < |trace[0].rows| && trace[0].rows[id].Open() && id !in trace[0].lost ==>
      (Stuck(trace[|moves|], max, id) <==>
         AllIdle(trace[|moves|].agents) && DroppedOnTheWay(max, trace, moves, id)
         && forall i | 0 <= i < |moves| :: !Marks(max, trace[i], moves[i], id))
  }

  /** Executors step in any order, each stopping wherever it likes, and the state moves as the moves say. Closed
      decisions are never claimed again, calls and penalties stay bounded, and it is told which decisions end up
      stuck. */
  method Run(s: System, moves: seq<Move>) returns (ghost trace: seq<State>)
    requires s.Valid()
    modifies s
    ensures s.Valid() && Kept(old(s.rows), s.rows)
    ensures Trace(s.max, trace, moves) && trace[0] == old(s.Snapshot()) && trace[|moves|] == s.Snapshot()
    ensures CallsAreSafe(s.Snapshot(), s.max)
    ensures forall id | Stuck(s.Snapshot(), s.max, id) && id !in old(s.lost) :: DroppedOnTheWay(s.max, trace, moves, id)
    ensures forall id: nat :: StuckAsTold(s.max, trace, moves, id)
  {
    hide TableOk, AgentsOk, TicketsOk, LastAttemptsOk, NoDuplicates, Kept, Stepped, CallsAreSafe, Stuck, Drops, Marks;
    KeptFromStart(s.rows);
    trace := [s.Snapshot()];
    for i := 0 to |moves|
      invariant s.Valid() && Kept(old(s.rows), s.rows)
      invariant Trace(s.max, trace, moves[..i]) && trace[0] == old(s.Snapshot()) && trace[i] == s.Snapshot()
    {
      ghost var before, seen := s.rows, trace;
      Perform(s, moves[i]);
      KeptTrans(old(s.rows), before, s.rows);
      trace := trace + [s.Snapshot()];
      OneMoreStep(s.max, seen, moves[..i], moves[i], s.Snapshot());
      assert moves[..i + 1] == moves[..i] + [moves[i]];
    }
    assert moves[..|moves|] == moves;
    ValidIsSafe(s.Snapshot(), s.max, s.owner);
    forall id: nat
      ensures Stuck(s.Snapshot(), s.max, id) && id !in old(s.lost) ==> DroppedOnTheWay(s.max, trace, moves, id)
      ensures StuckAsTold(s.max, trace, moves, id)
    {
      LostExactlyWhenDropped(s.max, trace, moves, |moves|, id);
      if id < |trace[0].rows| { OpenExactlyWhen(s.max, trace, moves, |moves|, id); }
    }
  }

  lemma OneMoreStep(max: nat, trace: seq<State>, moves: seq<Move>, move: Move, t: State)
    requires Trace(max, trace, moves) && Stepped(max, trace[|moves|], move, t)
    ensures Trace(max, trace + [t], moves + [move])
  {
    hide Stepped;
    var all, longer := moves + [move], trace + [t];
    forall i | 0 <= i < |all| ensures Stepped(max, longer[i], all[i], longer[i + 1]) {
      assert i < |moves| ==> longer[i] == trace[i] && longer[i + 1] == trace[i + 1] && all[i] == moves[i];
    }
  }

  method Perform(s: System, move: Move)
    requires s.Valid()
    modifies s
    ensures s.Valid() && Kept(old(s.rows), s.rows) && Stepped(s.max, old(s.Snapshot()), move, s.Snapshot())
  {
    hide TableOk, AgentsOk, TicketsOk, LastAttemptsOk, NoDuplicates, Kept, Takes, CountedUp, Landed, Answer, Recorded,
         Confirmed,
         LastAttempts;
    KeptFromStart(s.rows);
    var n := |s.agents|;
    match move {
      case Claims(a, limit, locked) =>
        if a < n && s.agents[a].batch == [] { s.Claim(a, limit, locked); }
      case Calls(a, how) =>
        if a < n && s.agents[a].batch != [] && s.agents[a].reply.None? { s.Call(a, how); }
      case Closes(a, writes) =>
        if a < n && s.agents[a].batch != [] && s.agents[a].reply.Some? { var handled := s.Close(a, writes); }
      case Crashes(a) =>
        if a < n { s.Crash(a); }
      case Confirms(id, amount, txHash) =>
        if id < |s.rows| { s.Confirm(id, amount, txHash); }
      case Inserts(node, round, amount, reason, executed) =>
        s.Insert(node, round, amount, reason, executed);
      case SlashedByHand(penalised, inRound) =>
        s.SlashByHand(penalised, inRound);
    }
  }

  // ----- A decision that is stuck --------------------------------------------------------------

  /** One executor, one attempt: the decision is claimed, the executor stops, and nobody will ever claim it again. */
  method EndsStuck() returns (s: System)
    ensures fresh(s) && s.Valid() && Stuck(s.Snapshot(), s.max, 0)
  {
    hide TableOk, AgentsOk, TicketsOk, LastAttemptsOk, NoDuplicates, Kept;
    s := new System(1, 1);
    Perform(s, Inserts("node", Some(1), 100, "MISSED_ROUND", false));
    ghost var before := s.rows;
    assert before[0].Claimable(1);
    Perform(s, Claims(0, 10, {}));
    ghost var batch := s.agents[0].batch;
    assert Takes(before, 1, {}, 10, 1, batch);
    assert batch != [] ==> batch[0].id == 0;
    assert Chosen(batch, 0);
    Perform(s, Crashes(0));
  }
}
