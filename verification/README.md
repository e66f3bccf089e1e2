# Aegis Protocol: a verified model

A Dafny 4.11 model of the parts of an oracle, vault and governance protocol whose promises are about every run, every
input or every byte, with proofs of those promises. Check it with `dafny verify dfyconfig.toml`.

| file | what it models |
|---|---|
| `RollingCap.dfy` | the treasury's rolling outflow cap: sixteen reused slots against an unbounded ledger |
| `NodeIntervals.dfy` | the table of periods nodes spent in the active set, and its replay-safe updates |
| `MissedRounds.dfy` | who missed a round, and what each miss in a history costs |
| `MissJudge.dfy` | the aggregator that judges rounds in order through crashes and restarts |
| `Indexer.dfy` | the event indexer: batches, confirmation window, cursor, insert-once handlers |
| `Executor.dfy` | any number of executors submitting slash decisions to the chain |
| `Governance.dfy` | proposals, votes and tallies, and actions received on another chain |
| `SignaturePaging.dfy`, `StableSort.dfy` | reading a Solana program's events: paging, ordering, numbering, filtering |
| `Transaction.dfy` | the Solana legacy transaction builder and a parser for what it writes |
| `IdlCodec.dfy` | Anchor-encoded fields, written by the frontend and read by frontend and backend |
| `OracleSubmission.dfy` | the message a node signs, built twice, and the signature check around it |
| `GovernanceMessage.dfy` | Wormhole bodies, version-1 governance payloads and the account list a vote binds |
| `MerklePath.dfy` | the browser's sparse Merkle path and the leaf download in front of it |
| `WideDivision.dfy`, `VaultShares.dfy` | exact wide division, and the share conversions and vault accounting built on it |
| `FirstDepositor.dfy`, `DepositsAlone.dfy` | what a first depositor can gain from others' roundings |
| `Medians.dfy` | the two medians and outlier detection |
| `PriceText.dfy` | decimal price text to scaled integers and back |
| `SolanaLayouts.dfy` | the checker of account layouts before an upgrade |
| `Octets.dfy`, `Arithmetic.dfy`, `Options.dfy` | byte strings, division lemmas, Option and Result |

How the model is built:

- Each SQL statement is a method whose contract is its WHERE or ON CONFLICT clause, over tables held as maps and sequences;
  unique keys, foreign keys and checks are modelled where they decide an outcome.
- A crash is a write budget that runs out between any two writes, or, for the executors, a move of the interleaving.
  A restart goes on from the tables alone.
- Loops, buffers and in-place arrays of the source stay loops, buffers and arrays, proved against functions that the
  theorems are then about.
- Hashes, signatures and UTF-8 validity are arbitrary functions; results that need a hash without collisions say so.
- The clock, the network and the chain's answers are parameters, arbitrary unless a contract says otherwise.

What the proofs found where the code and its promises part, each with its exact condition:

- The rolling cap (`window.rs:16`): `saturating_sub` makes an outflow stamped with the first instant of i64 stop counting,
  so the cap holds over every run only away from that instant (`RollingCap.CapHoldsExactlyWhen`).
- Slash decisions (`migrations/000006_slash_execution.up.sql:23-25`): one row per node and round is allowed, so a slash of
  another reason recorded for a node whose miss costs something makes judging stop at that round for as long as the stake
  makes the miss cost something; a ready round for which the call finds none, with stakes known and writes enough, completes
  (`MissJudge.Aggregator.JudgeRound`, `MissJudge.JudgesAllItCan`, `MissJudge.ClashBlocks`, `MissJudge.StoppedByAnotherReason`).
- The executor (`executor.go:77-80` says an exhausted decision is abandoned): one whose last attempt's closing write fails, or
  whose executor stops before it, ends neither submitted nor abandoned and is never claimed again, exactly unless an executor
  still holding an earlier attempt records its answer afterwards or the penalty is seen on chain
  (`Executor.Run`, `Executor.LastAttemptCloses`, `Executor.EndsStuck`).
- Governance transitions (`governance.go:52-53`): replays of what took effect are invisible, but a transition that arrived
  before its guard could match takes effect when it is replayed later (`Governance.ReplayIsInvisibleExactlyWhen`).
- Account decoding (`idl.ts:79`): a boolean byte above one is false to the frontend and an error to the backend
  (`IdlCodec.DecodersAgreeExactlyWhen`).
- Transactions (`tx.go:155`): the signer count is one byte, so 256 signers read back as none; up to 255 are exact
  (`Transaction.TransactionReadsBack`).
- Prices (`price.go:56-75`): printing then parsing is the identity exactly on amounts that are not negative
  (`PriceText.RoundTripExactlyWhen`).
- The verification instruction (`oracle.go:73-75`) keeps sixteen bits of the message's length
  (`OracleSubmission.BuilderIsAcceptedExactlyWhen`); a submission is far below the limit.
- The vault's virtual shares (`math.rs:94-95`): what others' roundings leave behind can outweigh what a first depositor lost
  to them. One later deposit is enough when its owner then withdraws in small parts
  (`FirstDepositor.OneLaterDepositIsEnough`, `FirstDepositor.NeverAheadExactlyWhen`); few enough calls by others never do
  (`FirstDepositor.FirstDepositorNeverProfits`), and while nobody else withdraws the number of deposits that is harmless is
  known exactly (`DepositsAlone.DepositsAloneNeverProfitExactlyWhen`).
- Instruction arguments (`idl.ts:31`): a key given for an integer is taken for the number its base58 text spells, if it is all
  digits (`IdlCodec.SystemProgramIsANumber`).
- Missed rounds (`docs/v1.3-missed-round-slashing-plan.md:99-100`): the plan says in one place that an excluded round resets a streak and
  in another that it does not break one; the code neither extends nor breaks it, and the model follows the code.

## Model

| member | source | states |
|---|---|---|
| `RollingCap.Record` | solana/programs/aegis_governance_receiver/src/window.rs:8-36 | The scan over the two arrays returns the outcome and leaves the sixteen slots that one step of the specification gives; an error, and an outflow of zero, leave both arrays as they were. |
| `RollingCap.SlotsRefineLedger` | solana/programs/aegis_governance_receiver/src/window.rs:5-7 | Over every run whose clock never goes back and stays a window above the first instant, the sixteen reused slots give the same verdicts as an unbounded ledger: accepted exactly when the ledger's live sum fits the cap and fewer than sixteen outflows are live. |
| `RollingCap.VerdictInFull` | solana/programs/aegis_governance_receiver/src/window.rs:8-36 | What the ledger answers: an outflow is accepted exactly when it and the outflows inside the window sum to at most the cap and fewer than sixteen of those are positive. |
| `RollingCap.CapHoldsOverEveryWindow` | solana/programs/aegis_governance_receiver/src/window.rs:5-7 | Outflows accepted inside any window (t - W, t] sum to at most the cap, over every such run. |
| `RollingCap.CapHoldsExactlyWhen` | solana/programs/aegis_governance_receiver/src/window.rs:16 | The cap holds over every run from a given starting time exactly when the cap is zero or that time is far enough above the first instant of i64; otherwise the saturating subtraction forgets outflows at that instant. |
| `RollingCap.TwiceAtTheFirstInstant` | solana/programs/aegis_governance_receiver/src/window.rs:16-20 | The concrete run in which two outflows of the whole cap are both accepted at the first instant of i64. |
| `NodeIntervals.IntervalTable.OpenNodeInterval` | backend/internal/db/oracle.go:290-294 | An activation inserts its row once; the row of an activation already recorded is left alone. |
| `NodeIntervals.IntervalTable.CloseNodeInterval` | backend/internal/db/oracle.go:299-326 | A deactivation closes the node's latest interval that began before it, unless that one was closed by another deactivation, and reports whether there was one. |
| `NodeIntervals.IntervalTable.NodeIntervalsAt` | backend/internal/db/oracle_misses.go:34-39 | Reading the table at a version gives exactly the intervals containing it, each once. |
| `NodeIntervals.SelectAt` | backend/internal/db/oracle_misses.go:34-39 | The rows selected at a version are exactly the intervals containing it, each once. |
| `NodeIntervals.TableMirrorsEvents` | backend/internal/db/oracle.go:289-308 | For per-node alternating changes with increasing versions, the table is exactly one row per activation, closed by the deactivation that followed it and by no other. |
| `NodeIntervals.ClosesOneRow` | backend/internal/db/oracle.go:299-308 | A deactivation changes at most one row, the node's latest that began before it, and only that row's end. |
| `NodeIntervals.ReplayIsInvisible` | backend/internal/db/oracle.go:296-298 | Replaying any already-applied stretch any number of times leaves the table of the first deliveries. |
| `NodeIntervals.IntervalsAreDisjoint` | backend/internal/db/oracle.go:299-308 | No version lies in two intervals of one node. |
| `NodeIntervals.SelectionIsTheActiveSet` | backend/internal/db/oracle_misses.go:34-39 | The nodes selected at a version are exactly those whose last change at or below it was an activation. |
| `NodeIntervals.OnlyTheOpenRowMoves` | backend/internal/db/oracle.go:299-308 | A later change touches no row closed before it: only the changing node's open row, or a new one. |
| `MissedRounds.JudgeRound` | backend/internal/oracle/missed.go:80-114 | The loop with its seen-set, followed by the sort, computes the judgement specified. |
| `MissedRounds.JudgementIsExact` | backend/internal/oracle/missed.go:75-114 | With one containing row per node: exactly the verdicts those rows call for, one per node, in node order, and none for a node without one. |
| `MissedRounds.VerdictsInFull` | backend/internal/oracle/missed.go:80-134 | A node with a row containing the version missed the round exactly when it was silent, some other was not, the round did not settle before its deadline, and its row was not closed before the deadline manually or for its stake; it submitted exactly when it did; otherwise it is excused, for the first of the reasons that applies. |
| `MissedRounds.JudgedWhenExpected` | backend/internal/oracle/missed.go:75-95 | A node has a verdict exactly when some row of its own contains the version. |
| `MissedRounds.RowOrderDoesNotMatter` | backend/internal/oracle/missed.go:92-113 | Two row lists holding the same rows, with one containing row per node, give the same verdicts. |
| `MissedRounds.JudgedNodesAreTheActiveSet` | backend/internal/oracle/missed.go:77-79 | Judged from the interval table after any replayed delivery of its events, a round gives each node active at its version one verdict, whatever order the rows come in. |
| `MissedRounds.LaterChangesKeepVerdicts` | backend/internal/oracle/missed.go:118-126 | A set change after the round's version, if a removal then not before the deadline unless the round settled early, leaves every verdict as it was. |
| `MissedRounds.LaterEventsKeepVerdicts` | backend/internal/oracle/missed.go:118-126 | So does any number of such changes, and the verdicts do not depend on the order the rows are read in. |
| `MissedRounds.PenaltiesFor` | backend/internal/oracle/missed.go:141-162 | The loop with its streak counter computes the penalties specified. |
| `MissedRounds.PenaltiesAreCausal` | backend/internal/oracle/missed.go:136-137 | The penalties of a prefix of a history are the prefix of its penalties: judging later rounds changes none. |
| `MissedRounds.EveryMissIsPenalised` | backend/internal/oracle/missed.go:151-158 | A round carries a penalty exactly when it is a miss. |
| `MissedRounds.StreakPenaltyIsEveryThirdMiss` | backend/internal/oracle/missed.go:139-158 | A miss costs 1000 basis points when it is a third, sixth, ... since the node last submitted and 50 otherwise, each under its own reason; nothing else costs anything. |
| `MissedRounds.StreaksBetweenSubmissions` | backend/internal/oracle/missed.go:147-158 | k misses between two submissions contain exactly floor(k/3) consecutive penalties, whatever came before. |
| `MissedRounds.ExcusedRoundsDoNotMatter` | backend/internal/oracle/missed.go:149-150 | Deleting the excused rounds from a history deletes their empty places from the penalties and changes nothing else. |
| `MissJudge.Aggregator.JudgeMisses` | backend/internal/oracle/aggregator.go:119-151 | From any point of the pass a call leaves the tables at a point no earlier, adding only rows of its own to the slashes it found. It judges on until the batch is full, the rounds run out, the lowest is unfinished or not fully indexed, its writes run out, or a slash of another reason or a missing stake row that it found stops it, and says which. |
| `MissJudge.Aggregator.JudgeRound` | backend/internal/oracle/aggregator.go:153-192 | A round is judged from wherever a crash left it, adding only rows of its own. It is done only if the slashes it found hindered no missing node, fails only for a clash among them or a node without a stake row, and dies only of too few writes; the error that a recorded miss produced no penalty is never returned. |
| `MissJudge.Aggregator.RecordSlashDecision` | backend/internal/db/oracle_aggregation.go:36-45 | A decision is recorded once; a different one for the same node and round is refused by the unique index. |
| `MissJudge.Aggregator.NextRoundToJudge` | backend/internal/db/oracle_misses.go:16-25 | The lowest unjudged round id, whatever its state. |
| `MissJudge.Aggregator.Decide` | backend/internal/oracle/aggregator.go:302-332 | The decision written is the largest amount whose ten-thousandfold is at most stake times basis points, under the penalty's reason; nothing is written when that product is below ten thousand, and otherwise a row is there. |
| `MissJudge.Run` | backend/internal/oracle/aggregator.go:112-192 | After any number of process lives, each dying after any number of writes, with stakes changed and slashes written by others in any way between them: the tables are a crash point of one pass over the rounds in ascending order, each decision is that pass's for a stake some life read, every life adds only decisions of the aggregator's own to what it found, and its end has its reason in what it found. |
| `MissJudge.JudgedInOrder` | backend/internal/oracle/aggregator.go:115-118 | At every such point the rounds marked judged are exactly the lowest ones, in ascending order: none is judged before a lower one. |
| `MissJudge.JudgedOutcomes` | backend/internal/oracle/aggregator.go:167-170 | Every judged round's recorded outcomes are its verdicts, and so are those of any round for which a decision has been taken: no decision comes before its round's outcomes. |
| `MissJudge.JudgedDecisions` | backend/internal/oracle/aggregator.go:172-189 | A judged round's decisions are exactly what its misses cost at the stakes read, computed from the verdicts of all rounds up to it: one row per missing node with a positive amount, of the right reason, and none of the aggregator's own otherwise. |
| `MissJudge.SlashesInNumbers` | backend/internal/oracle/aggregator.go:302-332 | For every judged round and node: a slash of the aggregator's own is of a miss, half a percent of the stake read, or ten percent on every third miss since the node last submitted, rounded down, under the reason that goes with it; a miss has a row whenever that comes to one or more. |
| `MissJudge.HistoryIsTheVerdicts` | backend/internal/db/oracle_misses.go:47-51 | A node's recorded history is its verdicts of the rounds judged, in round order. |
| `MissJudge.CrashesLeaveNoTrace` | backend/internal/oracle/aggregator.go:112-118 | Two crash points of runs over the same rounds that took decisions from the same stakes and hold no one else's slashes have the same outcomes and decisions for every round both have judged. |
| `MissJudge.RunsAgree` | backend/internal/oracle/aggregator.go:112-118 | However two runs are cut into lives and wherever those die, if nobody else writes slashes and stakes read agree, they record the same outcomes, decisions and slashes for every round both have judged. |
| `MissJudge.RowsAreKnown` | backend/internal/db/oracle_aggregation.go:36-45 | After any run, every slash in the table was recorded by the aggregator or written by others before some life. |
| `MissJudge.JudgesAllItCan` | backend/internal/oracle/aggregator.go:119-151 | With writes enough, a call that has room in its batch and a ready round next stops there only if a clash or a missing stake row it found hinders that round; nothing else ends it. |
| `MissJudge.MissIsLast` | backend/internal/oracle/aggregator.go:177-183 | With a round's outcomes recorded, a node that missed it has a penalty for it, computed from outcomes up to that round alone. |
| `MissJudge.ClashBlocks` | backend/internal/db/oracle_aggregation.go:36-45 | A slash of another reason on the key of a node whose miss costs something keeps the round from ever completing while the stake is what it was. |
| `MissJudge.StoppedByAnotherReason` | backend/internal/oracle/aggregator.go:172-189 | The concrete case: two active nodes, one of them missing the round with an outlier slash already on its key, and judging stops there. |
| `MissJudge.HistoriesFixVerdicts` | backend/internal/oracle/missed.go:118-126 | Along one lawful history of set changes, delivered with any replays, a finished round's verdicts no longer change when each later change comes after the round opened and, if a removal, not before the deadline unless the round settled early. |
| `MissJudge.FinishedRoundsStayFixed` | backend/internal/db/oracle.go:48-57 | In particular they no longer change when the chain's clock has gone on: later removals are not before the round settled or failed. |
| `Indexer.Process.SaveCursor` | backend/internal/db/cursor.go:17-23 | The stored cursor never goes back: a write at or below it changes nothing. |
| `Indexer.Process.RestoreCursor` | backend/internal/indexer/indexer.go:231-247 | A stored cursor always wins over the configured start block, which is stored only when there is none. |
| `Indexer.Process.Step` | backend/internal/indexer/indexer.go:120-164 | A poll moves the cursor only forward, to the end of the batch or the last confirmed block, and only after every handler has recorded every event up to it; it keeps every row, and an interrupted poll leaves the cursor where it was. |
| `Indexer.Process.Dispatch` | backend/internal/indexer/indexer.go:219-229 | An event without a transaction identifier is refused; otherwise every handler records it, and a failure part way leaves every table sound. |
| `Indexer.BatchHandled` | backend/internal/indexer/indexer.go:143-147 | A batch handled on top of everything before it covers everything up to its end. |
| `Indexer.CursorMeansCleanPass` | backend/internal/indexer/indexer.go:150-151 | Whatever was replayed, a table's rows for events at or below the cursor are those of one clean pass over them; any other row is of a batch still being handled, and with none the table is the clean pass's. |
| `Indexer.Run` | backend/internal/indexer/indexer.go:67-101 | Over any sequence of starts and polls, on heads moving arbitrarily and failing at any write: the stored cursor never decreases, first appears at the configured start block, which is where the clean pass begins, moves only within the blocks confirmed under the highest head polled, every table is a clean pass up to it, and each move advances the cursor by the batch the code says or has one of the reasons not to. |
| `Indexer.CatchesUp` | backend/internal/indexer/indexer.go:67-101 | n polls in a row that nothing halts, at heads no lower than a given one, take the cursor n batches on or to that head's last confirmed block. |
| `Executor.Select` | backend/internal/db/oracle_execution.go:14-30 | The claim takes the oldest claimable unlocked decisions up to the limit, counts an attempt on exactly those, and returns them with the attempts made before. |
| `Executor.ClaimedAsRecorded` | backend/internal/db/oracle_execution.go:14-30 | What an executor holds of a claimed decision - node, round, amount, reason, attempts made - is what its row said. |
| `Executor.System.Claim` | backend/internal/db/oracle_execution.go:44-62 | A claim keeps every invariant of the interleaving, and hands each (decision, attempt) to one executor only. |
| `Executor.System.Call` | backend/internal/oracle/executor.go:102-103 | Each chain call is for an attempt never called before, and the chain applies at most one penalty per node and round. |
| `Executor.System.Close` | backend/internal/oracle/executor.go:105-138 | The answer is recorded as the switch says, by guarded writes that never unset a mark; a failed write leaves the row as claimed. |
| `Executor.System.Crash` | backend/internal/oracle/executor.go:52-57 | An executor may stop between any two steps: its claims are forgotten, their attempts stay counted, and exactly those on their last attempt are lost. |
| `Executor.System.Confirm` | backend/internal/db/oracle.go:95-99 | Reconciling a penalty seen on chain marks the row it is for as executed, once, with the amount and hash the chain reported, and changes no other row. |
| `Executor.System.Insert` | backend/internal/db/oracle.go:102-107 | A new row is appended with no attempts made and no mark but the one it comes with, and no other row changes. |
| `Executor.System.Step` | backend/internal/oracle/executor.go:81-100 | An uninterrupted batch calls the chain once for each decision claimed, in order, whatever fails before it; the rows, the chain's penalties and the count returned are determined by the answers and the writes. |
| `Executor.CallsAreBounded` | backend/internal/oracle/executor.go:22-24 | Over any interleaving, a decision reaches the chain at most as often as it was claimed, and is claimed at most the maximum number of times. |
| `Executor.ClaimsUseUpAttempts` | backend/internal/db/oracle_execution.go:14-30 | Every claim uses up one of a finite number of remaining attempts, so claims cannot go on for ever. |
| `Executor.LastAttemptCloses` | backend/internal/oracle/executor.go:77-80 | A decision claimed for the last time ends the batch closed exactly when its closing write succeeded; if not, it is neither submitted nor abandoned and can never be claimed again. |
| `Executor.LostExactlyWhenDropped` | backend/internal/oracle/executor.go:77-80 | At any point of a run, the decisions lost are those lost at its start and those some move dropped. |
| `Executor.OpenExactlyWhen` | backend/internal/oracle/executor.go:105-138 | A decision is open at any point of a run exactly when it was at its start and no move marked it: recorded an answer not to be retried, of whichever attempt, or saw its penalty on chain. |
| `Executor.MarksInFull` | backend/internal/oracle/executor.go:105-138 | Over any trace a decision is submitted exactly when a sent transaction was recorded for it, abandoned as already slashed exactly when an answer to that effect was recorded while it was not abandoned, abandoned with a message exactly when the failure of a last attempt with that message was, and executed exactly when its penalty was seen. |
| `Executor.FirstHashStays` | backend/internal/db/oracle_execution.go:32-36 | The hash a decision holds is the first one recorded for it, until the chain's own takes its place. |
| `Executor.LandedExactlyWhen` | backend/internal/oracle/executor.go:102-103 | The chain has applied a penalty exactly when some call, or a slash by hand, brought it there. |
| `Executor.EndsStuck` | backend/internal/oracle/executor.go:77-80 | The concrete case: one attempt allowed, the decision claimed, the executor stopped, and it is open with no attempt left. |
| `Executor.Run` | backend/internal/oracle/executor.go:52-57 | Any number of executors interleaving and stopping anywhere, each move changing the state as the code does: a submitted, abandoned or executed decision is never claimed again, marks are never unset, calls stay bounded, one penalty lands per node and round, and a decision open at the start ends open and out of attempts, with no claim outstanding, exactly when some move dropped it - a stop holding its last attempt, or a closing write of that attempt that failed - and no move marked it. |
| `Executor.HeadIsClaimed` | backend/internal/oracle/executor.go:105-138 | What is recorded is true: abandoned as already slashed only when the chain holds that penalty, abandoned after failures only when every attempt was made. |
| `Governance.StatesOnlyAdvance` | backend/internal/db/governance.go:52-80 | No call lowers a proposal's rank, moves it out of executed or cancelled, or changes what it proposes, and an operation once given stays. |
| `Governance.ActionsCloseOnce` | backend/internal/db/governance_remote.go:39-44 | A waiting remote action takes the first outcome reported, a closed one keeps its own whatever is reported later, and only its status ever changes. |
| `Governance.ActionsArriveWaiting` | backend/internal/db/governance_remote.go:31-37 | A remote action is stored once, waiting, as it was received; one that fails the checks is not. |
| `Governance.StepKeeps` | backend/internal/db/governance.go:35-50 | Every call, accepted or refused, keeps each tally equal to the sum of the weights of the recorded votes, one vote per event and per voter, each on an existing proposal. |
| `Governance.TalliesCountEveryVote` | backend/internal/db/governance.go:38-50 | The three tallies of a proposal together count every recorded vote's weight exactly once. |
| `Governance.VoteMovesOneNumber` | backend/internal/db/governance.go:29-50 | A vote is recorded exactly when its proposal is there, its support is 0, 1 or 2, its weight positive, and neither its event nor its voter is recorded; then its weight is added to the votes against, for or abstaining of its proposal, and nothing else changes; otherwise nothing changes. |
| `Governance.VotesRefused` | backend/internal/db/governance.go:29-33 | Which votes are errors: an unsound one, a second vote of a voter under another event, and one on a missing proposal. |
| `Governance.ProposalStartsPending` | backend/internal/db/governance.go:19-26 | A proposal is recorded once, as created, pending, without an operation and with three zeros. |
| `Governance.MovesInFull` | backend/internal/db/governance.go:52-80 | Which calls move a proposal out of which states and where to, and that only a queueing writes its operation and time. |
| `Governance.EffectAbsorbs` | backend/internal/db/governance.go:52-53 | A call that takes effect can never take effect again. |
| `Governance.ReplayIsInvisibleExactlyWhen` | backend/internal/db/governance.go:52-53 | A call can be replayed at every later time without effect exactly when what it reports is already recorded or overtaken, or the schema refuses it; an out-of-order transition that found its guard false is not such a call. |
| `Governance.ReplaysLeaveACleanPass` | backend/internal/db/governance.go:35-37 | At-least-once delivery of a stream whose events each took hold on first arrival leaves the tables of one clean pass over what has arrived, through any replays. |
| `Governance.Store.InsertGovernanceVote` | backend/internal/db/governance.go:134-157 | The vote and its recomputed tallies commit together or not at all; a replayed event inserts nothing, a second vote by one voter and a vote on a missing proposal are errors. |
| `Governance.Store.RetallyProposal` | backend/internal/db/governance.go:38-50 | Summing the votes row by row gives the specified tallies. |
| `Governance.Store.MarkProposalCancelled` | backend/internal/db/governance.go:75-80 | Cancels from any state but executed and cancelled. |
| `Governance.Store.CloseRemoteAction` | backend/internal/db/governance_remote.go:56-76 | Closes a waiting action, leaves a closed one alone, and reports one never received. |
| `Governance.Run` | backend/internal/db/governance.go:82-186 | Any sequence of calls on an empty store ends in the specified tables, and those meet every invariant. |
| `Transaction.CompactU16` | backend/internal/chain/svm/tx.go:77-87 | The shifting loop writes the compact form. |
| `Transaction.CompactReads` | backend/internal/chain/svm/tx.go:77-87 | The compact form reads back, whatever follows it. |
| `Transaction.MergedIsUnion` | backend/internal/chain/svm/tx.go:97-111 | The merged accounts are exactly those mentioned, each with the union of its privileges over all mentions. |
| `Transaction.OrderingIsUnique` | backend/internal/chain/svm/tx.go:116-138 | Only one ordering of the merged accounts is ranked, so the bytes do not depend on map iteration order. |
| `Transaction.MentionOrderDecides` | backend/internal/chain/svm/tx.go:116-138 | Accounts of the same privileges stand in the order in which they were first mentioned. |
| `Transaction.CountsGivePrivileges` | backend/internal/chain/svm/tx.go:140-155 | Each account's signer and writable privileges, read from its place and the three header counts, are its own. |
| `Transaction.WireReads` | backend/internal/chain/svm/tx.go:155-184 | Parsing the serialised transaction gives back its header, keys, blockhash and compiled instructions. |
| `Transaction.TransactionReadsBack` | backend/internal/chain/svm/tx.go:91-185 | The parsed transaction describes the request - payer first, distinct keys, exact privileges, every instruction's program, accounts and data - exactly when it has at most 255 signers. |
| `Transaction.SignersThatDoNotFit` | backend/internal/chain/svm/tx.go:155 | The concrete case: a request in which a payer and 255 others sign is serialised, and does not read back. |
| `Transaction.BuildTransaction` | backend/internal/chain/svm/tx.go:91-185 | The imperative builder fails for more than 256 accounts mentioned, and otherwise succeeds exactly when every signer mentioned is the payer or has its key given; the bytes are those of the ranked ordering, and each signature is its key's over all bytes behind the signatures. |
| `Transaction.SignaturesCoverTheMessage` | backend/internal/chain/svm/tx.go:176-184 | In the bytes as parsed, the i-th signature is the i-th key's over exactly the bytes that follow the signatures, one for each required signer. |
| `Transaction.RankEntries` | backend/internal/chain/svm/tx.go:116-138 | Listing the map in any order and sorting gives the one ranked ordering. |
| `MerklePath.ZeroSubtrees` | frontend/src/lib/zk/witness.ts:49-58 | The i-th entry is the root of an empty subtree of height i. |
| `MerklePath.Build` | frontend/src/lib/zk/witness.ts:71-108 | For any hash, depth, leaves and index in range: the root is that of the complete tree padded with the empty leaf, folding the leaf up the path gives it, and the path's indices are the leaf index's binary digits; errors exactly for an index outside the leaves or too many leaves. |
| `MerklePath.PathProvesMembership` | frontend/src/lib/zk/witness.ts:66-70 | With a collision-free hash, a path folding to the padded tree's root holds the tree's own leaf at the index its digits spell. |
| `MerklePath.RootDeterminesLeaves` | frontend/src/lib/zk/witness.ts:68-70 | With a collision-free hash, equal roots at one depth mean equal padded leaves: a missing or reordered leaf gives another root. |
| `MerklePath.FetchAllLeaves` | frontend/src/lib/zk/assemble.ts:75-101 | Whatever the page size, and while rows are appended between pages: paging succeeds exactly when the rows of the time of the last page run contiguously from leaf zero and their number is the chain's, and then returns every commitment in order; otherwise the error names the first gap, or the number of rows. |
| `WideDivision.WideningMul` | solana/programs/aegis_vault/src/math.rs:55-67 | The schoolbook halves are the exact 256-bit product. |
| `WideDivision.MulDivWide` | solana/programs/aegis_vault/src/math.rs:36-53 | Long division with wrapping subtraction gives the exact floor of a*b/d, or None exactly when it exceeds 128 bits. |
| `WideDivision.MulDivFloor` | solana/programs/aegis_vault/src/math.rs:26-34 | The exact floor of a*b/d, or None exactly for a zero divisor or a quotient over 128 bits. |
| `VaultShares.ConvertToSharesOnChain` | solana/programs/aegis_vault/src/math.rs:7-13 | The program's result is the frontend's whenever it fits 128 bits, and None otherwise. |
| `VaultShares.ConvertToAssetsOnChain` | solana/programs/aegis_vault/src/math.rs:15-22 | The program's result is the frontend's whenever no intermediate overflows and the amount fits 64 bits, and None otherwise. |
| `VaultShares.DepositInFull` | frontend/src/lib/solana/vault.ts:49-57 | A deposit goes through exactly when a whole share comes out; the vault gains the tokens, the depositor alone the largest number of shares worth no more than they are. |
| `VaultShares.WithdrawalInFull` | frontend/src/lib/solana/vault.ts:49-57 | A withdrawal goes through exactly when the position covers it and a whole token comes out; the holder alone loses the shares, the vault the largest amount worth no more than they are. |
| `VaultShares.ClaimsInFull` | frontend/src/lib/solana/vault.ts:55-57 | The claims are, holder by holder, the largest amounts worth no more than the positions, added up. |
| `VaultShares.VaultIsSolvent` | frontend/src/lib/solana/vault.ts:49-57 | In every state the holders' claims together are at most the vault's assets. |
| `VaultShares.PriceNeverFalls` | frontend/src/lib/solana/vault.ts:49-57 | No deposit, withdrawal or donation lowers the price of a share. |
| `VaultShares.PriceNeverFallsOverARun` | frontend/src/lib/solana/vault.ts:49-57 | Nor does any sequence of them. |
| `VaultShares.RoundTripNeverProfits` | frontend/src/lib/solana/vault.ts:51-57 | Depositing and withdrawing at once never returns more than was deposited. |
| `VaultShares.SoleHolderNeverProfits` | frontend/src/lib/solana/vault.ts:51-57 | A sole holder redeems at most the assets that were in the vault before someone else's deposit, however they came there and whatever its size. |
| `FirstDepositor.FirstDepositorNeverProfits` | solana/programs/aegis_vault/src/lib.rs:57-165 | From an empty vault, a first depositor who deposits, withdraws and donates in any way redeems no more than they put in after any deposits and withdrawals by others, while their number is small for the assets and shares there were: with a one more than the assets, s the shares and d these and the virtual ones, k deposits and j withdrawals meet (a + j) * s * (d + 2)^k <= a * d * (d + 1)^k. |
| `FirstDepositor.OneLaterDepositIsEnough` | solana/programs/aegis_vault/src/lib.rs:57-165 | For every first deposit and offset, one token at offset 0 aside, some donation and one later deposit withdrawn in small parts leave the first depositor ahead. |
| `FirstDepositor.NeverAheadExactlyWhen` | solana/programs/aegis_vault/src/lib.rs:57-165 | So when others may withdraw as often as they like, a first depositor who has donated is never ahead exactly when others make no deposit at all. |
| `FirstDepositor.ElevenWithdrawals` | solana/programs/aegis_vault/src/lib.rs:57-165 | A concrete run at offset 1: deposit 1, donate 1, another deposits 15 and makes eleven withdrawals of one token each, and the first depositor redeems 3. |
| `FirstDepositor.OneTokenAndOneLaterDeposit` | solana/programs/aegis_vault/src/lib.rs:57-165 | A concrete run at the program's offset: deposit 1, donate 665, one later deposit of 1,334,667 and 1,334,000 withdrawals of one token each, and more than 666 is redeemed. |
| `DepositsAlone.DepositsAloneNeverProfit` | solana/programs/aegis_vault/src/lib.rs:57-165 | While others only deposit, the first depositor redeems no more than they put in after any later deposits of any size that are few for the shares held; the first 10^offset always are. |
| `DepositsAlone.DepositsAloneNeverProfitExactlyWhen` | solana/programs/aegis_vault/src/lib.rs:57-165 | Deposit, donate anything, let others deposit k times anything and withdraw nothing: the depositor never redeems more than both together exactly when k * first is at most first * 10^offset + 10^offset + 1. |
| `DepositsAlone.OneTokenDeposited` | solana/programs/aegis_vault/src/math.rs:94-112 | The concrete bound at the program's offset while nobody withdraws: with one token deposited 2001 later deposits are harmless and 2002 need not be, on amounts within 64 bits. |
| `IdlCodec.IntReadsBack` | frontend/src/lib/solana/idl.ts:26-41 | Every in-range integer, signed ones included, is read back from its little-endian two's complement bytes. |
| `IdlCodec.IntWritesBack` | backend/internal/chain/svm/idl.go:327-337 | Every byte string of an integer's width is the encoding of the in-range value read from it. |
| `IdlCodec.LittleEndianInt` | backend/internal/chain/svm/idl.go:327-337 | Reversing into a big-endian buffer and subtracting on the sign bit computes that value. |
| `IdlCodec.DecodeField` | backend/internal/chain/svm/idl.go:251-309 | One pass of the loop reads the field at the offset and stops just after it, or reports the specified error. |
| `IdlCodec.ReadErrorsInFull` | backend/internal/chain/svm/idl.go:251-309 | What stops the reading of a field of each kind, each error exactly when, and that nothing else does. |
| `IdlCodec.DecodeFields` | backend/internal/chain/svm/idl.go:248-315 | The loop over a moving offset computes the specified decoding, with the first error it meets. |
| `IdlCodec.DecodesWhatWasEncoded` | backend/internal/chain/svm/idl.go:248-315 | Decoding concatenated encodings gives back every field. |
| `IdlCodec.DecodesExactlyEncodings` | backend/internal/chain/svm/idl.go:215-216 | Exact mode accepts the encodings of the layout's values and nothing else; otherwise exactly the buffers that begin with one. |
| `IdlCodec.CutOrExtendedIsRefused` | backend/internal/chain/svm/idl.go:215-216 | A buffer cut anywhere is refused in either mode; one with anything after it is refused in exact mode. |
| `IdlCodec.DecodeEvent` | backend/internal/chain/svm/idl.go:217-233 | Whatever order the map is tried in, event data is decoded by a layout whose discriminator it carries, and is unknown exactly when there is none. |
| `IdlCodec.EventsReadBack` | backend/internal/chain/svm/idl.go:217-233 | Whatever order the map is tried in, an emitted event decodes under its own name to every field it was given, no other event sharing its discriminator. |
| `IdlCodec.EventTag` | backend/internal/chain/svm/idl.go:17 | The event tag is Anchor's number in little-endian bytes. |
| `IdlCodec.DecodeAccount` | backend/internal/chain/svm/idl.go:237-246 | Account data are decoded by the named layout when they begin with its discriminator, with whatever follows the last field ignored. |
| `IdlCodec.EncodeValue` | frontend/src/lib/solana/idl.ts:20-43 | Values are encoded when they fit and refused otherwise, never truncated; a key given for an integer is the number its base58 text spells in decimal, if it spells one. |
| `IdlCodec.ArgumentsInFull` | frontend/src/lib/solana/idl.ts:20-43 | Which arguments are accepted for which type, the bounds of each integer width, the bytes written, and the error otherwise. |
| `IdlCodec.SpelledInFull` | frontend/src/lib/solana/idl.ts:31 | The number a key's text spells, digit by digit from the front, and when it spells none. |
| `IdlCodec.Base58InFull` | backend/internal/chain/svm/address.go:23-27 | A key's text has one zero digit for each zero byte in front, and then the digits of its number in base 58 without another. |
| `IdlCodec.KeysHaveOwnTexts` | backend/internal/chain/svm/address.go:25-30 | Two keys never have the same text. |
| `IdlCodec.SystemProgramIsANumber` | frontend/src/lib/solana/idl.ts:28-37 | The concrete case: the system program's key passes as a u128 of 32 ones, and is too large for a u64. |
| `IdlCodec.InstructionData` | frontend/src/lib/solana/idl.ts:45-56 | The discriminator and every argument's bytes in order, or the first missing or unfit argument, or unknown arguments. |
| `IdlCodec.AllArgumentsInFull` | frontend/src/lib/solana/idl.ts:45-56 | The data are built exactly when every argument is given and accepted; otherwise the first that is not is reported. |
| `IdlCodec.ArgumentsArriveIntact` | frontend/src/lib/solana/idl.ts:45-56 | Accepted arguments are the program's own encoding of them, so decoding the bytes gives each argument back. |
| `IdlCodec.JsDecodeAccount` | frontend/src/lib/solana/idl.ts:62-95 | The offset-advancing loop computes the specified reading and refuses another account's discriminator. |
| `IdlCodec.JsErrorsInFull` | frontend/src/lib/solana/idl.ts:76-92 | The kinds the frontend does not read, and the data too short for those it does. |
| `IdlCodec.FrontendReadsBack` | frontend/src/lib/solana/idl.ts:62-95 | The frontend reads back what a program wrote, whatever space follows it. |
| `IdlCodec.DecodersAgreeExactlyWhen` | frontend/src/lib/solana/idl.ts:79 | On every kind both read, the two decoders agree except on a boolean byte above one, which the frontend reads as false and the backend refuses. |
| `SignaturePaging.SignaturesInRange` | backend/internal/chain/svm/client.go:195-220 | For every page size, and while newer transactions keep arriving, paging back returns exactly the successful transactions of the range, in the node's order. |
| `SignaturePaging.RangesJoin` | backend/internal/chain/svm/client.go:173-182 | For one program, the ordered transactions of [a, c] are those of [a, b] followed by those of [b+1, c]. |
| `SignaturePaging.TransactionEvents` | backend/internal/chain/svm/client.go:222-312 | A filtered read of a transaction is its full read filtered, errors included. |
| `SignaturePaging.TransactionInFull` | backend/internal/chain/svm/client.go:222-312 | A transaction missing, or successful without a block time, is an error; a failed one has no events; any other gives exactly those of its inner instructions that registered programs' own authorities signed, group by group in index order, or the first thing wrong. |
| `SignaturePaging.ReadableExactlyWhen` | backend/internal/chain/svm/client.go:252-285 | The read succeeds exactly when every inner instruction is an event of a registered program or none at all; otherwise it reports what is wrong with the first that is neither. |
| `SignaturePaging.WantedInFull` | backend/internal/chain/svm/client.go:286-292 | A filter keeps exactly the events of the programs and names wanted, in order. |
| `SignaturePaging.NumbersArePlaces` | backend/internal/chain/svm/client.go:286-292 | An event's log index is its place among all the transaction's events, whatever the caller wants. |
| `SignaturePaging.FilteringCommutes` | backend/internal/chain/svm/client.go:286-292 | A filtered read of a range is the full read of it filtered, every event keeping its number. |
| `SignaturePaging.ReadsJoin` | backend/internal/chain/svm/client.go:121-193 | For one program, reading [a, c] gives the events of [a, b] and then those of [b+1, c], or the first error. |
| `SignaturePaging.Merge` | backend/internal/chain/svm/client.go:131-148 | A program is wanted if any filter names it, for the union of the names asked, and for all when a filter names none; an unregistered program is an error. |
| `SignaturePaging.Collect` | backend/internal/chain/svm/client.go:160-172 | Whatever order the programs are read in, each transaction in range of some wanted program is collected once. |
| `SignaturePaging.LogsInRange` | backend/internal/chain/svm/client.go:121-193 | The whole read: the error cases in order, then the events of exactly the wanted programs' transactions in the range, oldest slot first; for one program nothing is left open. |
| `StableSort.SortIsStable` | backend/internal/chain/svm/client.go:173-182 | Sorting permutes, orders by key, and keeps elements of one key in their order. |
| `StableSort.StableOrderIsUnique` | backend/internal/chain/svm/client.go:173-182 | No other sequence does all three. |
| `Medians.AveragesAgree` | backend/internal/oracle/aggregate.go:38-48 | The shifted half-difference and the and/xor form both give the floor of the mean, and the second never exceeds the larger value. |
| `Medians.Median` | backend/internal/oracle/aggregate.go:20-36 | The backend's median is the specified one, and zero for no values. |
| `Medians.MedianInFull` | backend/internal/oracle/aggregate.go:20-36 | It is the value in the middle place, places being told by how many values lie below; of an even number, the floor of the mean of the values in the two middle places. |
| `Medians.ProgramMedian` | solana/programs/aegis_oracle/src/math.rs:12-24 | The program's median of u128 values is the same, and no step leaves that range. |
| `Medians.OrderDoesNotMatter` | backend/internal/oracle/aggregate.go:15-19 | Permuting the values leaves the median as it was. |
| `Medians.MinorityCannotMoveIt` | backend/internal/oracle/aggregate.go:10-13 | With fewer than half of the values outside [lo, hi], the median lies in [lo, hi]. |
| `Medians.HalfCanMoveIt` | backend/internal/oracle/aggregate.go:10-13 | Half is enough: beside any number of values at lo there are as many others that put the median above hi. |
| `Medians.DetectOutliers` | backend/internal/oracle/aggregate.go:73-96 | The loop flags the specified submissions in order, and none when the median is zero. |
| `Medians.OutlierExactlyWhen` | backend/internal/oracle/aggregate.go:73-76 | A submission is flagged exactly when it lies a whole basis point or more beyond the threshold. |
| `Medians.OutliersInFull` | backend/internal/oracle/aggregate.go:73-96 | The list has, in submission order, exactly the submissions a whole basis point or more beyond the threshold, each with its own node and value and its deviation rounded down. |
| `PriceText.PlainIsRead` | backend/internal/oraclenode/price.go:22-54 | Plain text is read as its digits with the fraction cut or padded to scale. |
| `PriceText.ParseInFull` | backend/internal/oraclenode/price.go:22-54 | Every text without an earlier error is read as its digits, past a plus sign, up to the scale, and refused exactly when those are not all digits or there are none; what follows the scale is not looked at. |
| `PriceText.ErrorsInFull` | backend/internal/oraclenode/price.go:24-42 | The errors before the digits, each exactly when: empty, an exponent, a minus sign, a separator with nothing behind it. |
| `PriceText.SpacesAreIgnored` | backend/internal/oraclenode/price.go:23 | Spaces around a text change nothing. |
| `PriceText.ParsesTheFloor` | backend/internal/oraclenode/price.go:15-21 | For digits with an optional fraction, the result is the floor of the number times ten to the scale. |
| `PriceText.ReadsBack` | backend/internal/oraclenode/price.go:56-75 | Printing an amount and reading it back gives the amount, at every scale. |
| `PriceText.FormatIsPlain` | backend/internal/oraclenode/price.go:56-75 | An amount is printed as plain text of exactly its value, without a zero that could be left out. |
| `PriceText.RoundTripExactlyWhen` | backend/internal/oraclenode/price.go:56-75 | That round trip is the identity exactly on amounts that are not negative. |
| `PriceText.ParseIsNeverNegative` | backend/internal/oraclenode/price.go:30-32 | No text whatever is read as a negative price. |
| `GovernanceMessage.MessageReadsBack` | solana/programs/aegis_governance_receiver/src/message.rs:46-69 | Parsing undoes the version-1 encoding of every message, and the data limit is the only reason to refuse one. |
| `GovernanceMessage.AcceptedIsEncoded` | solana/programs/aegis_governance_receiver/src/message.rs:46-69 | A payload is accepted only if it is the encoding of what was parsed from it: no byte is ignored. |
| `GovernanceMessage.FieldsOfAMessage` | solana/programs/aegis_governance_receiver/src/message.rs:46-69 | Where each field of an accepted payload lies, and exactly which payloads are malformed, of another version, or too long. |
| `GovernanceMessage.VaaBodyReadsBack` | solana/programs/aegis_governance_receiver/src/message.rs:36-44 | A Wormhole body gives back its emitter, sequence and payload, whatever its other header fields. |
| `GovernanceMessage.AccountsHash` | solana/programs/aegis_governance_receiver/src/message.rs:75-83 | The bytes hashed are each account's key and flags in order. |
| `GovernanceMessage.PreimageBindsTheList` | solana/programs/aegis_governance_receiver/src/message.rs:71-83 | Those bytes determine the whole ordered list of keys and flags. |
| `GovernanceMessage.AccountsInPlace` | solana/programs/aegis_governance_receiver/src/message.rs:75-83 | Account i's key takes the 32 bytes at 34 * i, and its signer and writable flags the two after them. |
| `OracleSubmission.SubmissionMessage` | backend/internal/chain/svm/oracle.go:34-59 | The node's builder gives the message for every value that fits a u128 and refuses the others. |
| `OracleSubmission.ProgramMessage` | solana/programs/aegis_oracle/src/signature.rs:15-41 | The program's fixed-buffer builder gives the same bytes. |
| `OracleSubmission.MessageBindsEveryField` | solana/programs/aegis_oracle/src/signature.rs:15-16 | The signed bytes determine all seven fields. |
| `OracleSubmission.FieldsInPlace` | solana/programs/aegis_oracle/src/signature.rs:18-41 | Where each field lies in the 162 signed bytes: domain text, program, signed chain id, round, feed, value, node, nonce. |
| `OracleSubmission.Ed25519Instruction` | backend/internal/chain/svm/oracle.go:66-81 | The builder writes Solana's one-signature layout. |
| `OracleSubmission.InstructionInPlace` | backend/internal/chain/svm/oracle.go:66-81 | The instruction byte by byte: one signature, the seven offsets, then key, signature and message where they say. |
| `OracleSubmission.CheckMeansVerified` | solana/programs/aegis_oracle/src/signature.rs:60-109 | The program's check passes exactly when an Ed25519 instruction without accounts stands before it for which the runtime, wherever it stands and whatever the other instructions hold, verifies one signature, by this signer over this very message; it returns that signature. |
| `OracleSubmission.CheckInFull` | solana/programs/aegis_oracle/src/signature.rs:64-112 | The check read off the instruction's bytes: what passes with which signature, and which of the two errors anything else gives. |
| `OracleSubmission.BuilderIsAcceptedExactlyWhen` | backend/internal/chain/svm/oracle.go:66-81 | The program accepts the node's instruction exactly when the message's length fits sixteen bits. |
| `OracleSubmission.SubmissionsAreAccepted` | backend/internal/chain/svm/oracle.go:66-68 | So every submission's own instruction is accepted. |
| `SolanaLayouts.LayoutOf` | scripts/check-solana-layouts.py:40-58 | A computed layout lists the fields in order, each starting where the one before ends and filling the account, with the reserve last; otherwise the error names why. |
| `SolanaLayouts.LayoutInFull` | scripts/check-solana-layouts.py:40-58 | Field after field from byte 8, each of its type's size, up to a byte-array reserve at the account's end. |
| `SolanaLayouts.SizesInFull` | scripts/check-solana-layouts.py:28-37 | A type has a fixed size exactly when it is a known primitive inside arrays of positive lengths, and then the product of the lengths times the primitive's. |
| `SolanaLayouts.PrimitivesInFull` | scripts/check-solana-layouts.py:21-22 | The primitives are bool, pubkey and the ten integers, each as wide as its name says. |
| `SolanaLayouts.Compare` | scripts/check-solana-layouts.py:61-90 | For any baseline file: no error exactly when the same account types remain and each is carved from its baseline's reserve; an exception exactly when a remaining type's baseline lists no fields. |
| `SolanaLayouts.CarvesExactlyWhen` | scripts/check-solana-layouts.py:68-85 | An account type passes exactly when discriminator and size stay, the old fields come first as they were, and any others begin where the old reserve did and are not named like it. |
| `SolanaLayouts.AcceptanceKeepsEveryByte` | scripts/check-solana-layouts.py:4-7 | An accepted upgrade leaves every old field where it was, and the added fields with the new reserve fill exactly the old reserve's bytes. |
| `SolanaLayouts.CarvesTransitive` | scripts/check-solana-layouts.py:61-90 | Two accepted upgrades in a row are one accepted upgrade. |
| `SolanaLayouts.ChainsCompose` | scripts/check-solana-layouts.py:61-90 | So is any chain of them. |

## Left out

- MissJudge.Aggregator.JudgeMisses: the rows one call of the judge reads are one snapshot of what the indexer has written, and no one
  else writes slashes between its statements; both change freely between calls.
- MissJudge.Run: rounds are taken to be indexed in id order, as their events arrive, and a finished round's verdicts not to
  change afterwards, which follows from the event history and the chain's clock (MissJudge.FinishedRoundsStayFixed).
  Signature and outlier analysis (`aggregator.go:194-300`) is not modelled; the slashes it records are rows that others write.
- Indexer.Run: one process per chain, as deployed; two processes sharing one cursor row are not modelled. Block numbers are
  below 2^63, the range of the column they are stored in, and handlers are arbitrary insert-once tables keyed by event.
- Columns where the last write wins (stake, unstake, metadata) and the running total of slashes on a node, which a replay
  counts again, are not part of the claims about replays.
- Executor.Run: all executors share one maximum of attempts, and rows are claimed in the order they were decided; the order
  RETURNING lists them in is the same.
- Governance.Run: governor registration and the foreign key to it, timestamps other than the executable time, numeric column
  overflow, and joining a proposal with its remote action when it is read.
- SignaturePaging.LogsInRange: across programs, the order of transactions inside one slot follows the order a map is read in and is left
  open. That a node refuses pruned slots is modelled; remote failures other than an unreadable transaction are not.
- IdlCodec.Base58InFull: the alphabet; a text is its digits' values.
- IdlCodec.DecodeFields: loading an IDL from JSON, renaming fields to camel case, and values that are not integers, booleans or keys.
- PriceText.ParsesTheFloor: for digits and a separator only; what any other text gives is PriceText.ParseInFull and
  PriceText.ErrorsInFull, where a plus sign is read and text past the scale is cut before it is checked, as the code has it.
- FirstDepositor.FirstDepositorNeverProfits: one way only; the exact number of withdrawals that a given vault withstands hangs
  on how its amounts divide. Donations by others, and the first depositor's own calls in between, are not part of it.
- FirstDepositor.NeverAheadExactlyWhen: a single token deposited at offset 0 is set aside; the program's offset is 3.
- VaultShares.VaultIsSolvent: token transfers, slippage limits and the accounts of the instructions; each operation goes through exactly
  when its amounts allow.
- MerklePath.FetchAllLeaves: a row inserted before ones already served, which in-order event handling rules out.
- MerklePath.Build: commitments, nullifiers, proof generation and the value of the empty leaf; the hash is any function.
- OracleSubmission.CheckMeansVerified: the signature scheme itself; the runtime is taken to fail a transaction in which a named
  signature does not verify. An empty message, which no submission has, is excluded.
- GovernanceMessage.AcceptedIsEncoded: guardian signatures, replay receipts and executing the instruction.
- SolanaLayouts.LayoutOf: an IDL's JSON and the text of the messages; a type's printed name is represented by the type itself.
- `scripts/check-evm-layouts.py`: the same shape of check on storage slots, where a gap may also sit between other variables;
  only the Solana checker is modelled.
- Quorum and slash-cap arithmetic (`aegis_oracle/src/math.rs:3-8`, `26-28`), feeds, rounds' state transitions and submissions:
  single guarded expressions that would add only easy members.
- The other on-chain handlers, the Solidity contracts, HTTP, RPC, configuration, metrics and the user interface.
