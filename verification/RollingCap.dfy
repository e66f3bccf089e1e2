/** The treasury's rolling outflow cap: sixteen reusable slots that stand in for an unbounded ledger.
    Models `record` in window.rs, with its saturating subtraction and its two fixed-size arrays. */
module RollingCap {
  import opened Options

  const WINDOW_ENTRIES := 16
  const MIN_I64 := -0x8000_0000_0000_0000
  const MAX_I64 := 0x7fff_ffff_ffff_ffff

  type I64 = x: int | MIN_I64 <= x <= MAX_I64
  type U64 = x: int | 0 <= x < 0x1_0000_0000_0000_0000

  datatype WindowError = CapExceeded | WindowFull
  datatype Outcome = Accepted | Refused(error: WindowError)

  /** One slot, or one line of the ledger. */
  datatype Outflow = Outflow(time: I64, amount: U64)

  /** One call of `record`. */
  datatype Call = Call(now: I64, outflow: U64)

  function SaturatingSub(a: I64, b: I64): I64 {
    if a - b < MIN_I64 then MIN_I64 else if a - b > MAX_I64 then MAX_I64 else a - b
  }

  predicate Live(o: Outflow, since: int) {
    o.amount > 0 && o.time > since
  }

  function LiveSum(s: seq<Outflow>, since: int): nat {
    if s == [] then 0
    else LiveSum(s[..|s| - 1], since) + if Live(s[|s| - 1], since) then s[|s| - 1].amount else 0
  }

  function LiveCount(s: seq<Outflow>, since: int): nat {
    if s == [] then 0
    else LiveCount(s[..|s| - 1], since) + if Live(s[|s| - 1], since) then 1 else 0
  }

  function FirstFree(s: seq<Outflow>, since: int): Option<nat> {
    if s == [] then None
    else if FirstFree(s[..|s| - 1], since).Some? then FirstFree(s[..|s| - 1], since)
    else if Live(s[|s| - 1], since) then None else Some(|s| - 1)
  }

  lemma {:induction false} FirstFreeIsFree(s: seq<Outflow>, since: int)
    ensures match FirstFree(s, since)
            case Some(i) => i < |s| && !Live(s[i], since)
            case None => LiveCount(s, since) == |s|
    ensures LiveCount(s, since) <= |s|
    ensures LiveCount(s, since) == |s| ==> FirstFree(s, since) == None
  {
    if s != [] { FirstFreeIsFree(s[..|s| - 1], since); }
  }

  // ----- The code, on values -------------------------------------------------------------------

  function Slots(times: seq<I64>, amounts: seq<U64>): seq<Outflow>
    requires |times| == |amounts|
  {
    seq(|times|, i requires 0 <= i < |times| => Outflow(times[i], amounts[i]))
  }

  function Step(slots: seq<Outflow>, window: I64, cap: U64, call: Call): (Outcome, seq<Outflow>) {
    var since := SaturatingSub(call.now, window);
    if call.outflow == 0 then (Accepted, slots)
    else if LiveSum(slots, since) + call.outflow > cap then (Refused(CapExceeded), slots)
    else match FirstFree(slots, since)
      case None => (Refused(WindowFull), slots)
      case Some(i) =>
        FirstFreeIsFree(slots, since);
        (Accepted, slots[i := Outflow(call.now, call.outflow)])
  }

  method Record(times: array<I64>, amounts: array<U64>, now: I64, window: I64, rollingCap: U64, outflow: U64)
    returns (result: Outcome)
    requires times.Length == amounts.Length == WINDOW_ENTRIES
    requires times as object != amounts
    modifies times, amounts
    ensures (result, Slots(times[..], amounts[..]))
         == Step(old(Slots(times[..], amounts[..])), window, rollingCap, Call(now, outflow))
    ensures result.Refused? || outflow == 0 ==> times[..] == old(times[..]) && amounts[..] == old(amounts[..])
  {
    var since := SaturatingSub(now, window);
    var inWindow: int := 0;
    var free := None;
    ghost var slots := Slots(times[..], amounts[..]);
    for i := 0 to WINDOW_ENTRIES
      invariant inWindow == LiveSum(slots[..i], since)
      invariant free == FirstFree(slots[..i], since)
    {
      assert slots[..i + 1][..i] == slots[..i];
      if amounts[i] > 0 && times[i] > since {
        inWindow := inWindow + amounts[i];
      } else if free.None? {
        free := Some(i);
      }
    }
    assert slots[..WINDOW_ENTRIES] == slots;
    if outflow == 0 {
      return Accepted;
    }
    if inWindow + outflow > rollingCap {
      return Refused(CapExceeded);
    }
    if free.None? {
      return Refused(WindowFull);
    }
    FirstFreeIsFree(slots, since);
    times[free.value] := now;
    amounts[free.value] := outflow;
    assert Slots(times[..], amounts[..]) == slots[free.value := Outflow(now, outflow)];
    return Accepted;
  }

  // ----- The reference: an unbounded ledger and an exact window --------------------------------

  /** Whether the ledger lets a call through. The window is exact: nothing saturates. */
  function Verdict(ledger: seq<Outflow>, window: I64, cap: U64, call: Call): Outcome {
    if call.outflow == 0 then Accepted
    else if LiveSum(ledger, call.now - window) + call.outflow > cap then Refused(CapExceeded)
    else if LiveCount(ledger, call.now - window) >= WINDOW_ENTRIES then Refused(WindowFull)
    else Accepted
  }

  /** An outflow is refused when it would put what left inside the window over the cap, and else when sixteen outflows
      have left inside it. */
  lemma VerdictInFull(ledger: seq<Outflow>, window: I64, cap: U64, call: Call)
    ensures var v := Verdict(ledger, window, cap, call);
            var over := LiveSum(ledger, call.now - window) + call.outflow > cap;
            && (v == Refused(CapExceeded) <==> call.outflow > 0 && over)
            && (v == Refused(WindowFull) <==> call.outflow > 0 && !over && LiveCount(ledger, call.now - window) >= 16)
  {
  }

  /** A run of the code from empty slots, keeping every outflow it accepted. */
  datatype Run = Run(slots: seq<Outflow>, ledger: seq<Outflow>, last: Outcome)

  function Extend(r: Run, window: I64, cap: U64, call: Call): Run {
    var (outcome, slots) := Step(r.slots, window, cap, call);
    var line := if outcome == Accepted && call.outflow > 0 then [Outflow(call.now, call.outflow)] else [];
    Run(slots, r.ledger + line, outcome)
  }

  function RunOf(window: I64, cap: U64, calls: seq<Call>): Run {
    if calls == [] then Run(seq(WINDOW_ENTRIES, _ => Outflow(0, 0)), [], Accepted)
    else Extend(RunOf(window, cap, calls[..|calls| - 1]), window, cap, calls[|calls| - 1])
  }

  /** Calls at or after `start`, on a clock that does not go back. */
  ghost predicate Timeline(calls: seq<Call>, start: I64) {
    && (forall i | 0 <= i < |calls| :: start <= calls[i].now)
    && (forall i, j | 0 <= i < j < |calls| :: calls[i].now <= calls[j].now)
  }

  /** What left the treasury in the half-open interval (from, to]. */
  function OutIn(ledger: seq<Outflow>, from: int, to: int): nat {
    if ledger == [] then 0
    else
      var last := ledger[|ledger| - 1];
      OutIn(ledger[..|ledger| - 1], from, to) + if from < last.time <= to then last.amount else 0
  }

  /** No more than the cap leaves in the window that ends at `t`. */
  ghost predicate CapKept(window: I64, cap: U64, calls: seq<Call>, t: int) {
    OutIn(RunOf(window, cap, calls).ledger, t - window, t) <= cap
  }

  /** When the window's start can be computed without losing an outflow at the bottom of the clock. */
  predicate ClockFits(window: I64, start: I64) {
    start > MIN_I64 || window <= 0
  }

  // ----- Slots refine the ledger ---------------------------------------------------------------

  lemma {:induction false} Replaced(s: seq<Outflow>, i: nat, o: Outflow, since: int)
    requires i < |s| && !Live(s[i], since)
    ensures LiveSum(s[i := o], since) == LiveSum(s, since) + if Live(o, since) then o.amount else 0
    ensures LiveCount(s[i := o], since) == LiveCount(s, since) + if Live(o, since) then 1 else 0
  {
    var n := |s| - 1;
    if i == n {
      assert s[i := o][..n] == s[..n];
    } else {
      assert s[i := o][..n] == s[..n][i := o];
      Replaced(s[..n], i, o, since);
    }
  }

  /** From `since` on, the slots hold what the ledger holds. */
  ghost predicate Agree(slots: seq<Outflow>, ledger: seq<Outflow>, since: int) {
    forall s: int | s >= since :: LiveSum(slots, s) == LiveSum(ledger, s) && LiveCount(slots, s) == LiveCount(ledger, s)
  }

  lemma {:induction false} EmptySlots(n: nat, since: int)
    ensures LiveSum(seq(n, _ => Outflow(0, 0)), since) == 0
    ensures LiveCount(seq(n, _ => Outflow(0, 0)), since) == 0
  {
    if n > 0 {
      var s := seq(n, _ => Outflow(0, 0));
      assert s[..n - 1] == seq(n - 1, _ => Outflow(0, 0));
      EmptySlots(n - 1, since);
    }
  }

  lemma {:induction false} SameSince(ledger: seq<Outflow>, a: int, b: int)
    requires forall i | 0 <= i < |ledger| :: Live(ledger[i], a) <==> Live(ledger[i], b)
    ensures LiveSum(ledger, a) == LiveSum(ledger, b)
    ensures LiveCount(ledger, a) == LiveCount(ledger, b)
  {
    if ledger != [] { SameSince(ledger[..|ledger| - 1], a, b); }
  }

  ghost predicate Refines(r: Run, since: int, start: I64, upTo: I64) {
    && |r.slots| == WINDOW_ENTRIES
    && Agree(r.slots, r.ledger, since)
    && forall i | 0 <= i < |r.ledger| :: r.ledger[i].amount > 0 && start <= r.ledger[i].time <= upTo
  }

  lemma Appended(ledger: seq<Outflow>, o: Outflow, since: int)
    ensures LiveSum(ledger + [o], since) == LiveSum(ledger, since) + if Live(o, since) then o.amount else 0
    ensures LiveCount(ledger + [o], since) == LiveCount(ledger, since) + if Live(o, since) then 1 else 0
  {
  }

  lemma ExtendRefines(r: Run, since: int, window: I64, cap: U64, call: Call, start: I64, upTo: I64)
    requires Refines(r, since, start, upTo) && ClockFits(window, start)
    requires upTo <= call.now && start <= call.now && since <= SaturatingSub(call.now, window)
    ensures Refines(Extend(r, window, cap, call), SaturatingSub(call.now, window), start, call.now)
    ensures Extend(r, window, cap, call).last == Verdict(r.ledger, window, cap, call)
  {
    var now := SaturatingSub(call.now, window);
    var after := Extend(r, window, cap, call);
    SameSince(r.ledger, now, call.now - window);
    assert LiveSum(r.slots, now) == LiveSum(r.ledger, now);
    FirstFreeIsFree(r.slots, now);
    if after.last == Accepted && call.outflow > 0 {
      var i := FirstFree(r.slots, now).value;
      var o := Outflow(call.now, call.outflow);
      forall s: int | s >= now
        ensures LiveSum(after.slots, s) == LiveSum(after.ledger, s)
        ensures LiveCount(after.slots, s) == LiveCount(after.ledger, s)
      {
        assert LiveSum(r.slots, s) == LiveSum(r.ledger, s);
        Replaced(r.slots, i, o, s);
        Appended(r.ledger, o, s);
      }
    } else {
      assert after.ledger == r.ledger;
    }
  }

  /** Every call is decided as the unbounded ledger decides it: accepted exactly when the exact window's total
      fits and fewer than sixteen outflows are live. */
  lemma {:induction false} SlotsRefineLedger(window: I64, cap: U64, calls: seq<Call>, start: I64)
    requires calls != [] && Timeline(calls, start) && ClockFits(window, start)
    ensures var now := calls[|calls| - 1].now; Refines(RunOf(window, cap, calls), SaturatingSub(now, window), start,
                                                       now)
    ensures RunOf(window, cap, calls).last
         == Verdict(RunOf(window, cap, calls[..|calls| - 1]).ledger, window, cap, calls[|calls| - 1])
  {
    var n := |calls| - 1;
    var before := RunOf(window, cap, calls[..n]);
    if n == 0 {
      forall s: int ensures LiveSum(before.slots, s) == 0 && LiveCount(before.slots, s) == 0 {
        EmptySlots(WINDOW_ENTRIES, s);
      }
      ExtendRefines(before, SaturatingSub(start, window), window, cap, calls[n], start, start);
    } else {
      SlotsRefineLedger(window, cap, calls[..n], start);
      var last := calls[n - 1].now;
      ExtendRefines(before, SaturatingSub(last, window), window, cap, calls[n], start, last);
    }
  }

  // ----- The cap holds over every sliding window ------------------------------------------------

  lemma {:induction false} OutInPast(ledger: seq<Outflow>, from: int, to: int)
    requires forall i | 0 <= i < |ledger| :: ledger[i].amount > 0 && ledger[i].time <= to
    ensures OutIn(ledger, from, to) == LiveSum(ledger, from)
  {
    if ledger != [] { OutInPast(ledger[..|ledger| - 1], from, to); }
  }

  lemma {:induction false} LiveSumAntitone(s: seq<Outflow>, a: int, b: int)
    requires a <= b
    ensures LiveSum(s, b) <= LiveSum(s, a)
  {
    if s != [] { LiveSumAntitone(s[..|s| - 1], a, b); }
  }

  lemma {:induction false} CapHoldsOverEveryWindow(window: I64, cap: U64, calls: seq<Call>, start: I64, t: int)
    requires Timeline(calls, start) && ClockFits(window, start)
    ensures CapKept(window, cap, calls, t)
  {
    if calls != [] {
      var n := |calls| - 1;
      CapHoldsOverEveryWindow(window, cap, calls[..n], start, t);
      SlotsRefineLedger(window, cap, calls, start);
      CapStep(RunOf(window, cap, calls[..n]), window, cap, calls[n], t);
    }
  }

  lemma CapStep(r: Run, window: I64, cap: U64, call: Call, t: int)
    requires OutIn(r.ledger, t - window, t) <= cap
    requires Extend(r, window, cap, call).last == Verdict(r.ledger, window, cap, call)
    requires forall o | o in Extend(r, window, cap, call).ledger :: o.amount > 0 && o.time <= call.now
    ensures OutIn(Extend(r, window, cap, call).ledger, t - window, t) <= cap
  {
    var after := Extend(r, window, cap, call);
    if after.last == Accepted && call.outflow > 0 {
      var o := Outflow(call.now, call.outflow);
      assert after.ledger == r.ledger + [o];
      assert after.ledger[..|r.ledger|] == r.ledger;
      if call.now <= t {
        OutInPast(after.ledger, t - window, t);
        LiveSumAntitone(after.ledger, call.now - window, t - window);
        Appended(r.ledger, o, call.now - window);
      }
    } else {
      assert after.ledger == r.ledger;
    }
  }

  lemma {:induction false} NothingUnderZeroCap(window: I64, calls: seq<Call>)
    ensures RunOf(window, 0, calls).ledger == []
  {
    if calls != [] { NothingUnderZeroCap(window, calls[..|calls| - 1]); }
  }

  // The failing input: the whole cap, twice, at the first instant of the clock.
  function Twice(cap: U64): seq<Call> {
    [Call(MIN_I64, cap), Call(MIN_I64, cap)]
  }

  /** An outflow stamped with the lowest time is never live, so the cap is free again at once. */
  lemma StepAtTheFirstInstant(r: Run, window: I64, cap: U64)
    requires window > 0 && cap > 0 && r.slots != [] && LiveSum(r.slots, MIN_I64) == 0
    requires LiveCount(r.slots, MIN_I64) == 0
    ensures var after := Extend(r, window, cap, Call(MIN_I64, cap));
            && after.ledger == r.ledger + [Outflow(MIN_I64, cap)] && |after.slots| == |r.slots|
            && LiveSum(after.slots, MIN_I64) == 0 && LiveCount(after.slots, MIN_I64) == 0
  {
    FirstFreeIsFree(r.slots, MIN_I64);
    Replaced(r.slots, FirstFree(r.slots, MIN_I64).value, Outflow(MIN_I64, cap), MIN_I64);
  }

  lemma TwiceAtTheFirstInstant(window: I64, cap: U64)
    requires window > 0 && cap > 0
    ensures !CapKept(window, cap, Twice(cap), MIN_I64)
  {
    var o := Outflow(MIN_I64, cap);
    var zero := RunOf(window, cap, []);
    EmptySlots(WINDOW_ENTRIES, MIN_I64);
    StepAtTheFirstInstant(zero, window, cap);
    assert Twice(cap)[..1] == [Call(MIN_I64, cap)] && Twice(cap)[..1][..0] == [];
    var one := RunOf(window, cap, Twice(cap)[..1]);
    assert one == Extend(zero, window, cap, Call(MIN_I64, cap));
    StepAtTheFirstInstant(one, window, cap);
    TwoLines(o, MIN_I64 - window, MIN_I64);
  }

  lemma TwoLines(o: Outflow, from: int, to: int)
    requires from < o.time <= to
    ensures OutIn([] + [o] + [o], from, to) == 2 * o.amount
  {
    assert ([] + [o] + [o])[..1] == [o] && [o][..0] == [];
    assert OutIn([o], from, to) == o.amount;
  }

  /** Every run that starts at or after `start` keeps the cap. */
  ghost predicate AlwaysKept(window: I64, cap: U64, start: I64) {
    forall calls, t | Timeline(calls, start) :: CapKept(window, cap, calls, t)
  }

  lemma KeptWhenItFits(window: I64, cap: U64, start: I64)
    requires ClockFits(window, start) || cap == 0
    ensures AlwaysKept(window, cap, start)
  {
    forall calls, t | Timeline(calls, start) ensures CapKept(window, cap, calls, t) {
      if cap == 0 { NothingUnderZeroCap(window, calls); }
          else { CapHoldsOverEveryWindow(window, cap, calls, start, t); }
    }
  }

  lemma BrokenWhenItDoesNot(window: I64, cap: U64)
    requires window > 0 && cap > 0
    ensures !AlwaysKept(window, cap, MIN_I64)
  {
    TwiceAtTheFirstInstant(window, cap);
    assert Timeline(Twice(cap), MIN_I64);
  }

  /** The exact condition. `saturating_sub` drops an outflow stamped with the lowest representable time, so
      a run that may start there keeps the cap only when no outflow can be accepted at all. */
  lemma CapHoldsExactlyWhen(window: I64, cap: U64, start: I64)
    ensures AlwaysKept(window, cap, start) <==> ClockFits(window, start) || cap == 0
  {
    if ClockFits(window, start) || cap == 0 {
      KeptWhenItFits(window, cap, start);
    } else {
      BrokenWhenItDoesNot(window, cap);
    }
  }
}
