/** Reading a Solana program's events: paging back through its transactions, ordering them by slot, and numbering each
    transaction's events whatever the caller filters on. */
module SignaturePaging {
  import opened Options
  import opened StableSort

  datatype Signature = Signature(id: string, slot: nat, failed: bool)

  /** An address's transactions as the node lists them: newest first, each once. */
  ghost predicate History(h: seq<Signature>) {
    && (forall i | 0 <= i < |h| :: h[i].id != "")
    && (forall i, j | 0 <= i < j < |h| :: h[i].id != h[j].id && h[i].slot >= h[j].slot)
  }

  /** The successful transactions of slots `from`..`to`, in the order listed. */
  function Within(h: seq<Signature>, from: nat, to: nat): seq<Signature> {
    if h == [] then []
    else
      var s := h[|h| - 1];
      Within(h[..|h| - 1], from, to) + if from <= s.slot <= to && !s.failed then [s] else []
  }

  lemma {:induction false} WithinConcat(a: seq<Signature>, b: seq<Signature>, from: nat, to: nat)
    ensures Within(a + b, from, to) == Within(a, from, to) + Within(b, from, to)
  {
    if b == [] {
      assert a + b == a;
    } else {
      var init := b[..|b| - 1];
      assert (a + b)[..|a + b| - 1] == a + init;
      WithinConcat(a, init, from, to);
    }
  }

  lemma {:induction false} NoneWithin(h: seq<Signature>, from: nat, to: nat)
    requires forall s | s in h :: s.slot < from || s.slot > to
    ensures Within(h, from, to) == []
  {
    if h != [] { NoneWithin(h[..|h| - 1], from, to); }
  }

  // ----- Paging --------------------------------------------------------------------------------

  function Position(h: seq<Signature>, id: string): (i: nat)
    ensures i <= |h| && (i < |h| ==> h[i].id == id)
  {
    if h == [] || h[0].id == id then 0 else 1 + Position(h[1..], id)
  }

  lemma {:induction false} PositionIs(h: seq<Signature>, i: nat)
    requires History(h) && i < |h|
    ensures Position(h, h[i].id) == i
  {
    if i > 0 { PositionIs(h[1..], i - 1); }
  }

  /** getSignaturesForAddress: at most `limit` entries older than `before`, or from the newest. */
  function Page(h: seq<Signature>, before: string, limit: nat): seq<Signature> {
    var rest := if before == "" then h else if Position(h, before) < |h| then h[Position(h, before) + 1..] else [];
    if |rest| <= limit then rest else rest[..limit]
  }

  /** The node keeps finalising blocks while it is paged: later calls see newer transactions in front, beyond `to`. */
  ghost predicate Grows(view: nat -> seq<Signature>, to: nat) {
    forall k: nat :: History(view(k)) && GrownBy(view(k), view(k + 1), to)
  }

  ghost predicate GrownBy(older: seq<Signature>, newer: seq<Signature>, to: nat) {
    |older| <= |newer| && newer[|newer| - |older|..] == older && forall i | 0 <= i < |newer| - |older| ::
        newer[i].slot > to
  }

  /** One page, up to the first entry older than `from`. */
  method TakePage(page: seq<Signature>, from: nat, to: nat) returns (taken: seq<Signature>, i: nat)
    ensures i <= |page| && taken == Within(page[..i], from, to) && (i < |page| ==> page[i].slot < from)
  {
    taken, i := [], 0;
    while i < |page| && page[i].slot >= from
      invariant i <= |page| && taken == Within(page[..i], from, to)
    {
      assert page[..i + 1][..i] == page[..i];
      if page[i].slot <= to && !page[i].failed {
        taken := taken + [page[i]];
      }
      i := i + 1;
    }
  }

  method SignaturesInRange(view: nat -> seq<Signature>, from: nat, to: nat, limit: nat) returns (out: seq<Signature>)
    requires limit > 0 && Grows(view, to)
    ensures out == Within(view(0), from, to)
  {
    hide History, Within, Page, Grows;
    out := [];
    var before, calls: nat := "", 0;
    ghost var consumed: seq<Signature>, rest := [], view(0);
    NothingWithin(from, to);
    while true
      invariant view(calls) == consumed + rest
      invariant before == if consumed == [] then "" else consumed[|consumed| - 1].id
      invariant out == Within(consumed, from, to)
      invariant Within(view(calls), from, to) == Within(view(0), from, to)
      decreases |rest|
    {
      ViewIsHistory(view, calls, to);
      PageIsNext(consumed, rest, before, limit);
      var page := Page(view(calls), before, limit);
      var taken, i := TakePage(page, from, to);
      out := out + taken;
      WithinConcat(consumed, page[..i], from, to);
      if i < |page| {
        StoppedEarly(consumed, rest, page, i, from, to);
        return;
      }
      assert page[..i] == page;
      if |page| < limit {
        return;
      }
      before := page[|page| - 1].id;
      ghost var read := consumed + page;
      assert view(calls) == read + rest[limit..];
      ghost var extra := NextViewContinues(view, calls, from, to);
      WithinConcat(extra, read, from, to);
      assert view(calls + 1) == (extra + read) + rest[limit..];
      consumed, rest := extra + read, rest[limit..];
      calls := calls + 1;
    }
  }

  lemma NothingWithin(from: nat, to: nat)
    ensures Within([], from, to) == []
  {
  }

  lemma ViewIsHistory(view: nat -> seq<Signature>, k: nat, to: nat)
    requires Grows(view, to)
    ensures History(view(k))
  {
  }

  lemma PageIsNext(consumed: seq<Signature>, rest: seq<Signature>, before: string, limit: nat)
    requires History(consumed + rest)
    requires before == if consumed == [] then "" else consumed[|consumed| - 1].id
    ensures Page(consumed + rest, before, limit) == if |rest| <= limit then rest else rest[..limit]
  {
    var h := consumed + rest;
    if consumed != [] {
      assert h[|consumed| - 1] == consumed[|consumed| - 1];
      PositionIs(h, |consumed| - 1);
      assert h[|consumed|..] == rest;
    } else {
      assert h == rest;
    }
  }

  lemma OlderIsOutside(read: seq<Signature>, rest: seq<Signature>, from: nat, to: nat)
    requires History(read + rest) && rest != [] && rest[0].slot < from
    ensures Within(read + rest, from, to) == Within(read, from, to)
  {
    hide Within;
    var h := read + rest;
    forall s | s in rest ensures s.slot < from {
      var j :| 0 <= j < |rest| && rest[j] == s;
      assert h[|read|] == rest[0] && h[|read| + j] == rest[j];
      assert j > 0 ==> h[|read|].slot >= h[|read| + j].slot;
    }
    NoneWithin(rest, from, to);
    WithinConcat(read, rest, from, to);
  }

  lemma StoppedEarly(consumed: seq<Signature>, rest: seq<Signature>, page: seq<Signature>, i: nat, from: nat, to: nat)
    requires History(consumed + rest) && page <= rest && i < |page| && page[i].slot < from
    ensures Within(consumed + rest, from, to) == Within(consumed + page[..i], from, to)
  {
    hide History, Within;
    assert consumed + rest == (consumed + page[..i]) + rest[i..];
    OlderIsOutside(consumed + page[..i], rest[i..], from, to);
  }

  lemma NextViewContinues(view: nat -> seq<Signature>, k: nat, from: nat, to: nat) returns (extra: seq<Signature>)
    requires Grows(view, to)
    ensures view(k + 1) == extra + view(k) && Within(extra, from, to) == []
    ensures Within(view(k + 1), from, to) == Within(view(k), from, to)
  {
    hide Within;
    assert GrownBy(view(k), view(k + 1), to);
    extra := view(k + 1)[..|view(k + 1)| - |view(k)|];
    NoneWithin(extra, from, to);
    WithinConcat(extra, view(k), from, to);
    assert view(k + 1) == extra + view(k);
  }

  // ----- Splitting a range ---------------------------------------------------------------------

  function SlotOf(s: Signature): int {
    s.slot
  }

  /** One program's successful transactions of a range, oldest slot first. */
  function Ordered(h: seq<Signature>, from: nat, to: nat): seq<Signature> {
    Sorted(Within(h, from, to), SlotOf)
  }

  lemma {:induction false} WithinIsInRange(h: seq<Signature>, from: nat, to: nat, s: Signature)
    requires s in Within(h, from, to)
    ensures from <= s.slot <= to && !s.failed && s in h
  {
    if h != [] && s in Within(h[..|h| - 1], from, to) {
      WithinIsInRange(h[..|h| - 1], from, to, s);
    }
  }

  lemma WithinSnoc(h: seq<Signature>, from: nat, to: nat, slot: int)
    requires h != []
    ensures var last := h[|h| - 1];
            WithKey(Within(h, from, to), SlotOf, slot) == WithKey(Within(h[..|h| - 1], from, to), SlotOf, slot)
            + if from <= last.slot <= to && !last.failed && last.slot == slot then [last] else []
  {
    var init, last := h[..|h| - 1], h[|h| - 1];
    Snoc(Within(init, from, to), last, SlotOf, slot);
    assert Within(init, from, to) + [] == Within(init, from, to);
    hide WithKey;
  }

  lemma {:induction false} SlotWithin(h: seq<Signature>, from: nat, to: nat, slot: int)
    ensures WithKey(Within(h, from, to), SlotOf, slot) == if from <= slot <= to
            then WithKey(Within(h, slot, slot), SlotOf, slot) else []
  {
    if h != [] {
      var init, last := h[..|h| - 1], h[|h| - 1];
      SlotWithin(init, from, to, slot);
      WithinSnoc(h, from, to, slot);
      if from <= slot <= to {
        WithinSnoc(h, slot, slot, slot);
      }
      hide WithKey, Within;
    }
  }

  /** Reading [a, c] is reading [a, b] and then [b+1, c]. */
  lemma RangesJoin(h: seq<Signature>, a: nat, b: nat, c: nat)
    requires a <= b <= c
    ensures Ordered(h, a, c) == Ordered(h, a, b) + Ordered(h, b + 1, c)
  {
    var whole, low, high := Within(h, a, c), Within(h, a, b), Within(h, b + 1, c);
    forall x, y | x in low && y in high ensures SlotOf(x) < SlotOf(y) {
      WithinIsInRange(h, a, b, x);
      WithinIsInRange(h, b + 1, c, y);
    }
    forall k ensures WithKey(whole, SlotOf, k) == WithKey(low + high, SlotOf, k) {
      WithKeyConcat(low, high, SlotOf, k);
      SlotWithin(h, a, c, k);
      SlotWithin(h, a, b, k);
      SlotWithin(h, b + 1, c, k);
    }
    SortsInTwoParts(whole, low, high, SlotOf);
  }

  // ----- One transaction's events --------------------------------------------------------------

  type Program = string

  datatype Signer = NoAccounts | BadAccount | SignedBy(key: int)

  /** An inner instruction's data: not an event's, or an event's with its signer and what it decodes to. */
  datatype Data = Malformed | Other | Tagged(signer: Signer, decoded: Option<(string, int)>)

  /** `program` is None when its account index names no account. */
  datatype Instruction = Instruction(program: Option<Program>, data: Data)

  datatype Group = Group(index: int, instructions: seq<Instruction>)

  datatype Transaction = Transaction(slot: nat, failed: bool, blockTime: Option<int>, groups: seq<Group>)

  datatype Event = Event(program: Program, name: string, payload: int, logIndex: nat)

  datatype Error = BadIndex | BadData | UnsignedEvent | WrongAuthority | BadEvent | NoBlockTime | NotFound

  function GroupIndex(g: Group): int {
    g.index
  }

  function Flat(groups: seq<Group>): seq<Instruction> {
    if groups == [] then [] else Flat(groups[..|groups| - 1]) + groups[|groups| - 1].instructions
  }

  /** The event an instruction records, if it is one. */
  function EventOf(ix: Instruction, authorities: map<Program, int>): Result<Option<(Program, string, int)>, Error> {
    if ix.program.None? then Err(BadIndex)
    else if ix.program.value !in authorities then Ok(None)
    else
      match ix.data
      case Malformed => Err(BadData)
      case Other => Ok(None)
      case Tagged(NoAccounts, _) => Err(UnsignedEvent)
      case Tagged(BadAccount, _) => Err(BadIndex)
      case Tagged(SignedBy(key), decoded) =>
        if key != authorities[ix.program.value] then Err(WrongAuthority)
        else if decoded.None? then Err(BadEvent)
        else Ok(Some((ix.program.value, decoded.value.0, decoded.value.1)))
  }

  /** Every registered program's events in the transaction, numbered in order: nothing here depends on a filter. */
  function AllEvents(instructions: seq<Instruction>, authorities: map<Program, int>): Result<seq<Event>, Error> {
    if instructions == [] then Ok([])
    else
      match AllEvents(instructions[..|instructions| - 1], authorities)
      case Err(e) => Err(e)
      case Ok(events) =>
        match EventOf(instructions[|instructions| - 1], authorities)
        case Err(e) => Err(e)
        case Ok(None) => Ok(events)
        case Ok(Some((program, name, payload))) => Ok(events + [Event(program, name, payload, |events|)])
  }

  /** An event's number is its place among all the transaction's events. */
  lemma {:induction false} NumbersArePlaces(instructions: seq<Instruction>, authorities: map<Program, int>)
    requires AllEvents(instructions, authorities).Ok?
    ensures var events := AllEvents(instructions, authorities).value;
            forall i | 0 <= i < |events| :: events[i].logIndex == i
  {
    if instructions != [] {
      NumbersArePlaces(instructions[..|instructions| - 1], authorities);
    }
  }

  /** An event of a registered program, signed by the program's own authority and decoded. */
  ghost predicate Emits(ix: Instruction, authorities: map<Program, int>, program: Program, name: string, payload: int)
  {
    && ix.program == Some(program) && program in authorities
    && ix.data == Data.Tagged(SignedBy(authorities[program]), Some((name, payload)))
  }

  /** No event: an unregistered program's instruction, or one whose data is not an event's. */
  ghost predicate Silent(ix: Instruction, authorities: map<Program, int>) {
    ix.program.Some? && (ix.program.value !in authorities || ix.data == Other)
  }

  ghost predicate Readable(ix: Instruction, authorities: map<Program, int>) {
    || Silent(ix, authorities)
    || exists program, name, payload :: Emits(ix, authorities, program, name, payload)
  }

  ghost predicate Registered(ix: Instruction, authorities: map<Program, int>) {
    ix.program.Some? && ix.program.value in authorities
  }

  /** What is wrong with an instruction that stops the read. */
  ghost predicate Breaks(ix: Instruction, authorities: map<Program, int>, e: Error) {
    match e
    case BadIndex =>
      ix.program == None || (Registered(ix, authorities) && ix.data.Tagged? && ix.data.signer == BadAccount)
    case BadData => Registered(ix, authorities) && ix.data == Malformed
    case UnsignedEvent => Registered(ix, authorities) && ix.data.Tagged? && ix.data.signer == NoAccounts
    case WrongAuthority =>
      && Registered(ix, authorities) && ix.data.Tagged? && ix.data.signer.SignedBy?
      && ix.data.signer.key != authorities[ix.program.value]
    case BadEvent =>
      Registered(ix, authorities) && ix.data == Data.Tagged(SignedBy(authorities[ix.program.value]), None)
    case _ => false
  }

  /** The events are those of the instructions at `places`, in order and numbered from 0; the others are silent. */
  ghost predicate ReadAt(instructions: seq<Instruction>, authorities: map<Program, int>, events: seq<Event>,
                         places: seq<nat>) {
    && |places| == |events| && (forall i, j | 0 <= i < j < |places| :: places[i] < places[j])
    && (forall k | 0 <= k < |events| :: places[k] < |instructions| && events[k].logIndex == k)
    && (forall k | 0 <= k < |events| ::
          Emits(instructions[places[k]], authorities, events[k].program, events[k].name, events[k].payload))
    && forall i | 0 <= i < |instructions| && i !in places :: Silent(instructions[i], authorities)
  }

  /** The first instruction that cannot be read, and why. */
  ghost predicate BreaksAt(instructions: seq<Instruction>, authorities: map<Program, int>, e: Error, i: nat) {
    && i < |instructions| && Breaks(instructions[i], authorities, e)
    && forall j | 0 <= j < i :: Readable(instructions[j], authorities)
  }

  /** The read succeeds exactly when every instruction can be read, and otherwise gives the first error. */
  lemma {:induction false} ReadableExactlyWhen(instructions: seq<Instruction>, authorities: map<Program, int>)
    ensures AllEvents(instructions, authorities).Ok? <==>
            forall i | 0 <= i < |instructions| :: Readable(instructions[i], authorities)
    ensures var r := AllEvents(instructions, authorities);
            r.Err? ==> exists i :: BreaksAt(instructions, authorities, r.error, i)
  {
    hide EventOf, Breaks, Readable, Emits, Silent;
    if instructions != [] {
      var init, last := instructions[..|instructions| - 1], instructions[|instructions| - 1];
      ReadableExactlyWhen(init, authorities);
      OneEventInFull(last, authorities);
      var before := AllEvents(init, authorities);
      if before.Err? {
        var i :| BreaksAt(init, authorities, before.error, i);
        assert BreaksAt(instructions, authorities, before.error, i);
        var j :| 0 <= j < |init| && !Readable(init[j], authorities);
        assert !Readable(instructions[j], authorities);
      } else {
        forall j | 0 <= j < |init| ensures Readable(instructions[j], authorities) {
          assert Readable(init[j], authorities);
        }
        assert instructions[|init|] == last;
        var one := EventOf(last, authorities);
        if one.Err? { assert BreaksAt(instructions, authorities, one.error, |init|); }
      }
    }
  }

  /** A read that succeeds gives every event the instructions hold. */
  lemma {:induction false} EventsInFull(instructions: seq<Instruction>, authorities: map<Program, int>)
    returns (places: seq<nat>)
    requires AllEvents(instructions, authorities).Ok?
    ensures ReadAt(instructions, authorities, AllEvents(instructions, authorities).value, places)
  {
    if instructions == [] { return []; }
    var init, last := instructions[..|instructions| - 1], instructions[|instructions| - 1];
    places := EventsInFull(init, authorities);
    OneEventInFull(last, authorities);
    hide EventOf, Breaks, Readable, Emits, Silent;
    assert instructions == init + [last];
    var one := EventOf(last, authorities).value;
    if one.Some? {
      var (program, name, payload) := one.value;
      hide ReadAt;
      EventIsAdded(init, last, authorities, AllEvents(init, authorities).value, places, program, name, payload);
      places := places + [|init|];
    }
  }

  lemma EventIsAdded(init: seq<Instruction>, last: Instruction, authorities: map<Program, int>, events: seq<Event>,
                     places: seq<nat>, program: Program, name: string, payload: int)
    requires ReadAt(init, authorities, events, places) && Emits(last, authorities, program, name, payload)
    ensures ReadAt(init + [last], authorities, events + [Event(program, name, payload, |events|)], places + [|init|])
  {
    hide Emits, Silent;
    forall k | 0 <= k < |init| && k !in places + [|init|] ensures Silent((init + [last])[k], authorities) {
      assert k !in places;
    }
  }

  lemma OneEventInFull(ix: Instruction, authorities: map<Program, int>)
    ensures match EventOf(ix, authorities)
            case Err(e) => Breaks(ix, authorities, e) && !Readable(ix, authorities)
            case Ok(None) => Silent(ix, authorities) && Readable(ix, authorities)
            case Ok(Some((program, name, payload))) =>
              Emits(ix, authorities, program, name, payload) && Readable(ix, authorities)
  {
    var r := EventOf(ix, authorities);
    if r.Ok? && r.value.Some? {
      var (program, name, payload) := r.value.value;
      assert Emits(ix, authorities, program, name, payload);
    }
  }

  /** The events each wanted program is wanted for; "*" is any. */
  type Filter = map<Program, set<string>>

  predicate Wants(filter: Filter, program: Program, name: string) {
    program in filter && ("*" in filter[program] || name in filter[program])
  }

  function Wanted(events: seq<Event>, filter: Filter): seq<Event> {
    if events == [] then []
    else
      var e := events[|events| - 1];
      Wanted(events[..|events| - 1], filter) + if Wants(filter, e.program, e.name) then [e] else []
  }

  function WantedOf(events: Result<seq<Event>, Error>, filter: Filter): Result<seq<Event>, Error> {
    match events
    case Err(e) => Err(e)
    case Ok(all) => Ok(Wanted(all, filter))
  }

  /** What reading one transaction gives with no filter on its events. */
  function Full(tx: Option<Transaction>, authorities: map<Program, int>): Result<seq<Event>, Error> {
    if tx.None? then Err(NotFound)
    else if tx.value.failed then Ok([])
    else if tx.value.blockTime.None? then Err(NoBlockTime)
    else AllEvents(Flat(Sorted(tx.value.groups, GroupIndex)), authorities)
  }

  /** A filter keeps exactly the events it wants, in order. */
  lemma {:induction false} WantedInFull(events: seq<Event>, filter: Filter)
    requires forall i | 0 <= i < |events| :: events[i].logIndex == i
    ensures var kept := Wanted(events, filter);
            && (forall e :: e in kept <==> e in events && e.program in filter
                                           && (e.name in filter[e.program] || "*" in filter[e.program]))
            && forall i, j | 0 <= i < j < |kept| :: kept[i].logIndex < kept[j].logIndex
  {
    if events != [] { WantedInFull(events[..|events| - 1], filter); }
  }

  /** A transaction not found, or without a block time, is an error; a failed one has no events, whatever it holds; any
      other gives those of its instructions, the groups in the order of their indices. */
  lemma TransactionInFull(tx: Option<Transaction>, authorities: map<Program, int>, groups: seq<Group>)
    returns (places: seq<nat>)
    requires tx.Some? ==> SameByKey(groups, tx.value.groups, GroupIndex)
    requires forall i, j | 0 <= i < j < |groups| :: groups[i].index <= groups[j].index
    ensures Full(tx, authorities) == Err(NotFound) <==> tx == None
    ensures tx.Some? && tx.value.failed ==> Full(tx, authorities) == Ok([])
    ensures Full(tx, authorities) == Err(NoBlockTime) <==> tx.Some? && !tx.value.failed && tx.value.blockTime == None
    ensures tx.Some? && !tx.value.failed && tx.value.blockTime.Some? ==>
              match Full(tx, authorities)
              case Ok(events) => ReadAt(Flat(groups), authorities, events, places)
              case Err(e) => exists i :: BreaksAt(Flat(groups), authorities, e, i)
  {
    places := [];
    if AllEvents(Flat(groups), authorities).Ok? {
      places := EventsInFull(Flat(groups), authorities);
    }
    ReadableExactlyWhen(Flat(groups), authorities);
    if tx.Some? { GroupsInOrder(tx.value.groups, groups); }
    hide Sorted, AllEvents, Flat, ReadAt;
  }

  lemma GroupsInOrder(listed: seq<Group>, groups: seq<Group>)
    requires SameByKey(groups, listed, GroupIndex)
    requires forall i, j | 0 <= i < j < |groups| :: groups[i].index <= groups[j].index
    ensures Sorted(listed, GroupIndex) == groups
  {
    hide WithKey;
    SortIsStable(listed, GroupIndex);
    var sorted := Sorted(listed, GroupIndex);
    hide Sorted;
    forall k ensures WithKey(sorted, GroupIndex, k) == WithKey(groups, GroupIndex, k) {
      assert WithKey(sorted, GroupIndex, k) == WithKey(listed, GroupIndex, k);
      assert WithKey(groups, GroupIndex, k) == WithKey(listed, GroupIndex, k);
    }
    StableOrderIsUnique(sorted, groups, GroupIndex);
  }

  lemma {:induction false} FirstErrorStands(instructions: seq<Instruction>, authorities: map<Program, int>, i: nat)
    requires i <= |instructions| && AllEvents(instructions[..i], authorities).Err?
    ensures AllEvents(instructions, authorities) == AllEvents(instructions[..i], authorities)
    decreases |instructions|
  {
    if i < |instructions| {
      assert instructions[..|instructions| - 1][..i] == instructions[..i];
      FirstErrorStands(instructions[..|instructions| - 1], authorities, i);
    } else {
      assert instructions[..i] == instructions;
    }
  }

  lemma {:induction false} FlatSplits(groups: seq<Group>, g: nat)
    requires g < |groups|
    ensures var before := Flat(groups[..g]); var ixs := groups[g].instructions;
            |before| + |ixs| <= |Flat(groups)| && Flat(groups)[..|before|] == before
            && Flat(groups)[|before|..|before| + |ixs|] == ixs && Flat(groups[..g + 1]) == before + ixs
    decreases |groups|
  {
    assert groups[..g + 1][..g] == groups[..g];
    if g < |groups| - 1 {
      var init := groups[..|groups| - 1];
      assert init[..g] == groups[..g];
      FlatSplits(init, g);
      var n, m := |Flat(groups[..g])|, |groups[g].instructions|;
      assert Flat(groups)[..n] == Flat(init)[..n] && Flat(groups)[n..n + m] == Flat(init)[n..n + m];
    } else {
      assert groups[..g + 1] == groups;
    }
  }

  lemma WantedSnoc(all: seq<Event>, e: Event, filter: Filter)
    ensures Wanted(all + [e], filter) == Wanted(all, filter) + if Wants(filter, e.program, e.name) then [e] else []
  {
  }

  lemma AllEventsSnoc(instructions: seq<Instruction>, ix: Instruction, authorities: map<Program, int>)
    ensures AllEvents(instructions + [ix], authorities) ==
            match AllEvents(instructions, authorities)
            case Err(e) => Err(e)
            case Ok(events) =>
              match EventOf(ix, authorities)
              case Err(e) => Err(e)
              case Ok(None) => Ok(events)
              case Ok(Some((program, name, payload))) => Ok(events + [Event(program, name, payload, |events|)])
  {
  }

  /** The inner loop: one group, after the events `all` of the instructions `before`. */
  method GroupEvents(ixs: seq<Instruction>, authorities: map<Program, int>, filter: Filter, start: nat,
                     ghost before: seq<Instruction>, ghost all: seq<Event>)
    returns (r: Result<seq<Event>, Error>, next: nat, ghost total: seq<Event>)
    requires AllEvents(before, authorities) == Ok(all) && start == |all|
    ensures r.Ok? ==> AllEvents(before + ixs, authorities) == Ok(total) && next == |total|
                      && Wanted(all, filter) + r.value == Wanted(total, filter)
    ensures r.Err? ==> AllEvents(before + ixs, authorities) == Err(r.error)
  {
    hide EventOf, Wants, AllEvents, Wanted;
    var events: seq<Event> := [];
    next, total := start, all;
    assert before + ixs[..0] == before;
    for i := 0 to |ixs|
      invariant AllEvents(before + ixs[..i], authorities) == Ok(total)
      invariant next == |total| && Wanted(all, filter) + events == Wanted(total, filter)
    {
      var one := EventOf(ixs[i], authorities);
      AllEventsSnoc(before + ixs[..i], ixs[i], authorities);
      assert before + ixs[..i + 1] == (before + ixs[..i]) + [ixs[i]];
      if one.Err? {
        assert (before + ixs)[..|before| + i + 1] == before + ixs[..i + 1];
        FirstErrorStands(before + ixs, authorities, |before| + i + 1);
        return Err(one.error), next, total;
      }
      if one.value.Some? {
        var (program, name, payload) := one.value.value;
        var event := Event(program, name, payload, next);
        WantedSnoc(total, event, filter);
        next, total := next + 1, total + [event];
        if Wants(filter, program, name) {
          events := events + [event];
        }
      }
    }
    assert ixs[..|ixs|] == ixs;
    r := Ok(events);
  }

  /** A filtered read is the full read filtered, errors included. */
  method TransactionEvents(tx: Option<Transaction>, authorities: map<Program, int>, filter: Filter)
    returns (r: Result<seq<Event>, Error>)
    ensures r == WantedOf(Full(tx, authorities), filter)
  {
    if tx.None? {
      return Err(NotFound);
    }
    if tx.value.failed {
      return Ok([]);
    }
    if tx.value.blockTime.None? {
      return Err(NoBlockTime);
    }
    hide EventOf, Wants, Sorted;
    var groups := Sorted(tx.value.groups, GroupIndex);
    ghost var flat, all: seq<Event> := Flat(groups), [];
    var events: seq<Event>, logIndex: nat := [], 0;
    for g := 0 to |groups|
      invariant AllEvents(Flat(groups[..g]), authorities) == Ok(all)
      invariant logIndex == |all| && events == Wanted(all, filter)
    {
      FlatSplits(groups, g);
      ghost var before := Flat(groups[..g]);
      var one, next, total := GroupEvents(groups[g].instructions, authorities, filter, logIndex, before, all);
      if one.Err? {
        var n := |before| + |groups[g].instructions|;
        assert flat[..n] == before + groups[g].instructions;
        FirstErrorStands(flat, authorities, n);
        return Err(one.error);
      }
      events, logIndex, all := events + one.value, next, total;
    }
    assert groups[..|groups|] == groups;
    return Ok(events);
  }

  // ----- A range, over every wanted program ----------------------------------------------------

  datatype Log = Log(transaction: string, event: Event)

  function Tagged(id: string, events: seq<Event>): seq<Log> {
    seq(|events|, i requires 0 <= i < |events| => Log(id, events[i]))
  }

  /** The events of a list of transactions, stopping at the first that cannot be read. */
  function Logs(sigs: seq<Signature>, txs: string -> Option<Transaction>, authorities: map<Program, int>,
                keep: Result<seq<Event>, Error> -> Result<seq<Event>, Error>): Result<seq<Log>, Error> {
    if sigs == [] then Ok([])
    else
      var last := sigs[|sigs| - 1];
      match Logs(sigs[..|sigs| - 1], txs, authorities, keep)
      case Err(e) => Err(e)
      case Ok(logs) =>
        match keep(Full(txs(last.id), authorities))
        case Err(e) => Err(e)
        case Ok(events) => Ok(logs + Tagged(last.id, events))
  }

  function LogsFor(sigs: seq<Signature>, txs: string -> Option<Transaction>, authorities: map<Program, int>,
                   filter: Filter)
    : Result<seq<Log>, Error> {
    Logs(sigs, txs, authorities, events => WantedOf(events, filter))
  }

  function WantedLogs(logs: seq<Log>, filter: Filter): seq<Log> {
    if logs == [] then []
    else
      var l := logs[|logs| - 1];
      WantedLogs(logs[..|logs| - 1], filter) + if Wants(filter, l.event.program, l.event.name) then [l] else []
  }

  lemma TaggedSnoc(id: string, events: seq<Event>, e: Event)
    ensures Tagged(id, events + [e]) == Tagged(id, events) + [Log(id, e)]
  {
  }

  lemma WantedLogsSnoc(logs: seq<Log>, l: Log, filter: Filter)
    ensures WantedLogs(logs + [l], filter) == WantedLogs(logs, filter)
            + if Wants(filter, l.event.program, l.event.name) then [l] else []
  {
  }

  lemma {:induction false} WantedLogsTagged(id: string, before: seq<Log>, events: seq<Event>, filter: Filter)
    ensures WantedLogs(before + Tagged(id, events), filter) == WantedLogs(before, filter)
            + Tagged(id, Wanted(events, filter))
    decreases |events|
  {
    if events == [] {
      assert before + Tagged(id, events) == before;
      assert WantedLogs(before, filter) + Tagged(id, []) == WantedLogs(before, filter);
    } else {
      var init, last := events[..|events| - 1], events[|events| - 1];
      WantedLogsTagged(id, before, init, filter);
      assert events == init + [last];
      TaggedSnoc(id, init, last);
      WantedSnoc(init, last, filter);
      WantedLogsSnoc(before + Tagged(id, init), Log(id, last), filter);
      TaggedSnoc(id, Wanted(init, filter), last);
      hide WantedLogs, Tagged, Wanted, Wants;
      assert before + (Tagged(id, init) + [Log(id, last)]) == (before + Tagged(id, init)) + [Log(id, last)];
      if !Wants(filter, last.program, last.name) {
        assert Wanted(init, filter) + [] == Wanted(init, filter);
      }
    }
  }

  /** A filtered read of a range is the full read of it filtered, each event keeping its number. */
  lemma {:induction false} FilteringCommutes(sigs: seq<Signature>, txs: string -> Option<Transaction>,
                                             authorities: map<Program, int>, filter: Filter)
    ensures var full := Logs(sigs, txs, authorities, events => events);
            LogsFor(sigs, txs, authorities, filter) == if full.Ok? then Ok(WantedLogs(full.value, filter))
                else Err(full.error)
  {
    if sigs != [] {
      var init, last := sigs[..|sigs| - 1], sigs[|sigs| - 1];
      FilteringCommutes(init, txs, authorities, filter);
      var full := Logs(init, txs, authorities, events => events);
      var one := Full(txs(last.id), authorities);
      if full.Ok? && one.Ok? {
        WantedLogsTagged(last.id, full.value, one.value, filter);
      }
      hide Full, Wanted, WantedLogs, Tagged;
    }
  }

  function Joined(a: Result<seq<Log>, Error>, b: Result<seq<Log>, Error>): Result<seq<Log>, Error> {
    if a.Err? then a else if b.Err? then b else Ok(a.value + b.value)
  }

  function OneLog(s: Signature, txs: string -> Option<Transaction>, authorities: map<Program, int>, filter: Filter)
    : Result<seq<Log>, Error> {
    match WantedOf(Full(txs(s.id), authorities), filter)
    case Err(e) => Err(e)
    case Ok(events) => Ok(Tagged(s.id, events))
  }

  lemma LogsSnoc(sigs: seq<Signature>, s: Signature, txs: string -> Option<Transaction>, authorities: map<Program, int>,
                 filter: Filter)
    ensures LogsFor(sigs + [s], txs, authorities, filter)
         == Joined(LogsFor(sigs, txs, authorities, filter), OneLog(s, txs, authorities, filter))
  {
  }

  lemma JoinedAssociates(a: Result<seq<Log>, Error>, b: Result<seq<Log>, Error>, c: Result<seq<Log>, Error>)
    ensures Joined(Joined(a, b), c) == Joined(a, Joined(b, c))
    ensures Joined(a, Ok([])) == a
  {
    if a.Ok? && b.Ok? && c.Ok? {
      assert (a.value + b.value) + c.value == a.value + (b.value + c.value);
    }
    if a.Ok? {
      assert a.value + [] == a.value;
    }
  }

  lemma {:induction false} LogsJoin(a: seq<Signature>, b: seq<Signature>, txs: string -> Option<Transaction>,
                                    authorities: map<Program, int>, filter: Filter)
    ensures LogsFor(a + b, txs, authorities, filter)
         == Joined(LogsFor(a, txs, authorities, filter), LogsFor(b, txs, authorities, filter))
  {
    var first := LogsFor(a, txs, authorities, filter);
    if b == [] {
      assert a + b == a;
      JoinedAssociates(first, first, first);
    } else {
      hide LogsFor, OneLog, Joined;
      var init, last := b[..|b| - 1], b[|b| - 1];
      assert a + b == (a + init) + [last] && b == init + [last];
      LogsJoin(a, init, txs, authorities, filter);
      LogsSnoc(a + init, last, txs, authorities, filter);
      LogsSnoc(init, last, txs, authorities, filter);
      JoinedAssociates(first, LogsFor(init, txs, authorities, filter), OneLog(last, txs, authorities, filter));
    }
  }

  /** For one program, reading [a, c] gives the events of [a, b] and then those of [b+1, c]. */
  lemma ReadsJoin(h: seq<Signature>, a: nat, b: nat, c: nat, txs: string -> Option<Transaction>,
                  authorities: map<Program, int>, filter: Filter)
    requires a <= b <= c
    ensures LogsFor(Ordered(h, a, c), txs, authorities, filter)
         == Joined(LogsFor(Ordered(h, a, b), txs, authorities, filter),
                   LogsFor(Ordered(h, b + 1, c), txs, authorities, filter))
  {
    RangesJoin(h, a, b, c);
    LogsJoin(Ordered(h, a, b), Ordered(h, b + 1, c), txs, authorities, filter);
    hide Ordered, LogsFor;
  }

  // ----- Collecting the transactions -----------------------------------------------------------

  predicate Seen(sigs: seq<Signature>, id: string) {
    exists s :: s in sigs && s.id == id
  }

  ghost predicate Distinct(sigs: seq<Signature>) {
    forall i, j | 0 <= i < j < |sigs| :: sigs[i].id != sigs[j].id
  }

  lemma {:induction false} WithinIsDistinct(h: seq<Signature>, from: nat, to: nat)
    requires Distinct(h)
    ensures Distinct(Within(h, from, to))
  {
    if h != [] {
      var init, last := h[..|h| - 1], h[|h| - 1];
      WithinIsDistinct(init, from, to);
      forall s | s in Within(init, from, to) ensures s.id != last.id {
        WithinIsInRange(init, from, to, s);
      }
    }
  }

  /** The same transaction looks the same in every program's history. */
  ghost predicate Consistent(view: Program -> nat -> seq<Signature>, record: string -> Signature) {
    forall p, s | s in view(p)(0) :: s == record(s.id)
  }

  ghost predicate AllRecorded(sigs: seq<Signature>, record: string -> Signature) {
    forall s | s in sigs :: s == record(s.id)
  }

  lemma FoundIsRecorded(view: Program -> nat -> seq<Signature>, p: Program, from: nat, to: nat,
                        record: string -> Signature)
    requires Grows(view(p), to) && Consistent(view, record)
    ensures Distinct(Within(view(p)(0), from, to)) && AllRecorded(Within(view(p)(0), from, to), record)
  {
    assert History(view(p)(0));
    WithinIsDistinct(view(p)(0), from, to);
    forall s | s in Within(view(p)(0), from, to) ensures s == record(s.id) {
      WithinIsInRange(view(p)(0), from, to, s);
    }
  }

  /** Those not seen before are appended. */
  method AddNew(sigs: seq<Signature>, found: seq<Signature>, ghost record: string -> Signature)
    returns (out: seq<Signature>)
    requires Distinct(sigs) && Distinct(found) && AllRecorded(sigs, record) && AllRecorded(found, record)
    ensures Distinct(out) && AllRecorded(out, record)
    ensures forall s :: s in out <==> s in sigs || s in found
    ensures sigs == [] ==> out == found
  {
    out := sigs;
    for i := 0 to |found|
      invariant Distinct(out) && AllRecorded(out, record)
      invariant forall s :: s in out <==> s in sigs || s in found[..i]
      invariant sigs == [] ==> out == found[..i]
    {
      assert found[..i + 1] == found[..i] + [found[i]];
      if !Seen(out, found[i].id) {
        out := out + [found[i]];
      } else {
        var s :| s in out && s.id == found[i].id;
        assert s == record(s.id) == found[i];
      }
    }
    assert found[..|found|] == found;
  }

  /** Some wanted program's history has it in range. */
  ghost predicate Found(view: Program -> nat -> seq<Signature>, programs: set<Program>, from: nat, to: nat,
                        s: Signature) {
    exists p :: p in programs && s in Within(view(p)(0), from, to)
  }

  /** The programs in whatever order the map gives them, each transaction once. */
  method Collect(view: Program -> nat -> seq<Signature>, programs: set<Program>, from: nat, to: nat, limit: nat,
                 ghost record: string -> Signature)
    returns (sigs: seq<Signature>)
    requires limit > 0 && Consistent(view, record) && forall p | p in programs :: Grows(view(p), to)
    ensures Distinct(sigs) && forall s :: s in sigs <==> Found(view, programs, from, to, s)
    ensures forall p | programs == {p} :: sigs == Within(view(p)(0), from, to)
  {
    hide Grows, Within, History, Consistent, Distinct, AllRecorded;
    sigs := [];
    NothingSeen(record);
    var left := programs;
    while left != {}
      invariant left <= programs && Distinct(sigs) && AllRecorded(sigs, record)
      invariant forall s :: s in sigs <==> Found(view, programs - left, from, to, s)
      invariant left == programs ==> sigs == []
      invariant left == {} ==> forall p | programs == {p} :: sigs == Within(view(p)(0), from, to)
      decreases |left|
    {
      var p :| p in left;
      var found := SignaturesInRange(view(p), from, to, limit);
      FoundIsRecorded(view, p, from, to, record);
      sigs := AddNew(sigs, found, record);
      assert forall q :: q in programs - (left - {p}) <==> q in programs - left || q == p;
      if left - {p} == {} {
        forall q | programs == {q} ensures left == programs && q == p {
          assert q in programs && p in programs;
        }
      }
      left := left - {p};
    }
    assert programs - left == programs;
  }

  lemma NothingSeen(record: string -> Signature)
    ensures Distinct([]) && AllRecorded([], record)
  {
  }

  datatype RangeError = EmptyRange | NoIdl | Pruned | Unreadable(why: Error)

  /** The wanted names by program: a filter with no names wants any. */
  method Merge(filters: seq<(Program, seq<string>)>, authorities: map<Program, int>)
    returns (r: Result<Filter, RangeError>)
    ensures r.Err? <==> exists i :: 0 <= i < |filters| && filters[i].0 !in authorities
    ensures r.Err? ==> r.error == NoIdl
    ensures r.Ok? ==> r.value.Keys == set i | 0 <= i < |filters| :: filters[i].0
    ensures r.Ok? ==> forall p, n :: p in r.value && n in r.value[p] <==> WantsName(filters, p, n)
  {
    var wanted: Filter := map[];
    for i := 0 to |filters|
      invariant forall j | 0 <= j < i :: filters[j].0 in authorities
      invariant wanted.Keys == set j | 0 <= j < i :: filters[j].0
      invariant forall p, n :: p in wanted && n in wanted[p] <==> WantsName(filters[..i], p, n)
    {
      var f := filters[i];
      if f.0 !in authorities {
        return Err(NoIdl);
      }
      var names := (if f.0 in wanted then wanted[f.0] else {}) + if f.1 == [] then {"*"} else set n | n in f.1;
      WantsNameNext(filters, i);
      wanted := wanted[f.0 := names];
    }
    assert filters[..|filters|] == filters;
    return Ok(wanted);
  }

  predicate WantsName(filters: seq<(Program, seq<string>)>, p: Program, n: string) {
    exists i :: 0 <= i < |filters| && filters[i].0 == p && (n in filters[i].1 || (filters[i].1 == [] && n == "*"))
  }

  lemma WantsNameNext(filters: seq<(Program, seq<string>)>, i: nat)
    requires i < |filters|
    ensures forall p, n :: WantsName(filters[..i + 1], p, n) <==>
              WantsName(filters[..i], p, n) || (filters[i].0 == p
                                                && (n in filters[i].1 || (filters[i].1 == [] && n == "*")))
  {
    forall p, n ensures WantsName(filters[..i + 1], p, n) <==>
        WantsName(filters[..i], p, n) || (filters[i].0 == p && (n in filters[i].1 || (filters[i].1 == [] && n == "*")))
    {
      if WantsName(filters[..i], p, n) {
        var j :| 0 <= j < i && filters[..i][j].0 == p
            && (n in filters[..i][j].1 || (filters[..i][j].1 == [] && n == "*"));
        assert filters[..i + 1][j] == filters[..i][j];
      }
      assert filters[..i + 1][i] == filters[i];
    }
  }

  /** The whole read. The transactions read are exactly the wanted programs' in the range, oldest slot first; for one
      program nothing about their order is left open. */
  method LogsInRange(filters: seq<(Program, seq<string>)>, authorities: map<Program, int>,
                     view: Program -> nat -> seq<Signature>, txs: string -> Option<Transaction>, firstAvailable: nat,
                     from: nat, to: nat, limit: nat, ghost record: string -> Signature)
    returns (r: Result<seq<Log>, RangeError>, ghost sigs: seq<Signature>, ghost wanted: Filter)
    requires limit > 0 && Consistent(view, record) && forall p :: Grows(view(p), to)
    ensures filters == [] ==> r == Ok([])
    ensures filters != [] ==> (r == Err(EmptyRange) <==> from > to)
    ensures filters != [] && from <= to ==>
            (r == Err(NoIdl) <==> exists i :: 0 <= i < |filters| && filters[i].0 !in authorities)
    ensures filters != [] && from <= to && r != Err(NoIdl) ==> (r == Err(Pruned) <==> from < firstAvailable)
    ensures filters != [] && (r.Err? ==> r.error.Unreadable?) ==>
              && (forall p, n :: p in wanted && n in wanted[p] <==> WantsName(filters, p, n))
              && Ascending(sigs, SlotOf) && (forall s :: s in sigs <==> Found(view, wanted.Keys, from, to, s))
              && (forall p | wanted.Keys == {p} :: sigs == Ordered(view(p)(0), from, to))
              && var logs := LogsFor(sigs, txs, authorities, wanted);
                 r == if logs.Ok? then Ok(logs.value) else Err(Unreadable(logs.error))
  {
    sigs, wanted := [], map[];
    if filters == [] {
      return Ok([]), [], map[];
    }
    if from > to {
      return Err(EmptyRange), [], map[];
    }
    var merged := Merge(filters, authorities);
    if merged.Err? {
      return Err(NoIdl), [], map[];
    }
    if from < firstAvailable {
      return Err(Pruned), [], map[];
    }
    hide Found, WantsName, LogsFor, Grows, Consistent, Within, Distinct, Sorted, Ascending;
    wanted := merged.value;
    var found := Collect(view, merged.value.Keys, from, to, limit, record);
    var signatures := Sorted(found, SlotOf);
    SortIsStable(found, SlotOf);
    forall s ensures s in signatures <==> s in found {
      assert s in signatures <==> s in multiset(signatures);
      assert s in found <==> s in multiset(found);
    }
    sigs := signatures;
    var logs := ReadTransactions(signatures, txs, authorities, merged.value);
    r := if logs.Ok? then Ok(logs.value) else Err(Unreadable(logs.error));
  }

  method ReadTransactions(sigs: seq<Signature>, txs: string -> Option<Transaction>, authorities: map<Program, int>,
                          filter: Filter)
    returns (r: Result<seq<Log>, Error>)
    ensures r == LogsFor(sigs, txs, authorities, filter)
  {
    hide Full, WantedOf;
    var logs: seq<Log> := [];
    for i := 0 to |sigs|
      invariant LogsFor(sigs[..i], txs, authorities, filter) == Ok(logs)
    {
      assert sigs[..i + 1][..i] == sigs[..i];
      var one := TransactionEvents(txs(sigs[i].id), authorities, filter);
      if one.Err? {
        FirstUnreadableStands(sigs, i + 1, txs, authorities, filter);
        return Err(one.error);
      }
      logs := logs + Tagged(sigs[i].id, one.value);
    }
    assert sigs[..|sigs|] == sigs;
    r := Ok(logs);
  }

  lemma {:induction false} FirstUnreadableStands(sigs: seq<Signature>, i: nat, txs: string -> Option<Transaction>,
                                                 authorities: map<Program, int>, filter: Filter)
    requires i <= |sigs| && LogsFor(sigs[..i], txs, authorities, filter).Err?
    ensures LogsFor(sigs, txs, authorities, filter) == LogsFor(sigs[..i], txs, authorities, filter)
    decreases |sigs|
  {
    if i < |sigs| {
      assert sigs[..|sigs| - 1][..i] == sigs[..i];
      FirstUnreadableStands(sigs[..|sigs| - 1], i, txs, authorities, filter);
    } else {
      assert sigs[..i] == sigs;
    }
  }
}
