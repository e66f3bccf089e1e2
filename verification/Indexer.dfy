/** The indexer's cursor protocol: batches behind a confirmation window, handlers that insert by event key, and a
    cursor saved only after its batch. A write may fail at any moment, and the process may restart at any moment. */
module Indexer {
  import opened Arithmetic
  import opened Options

  // uint64, and the range of the BIGINT column a block number is stored in.
  const WRAP := 0x1_0000_0000_0000_0000
  type Block = x: int | 0 <= x < 0x8000_0000_0000_0000

  datatype Key = Key(txHash: string, logIndex: nat)
  datatype Event = Event(block: nat, key: Key, payload: int)

  /** The chain's final events by block, and what each handler records for an event, if anything. */
  datatype World = World(blocks: nat -> seq<Event>, handlers: nat, row: (nat, Event) -> Option<int>)

  /** Every event lies in its own block, and the key identifies it. */
  ghost predicate WellFormed(w: World) {
    && (forall b: nat, e | e in w.blocks(b) :: e.block == b)
    && forall a: nat, b: nat, e, f | e in w.blocks(a) && f in w.blocks(b) && e.key == f.key :: e == f
  }

  /** LogsInRange, on a range that is not empty. */
  function EventsIn(w: World, from: nat, to: nat): seq<Event> {
    if from > to then []
    else if to == 0 then w.blocks(0)
    else EventsIn(w, from, to - 1) + w.blocks(to)
  }

  lemma {:induction false} InRange(w: World, from: nat, to: nat, e: Event)
    requires WellFormed(w)
    ensures e in EventsIn(w, from, to) <==> from <= e.block <= to && e in w.blocks(e.block)
  {
    if from <= to && to > 0 { InRange(w, from, to - 1, e); }
  }

  // ----- One clean pass ------------------------------------------------------------------------

  type Table = map<Key, int>

  /** ON CONFLICT (chain_id, tx_hash, log_index) DO NOTHING. */
  function Inserted(t: Table, key: Key, row: Option<int>): Table {
    if row.None? || key in t then t else t[key := row.value]
  }

  /** Handler `h`'s table after handling `events` once each, in order. */
  function CleanTable(w: World, h: nat, events: seq<Event>): Table {
    if events == [] then map[]
    else
      var e := events[|events| - 1];
      Inserted(CleanTable(w, h, events[..|events| - 1]), e.key, w.row(h, e))
  }

  lemma {:induction false} CleanTableHolds(w: World, h: nat, events: seq<Event>, key: Key)
    requires forall e, f | e in events && f in events && e.key == f.key :: e == f
    ensures key in CleanTable(w, h, events) <==> exists e :: e in events && e.key == key && w.row(h, e).Some?
    ensures forall e | e in events && e.key == key && w.row(h, e).Some? ::
            CleanTable(w, h, events)[key] == w.row(h, e).value
  {
    if events != [] {
      var init, last := events[..|events| - 1], events[|events| - 1];
      assert events == init + [last];
      CleanTableHolds(w, h, init, key);
    }
  }

  // ----- What every run keeps ------------------------------------------------------------------

  /** `key`'s row in `t` records a final event of blocks `from`..`to`. */
  ghost predicate Records(w: World, t: Table, h: nat, key: Key, from: nat, to: nat)
    requires key in t
  {
    exists e: Event :: e in w.blocks(e.block) && from <= e.block <= to && e.key == key && w.row(h, e) == Some(t[key])
  }

  /** Every row records a final event above `origin`, at or below the highest safe head seen. */
  ghost predicate Sound(w: World, t: Table, h: nat, origin: nat, safest: nat) {
    forall key | key in t :: Records(w, t, h, key, origin + 1, safest)
  }

  /** Every event above `origin`, at or below `to`, has been handled. */
  ghost predicate Handled(w: World, t: Table, h: nat, origin: nat, to: nat) {
    forall e: Event | e in w.blocks(e.block) && origin < e.block <= to && w.row(h, e).Some? :: e.key in t
  }

  ghost predicate TablesOk(w: World, tables: seq<Table>, origin: nat, to: nat, safest: nat) {
    forall h | 0 <= h < |tables| :: Sound(w, tables[h], h, origin, safest) && Handled(w, tables[h], h, origin, to)
  }

  ghost predicate Empty(tables: seq<Table>) {
    forall h | 0 <= h < |tables| :: tables[h] == map[]
  }

  /** No row is lost or rewritten. */
  ghost predicate Grown(before: seq<Table>, after: seq<Table>) {
    |before| == |after| && forall h, key | 0 <= h < |before| && key in before[h] ::
        key in after[h] && after[h][key] == before[h][key]
  }

  /** The first `n` handlers have recorded event `e`. */
  ghost predicate Recorded(w: World, tables: seq<Table>, e: Event, n: nat) {
    forall h | 0 <= h < |tables| && h < n && w.row(h, e).Some? :: e.key in tables[h]
  }

  ghost predicate AllRecorded(w: World, tables: seq<Table>, events: seq<Event>) {
    forall j | 0 <= j < |events| :: Recorded(w, tables, events[j], |tables|) && events[j].key.txHash != ""
  }

  ghost predicate Identified(w: World, origin: nat, to: nat) {
    forall e: Event | e in w.blocks(e.block) && origin < e.block <= to :: e.key.txHash != ""
  }

  lemma InsertKeepsSound(w: World, t: Table, h: nat, origin: nat, safest: nat, e: Event)
    requires Sound(w, t, h, origin, safest) && e in w.blocks(e.block) && origin < e.block <= safest
    ensures Sound(w, Inserted(t, e.key, w.row(h, e)), h, origin, safest)
  {
  }

  /** Inserting a final event's row keeps every table as it must be, and loses nothing. */
  lemma InsertKeeps(w: World, tables: seq<Table>, h: nat, origin: nat, to: nat, safest: nat, e: Event)
    requires h < |tables| && TablesOk(w, tables, origin, to, safest)
    requires e in w.blocks(e.block) && origin < e.block <= safest && Recorded(w, tables, e, h)
    ensures TablesOk(w, tables[h := Inserted(tables[h], e.key, w.row(h, e))], origin, to, safest)
    ensures Recorded(w, tables[h := Inserted(tables[h], e.key, w.row(h, e))], e, h + 1)
    ensures Grown(tables, tables[h := Inserted(tables[h], e.key, w.row(h, e))])
  {
    InsertKeepsSound(w, tables[h], h, origin, safest, e);
    hide Sound;
  }

  lemma GrownTrans(a: seq<Table>, b: seq<Table>, c: seq<Table>)
    requires Grown(a, b) && Grown(b, c)
    ensures Grown(a, c)
  {
  }

  lemma GrownKeepsRecords(w: World, a: seq<Table>, b: seq<Table>, events: seq<Event>)
    requires Grown(a, b) && AllRecorded(w, a, events)
    ensures AllRecorded(w, b, events)
  {
  }

  lemma RaiseSafest(w: World, tables: seq<Table>, origin: nat, to: nat, a: nat, b: nat)
    requires TablesOk(w, tables, origin, to, a) && a <= b
    ensures TablesOk(w, tables, origin, to, b)
  {
  }

  /** A batch handled on top of everything before it covers everything up to its end. */
  lemma BatchHandled(w: World, tables: seq<Table>, origin: nat, cursor: nat, to: nat, safest: nat)
    requires WellFormed(w) && TablesOk(w, tables, origin, cursor, safest) && Identified(w, origin, cursor)
    requires AllRecorded(w, tables, EventsIn(w, cursor + 1, to))
    ensures TablesOk(w, tables, origin, to, safest) && Identified(w, origin, to)
  {
    var events := EventsIn(w, cursor + 1, to);
    forall e: Event | e in w.blocks(e.block) && cursor < e.block <= to
      ensures e.key.txHash != "" && Recorded(w, tables, e, |tables|)
    {
      InRange(w, cursor + 1, to, e);
      assert e in events;
    }
    hide WellFormed, AllRecorded, Sound;
  }

  /** A row is in the clean pass over blocks `from`..`to` exactly when an event of those blocks recorded it. */
  lemma CleanTableRecords(w: World, h: nat, from: nat, to: nat, key: Key)
    requires WellFormed(w)
    ensures var clean := CleanTable(w, h, EventsIn(w, from, to)); key in clean ==> Records(w, clean, h, key, from, to)
    ensures forall e: Event | e in w.blocks(e.block) && from <= e.block <= to && e.key == key && w.row(h, e).Some? ::
              key in CleanTable(w, h, EventsIn(w, from, to))
  {
    var events := EventsIn(w, from, to);
    forall e: Event ensures e in events <==> from <= e.block <= to && e in w.blocks(e.block) {
      InRange(w, from, to, e);
    }
    CleanTableHolds(w, h, events, key);
    hide EventsIn, CleanTable;
    if key in CleanTable(w, h, events) {
      var e :| e in events && e.key == key && w.row(h, e).Some?;
      assert w.row(h, e) == Some(CleanTable(w, h, events)[key]);
    }
  }

  lemma SameKeySameRow(w: World, s: Table, t: Table, h: nat, key: Key, a: nat, b: nat, c: nat, d: nat)
    requires WellFormed(w) && key in s && key in t && Records(w, s, h, key, a, b) && Records(w, t, h, key, c, d)
    ensures s[key] == t[key]
  {
  }

  /** The rows at or below the cursor are one clean pass's over the events above the first cursor; any other row is of
      a batch still being handled. With nothing being handled the table is the clean pass's. */
  lemma CursorMeansCleanPass(w: World, t: Table, h: nat, origin: nat, to: nat, safest: nat)
    requires WellFormed(w) && Sound(w, t, h, origin, safest) && Handled(w, t, h, origin, to)
    ensures var clean := CleanTable(w, h, EventsIn(w, origin + 1, to));
            && (forall key | key in clean :: key in t && t[key] == clean[key])
            && (forall key | key in t && key !in clean :: Records(w, t, h, key, to + 1, safest))
            && (to >= safest ==> t == clean)
  {
    hide WellFormed, EventsIn, CleanTable;
    var clean := CleanTable(w, h, EventsIn(w, origin + 1, to));
    forall key | key in clean ensures key in t && t[key] == clean[key] {
      CleanTableRecords(w, h, origin + 1, to, key);
      assert key in t;
      SameKeySameRow(w, clean, t, h, key, origin + 1, to, origin + 1, safest);
    }
    forall key | key in t && key !in clean ensures Records(w, t, h, key, to + 1, safest) {
      CleanTableRecords(w, h, origin + 1, to, key);
      assert Records(w, t, h, key, origin + 1, safest);
    }
    if to >= safest {
      assert forall key | key in t :: key in clean;
      assert t == clean;
    }
  }

  ghost predicate HasUnidentified(events: seq<Event>) {
    exists e :: e in events && e.key.txHash == ""
  }

  /** What can stop a batch: it cannot be read, it is empty, its end lies beyond 64 bits, the writes run out, or an
      event has no identifier. */
  ghost predicate Halted(w: World, cursor: Block, batchSize: nat, safeHead: nat, readable: bool, writes: nat) {
    var events := EventsIn(w, cursor + 1, Min(cursor + batchSize, safeHead));
    || !readable || batchSize == 0 || cursor + batchSize >= 0x1_0000_0000_0000_0000
    || HasUnidentified(events) || writes <= |events| * w.handlers
  }

  /** The last block of a batch, in the machine's arithmetic. */
  function BatchEnd(cursor: Block, batchSize: nat, safeHead: nat): nat {
    Min((cursor + batchSize) % WRAP, safeHead)
  }

  class Process {
    const w: World
    const confirms: nat
    const batchSize: nat
    var tables: seq<Table>
    var stored: Option<Block>
    var cursor: Block
    /** How many more writes succeed. */
    var writesLeft: nat
    /** The block the first cursor was saved at, and the highest safe head seen. */
    ghost var origin: nat
    ghost var safest: nat

    ghost predicate Valid()
      reads this
    {
      && WellFormed(w) && |tables| == w.handlers && batchSize < WRAP
      && (stored.None? ==> Empty(tables))
      && (stored.Some? ==>
            && origin <= stored.value && (stored.value > origin ==> stored.value <= safest)
            && Identified(w, origin, stored.value) && TablesOk(w, tables, origin, stored.value, safest))
    }

    /** Restored: the process and the store agree on the cursor. */
    ghost predicate Running()
      reads this
    {
      Valid() && stored == Some(cursor)
    }

    constructor (w: World, confirms: nat, batchSize: nat)
      requires WellFormed(w) && batchSize < WRAP
      ensures Valid() && stored.None? && safest == 0
      ensures this.w == w && this.confirms == confirms && this.batchSize == batchSize
    {
      this.w, this.confirms, this.batchSize := w, confirms, batchSize;
      tables := seq(w.handlers, _ => map[]);
      stored, cursor, writesLeft := None, 0, 0;
      origin, safest := 0, 0;
    }

    /** The guard makes the cursor monotone: a stale write cannot rewind it. */
    method SaveCursor(block: Block) returns (ok: bool)
      modifies this`stored, this`writesLeft
      ensures ok == (old(writesLeft) > 0) && writesLeft == old(writesLeft) - (if ok then 1 else 0)
      ensures stored == if ok && (old(stored).None? || old(stored).value < block) then Some(block) else old(stored)
    {
      if writesLeft == 0 {
        return false;
      }
      writesLeft := writesLeft - 1;
      if stored.None? || stored.value < block {
        stored := Some(block);
      }
      return true;
    }

    /** The start block applies only while no cursor is stored. */
    method RestoreCursor(startBlock: Block) returns (ok: bool)
      requires Valid()
      modifies this`stored, this`writesLeft, this`cursor, this`origin
      ensures Valid()
      ensures ok ==> Running()
      ensures old(stored).Some? ==> ok && stored == old(stored) && origin == old(origin)
      ensures old(stored).None? ==> ok == (old(writesLeft) > 0) && stored == if ok then Some(startBlock) else None
      ensures old(stored).None? && ok ==> origin == startBlock
    {
      if stored.Some? {
        cursor := stored.value;
        return true;
      }
      cursor := startBlock;
      ok := SaveCursor(cursor);
      if ok {
        origin := startBlock;
      }
    }

    /** One event, through every handler in turn. */
    method Dispatch(e: Event) returns (ok: bool)
      requires Running() && e in w.blocks(e.block) && origin < e.block <= safest
      modifies this`tables, this`writesLeft
      ensures Running() && Grown(old(tables), tables)
      ensures ok ==> e.key.txHash != "" && Recorded(w, tables, e, |tables|)
      ensures writesLeft >= old(writesLeft) - w.handlers
      ensures !ok ==> e.key.txHash == "" || old(writesLeft) < w.handlers
    {
      hide WellFormed, TablesOk, Identified, Inserted;
      if e.key.txHash == "" {
        return false;
      }
      for h := 0 to w.handlers
        invariant Running() && Grown(old(tables), tables) && Recorded(w, tables, e, h)
        invariant writesLeft >= old(writesLeft) - h
      {
        if w.row(h, e).Some? && writesLeft == 0 {
          return false;
        }
        ghost var before := tables;
        InsertKeeps(w, before, h, origin, stored.value, safest, e);
        if w.row(h, e).Some? {
          writesLeft := writesLeft - 1;
        }
        tables := tables[h := Inserted(tables[h], e.key, w.row(h, e))];
        GrownTrans(old(tables), before, tables);
      }
      return true;
    }

    /** The events of the batch, oldest first, stopping at the first that a handler refuses. */
    method DispatchAll(from: nat, to: nat) returns (ok: bool)
      requires Running() && origin < from && to <= safest
      modifies this`tables, this`writesLeft
      ensures Running() && Grown(old(tables), tables)
      ensures ok ==> AllRecorded(w, tables, EventsIn(w, from, to))
      ensures ok ==> writesLeft >= old(writesLeft) - |EventsIn(w, from, to)| * w.handlers
      ensures !ok ==> HasUnidentified(EventsIn(w, from, to)) || old(writesLeft) < |EventsIn(w, from, to)| * w.handlers
    {
      hide TablesOk, Identified, Grown, Recorded, EventsIn;
      var events := EventsIn(w, from, to);
      GrownFromStart(tables);
      for i := 0 to |events|
        invariant Running() && Grown(old(tables), tables) && AllRecorded(w, tables, events[..i])
        invariant writesLeft >= old(writesLeft) - i * w.handlers
      {
        assert (i + 1) * w.handlers == i * w.handlers + w.handlers;
        MulMonotone(i + 1, |events|, w.handlers);
        assert events[i] in events;
        InRange(w, from, to, events[i]);
        ghost var before := tables;
        ok := Dispatch(events[i]);
        GrownTrans(old(tables), before, tables);
        if !ok {
          return false;
        }
        GrownKeepsRecords(w, before, tables, events[..i]);
        assert events[..i + 1] == events[..i] + [events[i]];
      }
      assert events[..|events|] == events;
      return true;
    }

    /** One poll at a given head. A cursor is advanced only past events every handler has recorded, and never beyond the
        confirmation window. */
    method Step(head: Block, readable: bool) returns (advanced: bool, ok: bool)
      requires Running()
      modifies this`tables, this`stored, this`cursor, this`writesLeft, this`safest
      ensures Running() && Grown(old(tables), tables)
      ensures safest == old(safest) || old(safest) < safest == head - confirms
      ensures advanced <==> stored != old(stored)
      ensures advanced ==>
              ok && head >= confirms && old(cursor) < cursor == Min(old(cursor) + batchSize, head - confirms)
      ensures !advanced && ok ==> head < confirms || head - confirms <= cursor
      ensures !advanced ==> cursor == old(cursor)
      ensures !ok ==>
              head >= confirms
              && Halted(w, old(cursor), batchSize, head - confirms, readable, old(writesLeft))
    {
      hide TablesOk, Identified, Grown, AllRecorded, EventsIn;
      GrownFromStart(tables);
      if head < confirms || head - confirms <= cursor {
        return false, true;
      }
      var safeHead := head - confirms;
      var from := cursor + 1;
      var to := BatchEnd(cursor, batchSize, safeHead);
      if from > to || !readable {
        // The client refuses an empty range.
        return false, false;
      }
      RaiseSafest(w, tables, origin, cursor, safest, if safeHead > safest then safeHead else safest);
      safest := if safeHead > safest then safeHead else safest;
      ok := DispatchAll(from, to);
      if !ok {
        return false, false;
      }
      BatchHandled(w, tables, origin, cursor, to, safest);
      ok := SaveCursor(to);
      if !ok {
        return false, false;
      }
      cursor := to;
      return true, true;
    }
  }

  lemma GrownFromStart(a: seq<Table>)
    ensures Grown(a, a)
  {
  }

  function Min(a: nat, b: nat): nat {
    if a < b then a else b
  }

  // ----- Every run -----------------------------------------------------------------------------

  /** A process start, or one poll of the loop. `writes` is how many writes succeed before the next move: a crash is a
      move whose writes run out, followed by a start. */
  datatype Move = Start(startBlock: Block, writes: nat) | Poll(head: Block, readable: bool, writes: nat)

  ghost predicate NeverBack(cursors: seq<Option<Block>>) {
    forall i, j | 0 <= i < j < |cursors| && cursors[i].Some? :: cursors[j].Some? && cursors[i].value <= cursors[j].value
  }

  /** The cursor is first stored at a start block, and moves afterwards only in a poll, within its confirmed blocks. */
  ghost predicate Confirmed(moves: seq<Move>, cursors: seq<Option<Block>>, confirms: nat)
    requires |cursors| == |moves| + 1
  {
    forall i | 0 <= i < |moves| && cursors[i] != cursors[i + 1] ::
      && cursors[i + 1].Some?
      && (cursors[i].None? ==> moves[i].Start? && cursors[i + 1].value == moves[i].startBlock)
      && (cursors[i].Some? ==> moves[i].Poll? && cursors[i + 1].value + confirms <= moves[i].head)
  }

  /** The tables are one clean pass over the blocks up to the cursor, plus rows of the batch being handled. */
  ghost predicate CleanPass(w: World, tables: seq<Table>, origin: nat, to: nat, safest: nat) {
    forall h | 0 <= h < |tables| ::
      var clean := CleanTable(w, h, EventsIn(w, origin + 1, to));
      && (forall key | key in clean :: key in tables[h] && tables[h][key] == clean[key])
      && (forall key | key in tables[h] && key !in clean :: Records(w, tables[h], h, key, to + 1, safest))
      && (to >= safest ==> tables[h] == clean)
  }

  lemma CursorMeansCleanTables(w: World, tables: seq<Table>, origin: nat, to: nat, safest: nat)
    requires WellFormed(w) && TablesOk(w, tables, origin, to, safest)
    ensures CleanPass(w, tables, origin, to, safest)
  {
    hide WellFormed, Sound, Handled, EventsIn, CleanTable;
    forall h | 0 <= h < |tables| {
      CursorMeansCleanPass(w, tables[h], h, origin, to, safest);
    }
  }

  /** The cursor first stored is the pass's origin. */
  ghost predicate StartsAt(cursors: seq<Option<Block>>, origin: nat) {
    forall i | 0 <= i < |cursors| - 1 && cursors[i].None? && cursors[i + 1].Some? :: cursors[i + 1].value == origin
  }

  /** The last confirmed block of the highest head polled. */
  function HighestSafe(moves: seq<Move>, confirms: nat): nat {
    if moves == [] then 0
    else
      var before, last := HighestSafe(moves[..|moves| - 1], confirms), moves[|moves| - 1];
      if last.Poll? && last.head >= confirms && last.head - confirms > before then last.head - confirms else before
  }

  /** What every run's trace of stored cursors meets. */
  ghost predicate Traced(moves: seq<Move>, cursors: seq<Option<Block>>, confirms: nat, origin: nat, safest: nat) {
    && |cursors| == |moves| + 1
    && NeverBack(cursors) && Confirmed(moves, cursors, confirms)
    && StartsAt(cursors, origin) && safest <= HighestSafe(moves, confirms)
    && (cursors[|moves|].None? ==> forall i | 0 <= i < |cursors| :: cursors[i].None?)
  }

  /** One move takes the stored cursor from `last` to `next`. */
  ghost predicate Moves(move: Move, last: Option<Block>, next: Option<Block>, confirms: nat, origin: nat) {
    next != last ==>
      && next.Some?
      && (last.None? ==> move.Start? && next.value == move.startBlock == origin)
      && (last.Some? ==> move.Poll? && last.value <= next.value && next.value + confirms <= move.head)
  }

  lemma OneMoreMove(moves: seq<Move>, cursors: seq<Option<Block>>, confirms: nat, move: Move, next: Option<Block>,
                    origin: nat, origin': nat, safest: nat, safest': nat)
    requires Traced(moves, cursors, confirms, origin, safest)
    requires var last := cursors[|moves|];
             Moves(move, last, next, confirms, origin') && (last.Some? ==> origin' == origin)
    requires safest' == safest || (move.Poll? && move.head >= confirms && safest' == move.head - confirms)
    ensures Traced(moves + [move], cursors + [next], confirms, origin', safest')
  {
    NeverBackStill(cursors, next);
    ConfirmedStill(moves, cursors, confirms, move, next, origin');
    StartsStill(cursors, next, origin, origin');
    assert (moves + [move])[..|moves|] == moves;
    hide NeverBack, Confirmed, StartsAt;
  }

  lemma NeverBackStill(cursors: seq<Option<Block>>, next: Option<Block>)
    requires cursors != [] && NeverBack(cursors)
    requires var last := cursors[|cursors| - 1]; last.Some? ==> next.Some? && last.value <= next.value
    ensures NeverBack(cursors + [next])
  {
  }

  lemma ConfirmedStill(moves: seq<Move>, cursors: seq<Option<Block>>, confirms: nat, move: Move, next: Option<Block>,
                       origin: nat)
    requires |cursors| == |moves| + 1 && Confirmed(moves, cursors, confirms)
    requires Moves(move, cursors[|moves|], next, confirms, origin)
    ensures Confirmed(moves + [move], cursors + [next], confirms)
  {
    var all, trace := moves + [move], cursors + [next];
    forall i | 0 <= i < |all| && trace[i] != trace[i + 1]
      ensures trace[i + 1].Some?
      ensures trace[i].None? ==> all[i].Start? && trace[i + 1].value == all[i].startBlock
      ensures trace[i].Some? ==> all[i].Poll? && trace[i + 1].value + confirms <= all[i].head
    {
      assert i < |moves| ==> trace[i] == cursors[i] && trace[i + 1] == cursors[i + 1] && all[i] == moves[i];
    }
  }

  lemma StartsStill(cursors: seq<Option<Block>>, next: Option<Block>, origin: nat, origin': nat)
    requires cursors != [] && StartsAt(cursors, origin)
    requires var last := cursors[|cursors| - 1];
             && (last.None? ==> forall i | 0 <= i < |cursors| :: cursors[i].None?)
             && (last.None? && next.Some? ==> next.value == origin')
             && (last.Some? ==> origin' == origin)
    ensures StartsAt(cursors + [next], origin')
  {
    var trace := cursors + [next];
    forall i | 0 <= i < |trace| - 1 && trace[i].None? && trace[i + 1].Some? ensures trace[i + 1].value == origin' {
      assert i < |cursors| - 1 ==> trace[i] == cursors[i] && trace[i + 1] == cursors[i + 1];
    }
  }

  lemma NoMoves(confirms: nat, origin: nat)
    ensures Traced([], [None], confirms, origin, 0)
  {
  }

  /** How a move takes the stored cursor from `last` to `next`, and why a poll does not advance. */
  ghost predicate Explains(w: World, confirms: nat, batchSize: nat, move: Move, last: Option<Block>,
                           next: Option<Block>) {
    match move
    case Start(startBlock, writes) => next == if last.None? && writes > 0 then Some(startBlock) else last
    case Poll(head, readable, writes) =>
      if last.None? || head < confirms || head - confirms <= last.value then next == last
      else
        var c, safeHead := last.value, head - confirms;
        || (next == Some(Min(c + batchSize, safeHead)) && c < next.value)
        || (next == last && Halted(w, c, batchSize, safeHead, readable, writes))
  }

  ghost predicate AllExplained(w: World, confirms: nat, batchSize: nat, moves: seq<Move>, cursors: seq<Option<Block>>) {
    |cursors| == |moves| + 1
    && forall i | 0 <= i < |moves| :: Explains(w, confirms, batchSize, moves[i], cursors[i], cursors[i + 1])
  }

  lemma OneMoreExplained(w: World, confirms: nat, batchSize: nat, moves: seq<Move>, cursors: seq<Option<Block>>,
                         move: Move, next: Option<Block>)
    requires AllExplained(w, confirms, batchSize, moves, cursors)
    requires Explains(w, confirms, batchSize, move, cursors[|moves|], next)
    ensures AllExplained(w, confirms, batchSize, moves + [move], cursors + [next])
  {
    hide Explains;
    var all, trace := moves + [move], cursors + [next];
    forall i | 0 <= i < |all| ensures Explains(w, confirms, batchSize, all[i], trace[i], trace[i + 1]) {
      assert i < |moves| ==> all[i] == moves[i] && trace[i] == cursors[i] && trace[i + 1] == cursors[i + 1];
    }
  }

  /** Nothing halts this poll. */
  ghost predicate Unhalted(w: World, confirms: nat, batchSize: nat, move: Move, cursor: Block) {
    move.Poll? && (move.head >= confirms ==>
      !Halted(w, cursor, batchSize, move.head - confirms, move.readable, move.writes))
  }

  /** `n` polls that nothing halts, at heads no lower than `head`, take the cursor `n` batches on or to the safe
      head. */
  lemma {:induction false} CatchesUp(w: World, confirms: nat, batchSize: nat, moves: seq<Move>,
                                     cursors: seq<Option<Block>>, i: nat, n: nat, head: nat)
    requires AllExplained(w, confirms, batchSize, moves, cursors) && i + n <= |moves| && cursors[i].Some?
    requires head >= confirms
    requires forall j | i <= j < i + n :: moves[j].Poll? && moves[j].head >= head
    requires forall j | i <= j < i + n && cursors[j].Some? ::
             Unhalted(w, confirms, batchSize, moves[j], cursors[j].value)
    ensures cursors[i + n].Some? && cursors[i + n].value >= cursors[i].value
    ensures cursors[i + n].value >= cursors[i].value + n * batchSize || cursors[i + n].value >= head - confirms
  {
    if n > 0 {
      CatchesUp(w, confirms, batchSize, moves, cursors, i, n - 1, head);
      var j := i + n - 1;
      assert Explains(w, confirms, batchSize, moves[j], cursors[j], cursors[j + 1]);
      assert n * batchSize == (n - 1) * batchSize + batchSize;
      hide Halted;
    }
  }

  method Perform(p: Process, running: bool, move: Move) returns (runs: bool)
    requires p.Valid() && (if running then p.Running() else p.stored.None?)
    modifies p
    ensures p.Valid() && (if runs then p.Running() else p.stored.None?)
    ensures Moves(move, old(p.stored), p.stored, p.confirms, p.origin)
            && (old(p.stored).Some? ==> p.origin == old(p.origin))
    ensures p.safest == old(p.safest) || (move.Poll? && move.head >= p.confirms && p.safest == move.head - p.confirms)
    ensures Explains(p.w, p.confirms, p.batchSize, move, old(p.stored), p.stored)
  {
    hide WellFormed, TablesOk, Identified, Empty, Grown, Halted;
    p.writesLeft := move.writes;
    match move {
      case Start(startBlock, _) =>
        runs := p.RestoreCursor(startBlock);
      case Poll(head, readable, _) =>
        runs := running;
        if running {
          var advanced, ok := p.Step(head, readable);
        }
    }
  }

  /** Any sequence of starts and polls, on any heads, failing at any write. */
  method Run(p: Process, moves: seq<Move>) returns (cursors: seq<Option<Block>>)
    requires p.Valid() && p.stored.None? && p.safest == 0
    modifies p
    ensures Traced(moves, cursors, p.confirms, p.origin, p.safest) && cursors[|moves|] == p.stored
    ensures AllExplained(p.w, p.confirms, p.batchSize, moves, cursors)
    ensures p.stored.None? ==> Empty(p.tables)
    ensures p.stored.Some? ==> CleanPass(p.w, p.tables, p.origin, p.stored.value, p.safest)
    ensures p.stored.Some? ==> Identified(p.w, p.origin, p.stored.value)
  {
    hide WellFormed, TablesOk, Identified, Empty, Grown, CleanPass, NeverBack, Confirmed, StartsAt, HighestSafe,
         Halted, Explains;
    cursors := [p.stored];
    var running := false;
    NoMoves(p.confirms, p.origin);
    for i := 0 to |moves|
      invariant p.Valid() && (if running then p.Running() else p.stored.None?)
      invariant AllExplained(p.w, p.confirms, p.batchSize, moves[..i], cursors)
      invariant Traced(moves[..i], cursors, p.confirms, p.origin, p.safest) && cursors[i] == p.stored
    {
      ghost var origin, safest, before := p.origin, p.safest, cursors;
      running := Perform(p, running, moves[i]);
      OneMoreExplained(p.w, p.confirms, p.batchSize, moves[..i], before, moves[i], p.stored);
      OneMoreMove(moves[..i], before, p.confirms, moves[i], p.stored, origin, p.origin, safest, p.safest);
      assert moves[..i + 1] == moves[..i] + [moves[i]];
      cursors := cursors + [p.stored];
    }
    assert moves[..|moves|] == moves;
    if p.stored.Some? {
      CursorMeansCleanTables(p.w, p.tables, p.origin, p.stored.value, p.safest);
    }
  }
}
