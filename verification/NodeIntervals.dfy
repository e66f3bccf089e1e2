/** The node-interval table: when each oracle node was in the active set, as node-set versions.
    Models the open and close statements of db/oracle.go and the selection of db/oracle_misses.go,
    under delivery that may repeat any event already delivered. */
module NodeIntervals {
  import opened Options

  type Node = nat
  type Version = nat

  datatype Closing = Closing(version: Version, at: int, reason: string)
  datatype Key = Key(node: Node, activated: Version)
  datatype Row = Row(activatedAt: int, closing: Option<Closing>)
  type Rows = map<Key, Row>

  /** A row as the aggregator reads it. */
  datatype NodeInterval = NodeInterval(node: Node, activated: Version, closing: Option<Closing>) {
    predicate Contains(version: Version) {
      activated <= version && (closing.None? || version < closing.value.version)
    }
  }

  datatype SetEvent =
    | Activated(node: Node, version: Version, at: int)
    | Deactivated(node: Node, version: Version, at: int, reason: string)

  // ----- The statements, on values -------------------------------------------------------------

  /** ON CONFLICT (chain_id, node, activated_version) DO NOTHING. */
  function Opened(rows: Rows, node: Node, version: Version, at: int): Rows {
    if Key(node, version) in rows then rows else rows[Key(node, version) := Row(at, None)]
  }

  /** SELECT MAX(activated_version) over the node's rows that began before `version`. */
  function Latest(rows: Rows, node: Node, version: Version): (r: Option<Version>)
    ensures r.Some? ==> r.value < version && Key(node, r.value) in rows
    ensures r.Some? ==> forall k | k in rows && k.node == node && k.activated < version :: k.activated <= r.value
    ensures r.None? ==> forall k | k in rows && k.node == node :: k.activated >= version
  {
    if version == 0 then None
    else if Key(node, version - 1) in rows then Some(version - 1)
    else Latest(rows, node, version - 1)
  }

  function Closed(rows: Rows, node: Node, c: Closing): (Rows, bool) {
    match Latest(rows, node, c.version)
    case None => (rows, false)
    case Some(a) =>
      var row := rows[Key(node, a)];
      if row.closing.None? || row.closing.value.version == c.version
      then (rows[Key(node, a) := row.(closing := Some(c))], true)
      else (rows, false)
  }

  /** The row is the node's latest that began before the closing, and open or closed by the same change. */
  ghost predicate IsToClose(rows: Rows, node: Node, c: Closing, k: Key) {
    && k in rows && k.node == node && k.activated < c.version
    && (forall l | l in rows && l.node == node && l.activated < c.version :: l.activated <= k.activated)
    && (rows[k].closing.None? || rows[k].closing.value.version == c.version)
  }

  /** That row is closed and nothing else changes, and it is told whether there was one. */
  lemma ClosesOneRow(rows: Rows, node: Node, c: Closing)
    ensures var (after, found) := Closed(rows, node, c);
            && after.Keys == rows.Keys
            && (forall k | k in rows ::
                  after[k] == if IsToClose(rows, node, c, k) then rows[k].(closing := Some(c)) else rows[k])
            && (found <==> exists k :: IsToClose(rows, node, c, k))
  {
    var latest := Latest(rows, node, c.version);
    if latest.Some? {
      var key := Key(node, latest.value);
      assert IsToClose(rows, node, c, key) <==> rows[key].closing.None? || rows[key].closing.value.version == c.version;
    }
    hide Latest;
  }

  function Applied(rows: Rows, e: SetEvent): Rows {
    match e
    case Activated(n, v, at) => Opened(rows, n, v, at)
    case Deactivated(n, v, at, reason) => Closed(rows, n, Closing(v, at, reason)).0
  }

  function AppliedAll(events: seq<SetEvent>): Rows {
    if events == [] then map[] else Applied(AppliedAll(events[..|events| - 1]), events[|events| - 1])
  }

  class IntervalTable {
    var rows: Rows

    constructor ()
      ensures rows == map[]
    {
      rows := map[];
    }

    method OpenNodeInterval(node: Node, version: Version, at: int)
      modifies this
      ensures rows == Opened(old(rows), node, version, at)
    {
      if Key(node, version) !in rows {
        rows := rows[Key(node, version) := Row(at, None)];
      }
    }

    /** Reports whether an interval was found to close. */
    method CloseNodeInterval(node: Node, version: Version, at: int, reason: string) returns (found: bool)
      modifies this
      ensures (rows, found) == Closed(old(rows), node, Closing(version, at, reason))
    {
      var latest := Latest(rows, node, version);
      if latest.None? {
        return false;
      }
      var row := rows[Key(node, latest.value)];
      if row.closing.Some? && row.closing.value.version != version {
        return false;
      }
      rows := rows[Key(node, latest.value) := row.(closing := Some(Closing(version, at, reason)))];
      return true;
    }

    method NodeIntervalsAt(version: Version) returns (out: seq<NodeInterval>)
      ensures IsSelection(out, rows, version)
    {
      out := SelectAt(rows, version);
    }
  }

  /** The rows whose interval contains `version`, each once, in no particular order. */
  method SelectAt(rows: Rows, version: Version) returns (out: seq<NodeInterval>)
    ensures IsSelection(out, rows, version)
  {
    out := [];
    var left := rows.Keys;
    while left != {}
      invariant left <= rows.Keys
      invariant IsSelection(out, map k | k in rows && k !in left :: rows[k], version)
      decreases |left|
    {
      var k :| k in left;
      var iv := NodeInterval(k.node, k.activated, rows[k].closing);
      ghost var seen := map k | k in rows && k !in left :: rows[k];
      left := left - {k};
      if iv.Contains(version) {
        out := out + [iv];
      }
      assert (map k | k in rows && k !in left :: rows[k]) == seen[k := rows[k]];
    }
    assert (map k | k in rows && k !in left :: rows[k]) == rows;
  }

  ghost predicate IsSelection(out: seq<NodeInterval>, rows: Rows, version: Version) {
    && (forall iv :: iv in out <==> iv.Contains(version) && Key(iv.node, iv.activated) in rows
                                    && rows[Key(iv.node, iv.activated)].closing == iv.closing)
    && forall i, j | 0 <= i < j < |out| :: out[i] != out[j]
  }

  // ----- What the chain emits ------------------------------------------------------------------

  predicate IsActive(events: seq<SetEvent>, node: Node) {
    if events == [] then false
    else var e := events[|events| - 1];
         if e.node == node then e.Activated? else IsActive(events[..|events| - 1], node)
  }

  /** Per node: versions strictly increase and activations alternate with deactivations. A node's first event
      may be a deactivation, when indexing started after the node joined. */
  ghost predicate Lawful(events: seq<SetEvent>) {
    events == [] ||
    var before, e := events[..|events| - 1], events[|events| - 1];
    && Lawful(before)
    && (forall p | p in before && p.node == e.node :: p.version < e.version)
    && (e.Activated? ==> !IsActive(before, e.node))
    && (e.Deactivated? ==> IsActive(before, e.node) || forall p | p in before :: p.node != e.node)
  }

  /** The reference: a node is in the set at `version` when it was last activated at or before `version`
      and has not been deactivated since. */
  ghost predicate ActiveAt(events: seq<SetEvent>, node: Node, version: Version) {
    exists a | a in events :: a.Activated? && a.node == node && a.version <= version &&
      forall d | d in events && d.Deactivated? && d.node == node && a.version < d.version :: version < d.version
  }

  // ----- The table mirrors the events ----------------------------------------------------------

  /** The activation that began `k`'s row. */
  ghost predicate Begun(k: Key, row: Row, events: seq<SetEvent>) {
    Activated(k.node, k.activated, row.activatedAt) in events
  }

  /** A row is closed by the node's next event, and open only when there is none. */
  ghost predicate EndsRight(k: Key, row: Row, events: seq<SetEvent>) {
    match row.closing
    case None => forall e | e in events && e.node == k.node :: e.version <= k.activated
    case Some(c) =>
      && c.version > k.activated && Deactivated(k.node, c.version, c.at, c.reason) in events
      && forall e | e in events && e.node == k.node :: e.version <= k.activated || c.version <= e.version
  }

  /** An activation has its row; a deactivation closed the latest row before it, if there was one. */
  ghost predicate Recorded(e: SetEvent, rows: Rows) {
    match e
    case Activated(n, v, at) => Key(n, v) in rows && rows[Key(n, v)].activatedAt == at
    case Deactivated(n, v, at, reason) =>
      var latest := Latest(rows, n, v);
      latest.Some? ==> rows[Key(n, latest.value)].closing == Some(Closing(v, at, reason))
  }

  ghost predicate Mirrors(rows: Rows, events: seq<SetEvent>) {
    && (forall k | k in rows :: Begun(k, rows[k], events) && EndsRight(k, rows[k], events))
    && forall e | e in events :: Recorded(e, rows)
  }

  lemma LastActivation(events: seq<SetEvent>, node: Node) returns (e: SetEvent)
    requires Lawful(events) && IsActive(events, node)
    ensures e in events && e.Activated? && e.node == node
    ensures forall p | p in events && p.node == node :: p.version <= e.version
  {
    var last := events[|events| - 1];
    if last.node == node {
      e := last;
    } else {
      e := LastActivation(events[..|events| - 1], node);
    }
  }

  lemma SameLatest(a: Rows, b: Rows, node: Node, version: Version)
    requires forall k: Key | k.node == node && k.activated < version :: k in a <==> k in b
    ensures Latest(a, node, version) == Latest(b, node, version)
  {
    if version > 0 && Key(node, version - 1) !in a { SameLatest(a, b, node, version - 1); }
  }

  lemma {:induction false} TableMirrorsEvents(events: seq<SetEvent>)
    requires Lawful(events)
    ensures Mirrors(AppliedAll(events), events)
  {
    if events != [] {
      var n := |events| - 1;
      TableMirrorsEvents(events[..n]);
      assert events == events[..n] + [events[n]];
      match events[n] {
        case Activated(_, _, _) => ActivationMirrors(AppliedAll(events[..n]), events[..n], events[n]);
        case Deactivated(_, _, _, _) => DeactivationMirrors(AppliedAll(events[..n]), events[..n], events[n]);
      }
    }
  }

  lemma ActivationMirrors(rows: Rows, events: seq<SetEvent>, e: SetEvent)
    requires Mirrors(rows, events) && Lawful(events + [e]) && e.Activated?
    ensures Mirrors(Applied(rows, e), events + [e])
  {
    var all := events + [e];
    assert all[..|events|] == events;
    var after := Applied(rows, e);
    assert Key(e.node, e.version) !in rows by {
      assert forall k | k in rows :: Begun(k, rows[k], events);
    }
    forall k | k in after ensures Begun(k, after[k], all) && EndsRight(k, after[k], all) {
      if k in rows && k.node == e.node && rows[k].closing.None? {
        RowOpenMeansActive(rows, events, k);
      }
    }
    forall p | p in all ensures Recorded(p, after) {
      if p != e && p.Deactivated? {
        SameLatest(rows, after, p.node, p.version);
      }
    }
  }

  lemma RowOpenMeansActive(rows: Rows, events: seq<SetEvent>, k: Key)
    requires Mirrors(rows, events) && Lawful(events) && k in rows && rows[k].closing.None?
    ensures IsActive(events, k.node)
  {
    assert Begun(k, rows[k], events) && EndsRight(k, rows[k], events);
    LastIsActive(events, Activated(k.node, k.activated, rows[k].activatedAt));
  }

  lemma LastIsActive(events: seq<SetEvent>, a: SetEvent)
    requires Lawful(events) && a in events && a.Activated?
    requires forall p | p in events && p.node == a.node :: p.version <= a.version
    ensures IsActive(events, a.node)
  {
    var last := events[|events| - 1];
    if last != a {
      LastIsActive(events[..|events| - 1], a);
    }
  }

  lemma LatestIs(rows: Rows, node: Node, version: Version, v: Version)
    requires Key(node, v) in rows && v < version
    requires forall k | k in rows && k.node == node :: k.activated <= v
    ensures Latest(rows, node, version) == Some(v)
  {
    var l := Latest(rows, node, version);
    if l.Some? { assert Key(node, l.value).activated <= v; }
  }

  /** The deactivation of an active node finds the row its last activation began, still open. */
  lemma LatestIsLastActivation(rows: Rows, events: seq<SetEvent>, e: SetEvent) returns (k: Key)
    requires Mirrors(rows, events) && Lawful(events) && IsActive(events, e.node)
    requires forall p | p in events && p.node == e.node :: p.version < e.version
    ensures k.node == e.node && k in rows && rows[k].closing.None? && k.activated < e.version
    ensures Latest(rows, e.node, e.version) == Some(k.activated)
    ensures forall p | p in events && p.node == e.node :: p.version <= k.activated
  {
    var a := LastActivation(events, e.node);
    k := Key(e.node, a.version);
    assert Recorded(a, rows);
    assert EndsRight(k, rows[k], events);
    forall l | l in rows && l.node == e.node ensures l.activated <= a.version {
      assert Begun(l, rows[l], events);
    }
    LatestIs(rows, e.node, e.version, a.version);
  }

  /** The table with `k`'s row closed by `e`. */
  ghost function With(rows: Rows, k: Key, e: SetEvent): Rows
    requires k in rows && e.Deactivated?
  {
    rows[k := rows[k].(closing := Some(Closing(e.version, e.at, e.reason)))]
  }

  lemma ClosedRowsEndRight(rows: Rows, events: seq<SetEvent>, e: SetEvent, k: Key, l: Key)
    requires Mirrors(rows, events) && e.Deactivated? && l in rows
    requires k.node == e.node && k in rows && k.activated < e.version
    requires forall p | p in events && p.node == e.node :: p.version <= k.activated
    ensures Begun(l, With(rows, k, e)[l], events + [e]) && EndsRight(l, With(rows, k, e)[l], events + [e])
  {
    assert Begun(l, rows[l], events) && EndsRight(l, rows[l], events) && Begun(k, rows[k], events);
    var row := With(rows, k, e)[l];
    assert Begun(l, row, events + [e]);
    if l != k && l.node == e.node {
      assert l.activated <= k.activated <= e.version;
      assert l.activated != k.activated;
      assert rows[l].closing.Some?;
    }
    forall p | p in events + [e] && p.node == l.node && p.version > l.activated
      ensures row.closing.Some? && row.closing.value.version <= p.version
    {
      assert p in events || p == e;
    }
  }

  lemma ClosedRowsRecorded(rows: Rows, events: seq<SetEvent>, e: SetEvent, k: Key, p: SetEvent)
    requires Mirrors(rows, events) && e.Deactivated? && p in events
    requires k.node == e.node && k in rows && rows[k].closing.None?
    ensures Recorded(p, With(rows, k, e))
  {
    assert Recorded(p, rows);
    if p.Deactivated? { SameLatest(rows, With(rows, k, e), p.node, p.version); }
  }

  lemma ClosingMirrors(rows: Rows, events: seq<SetEvent>, e: SetEvent, k: Key)
    requires Mirrors(rows, events) && e.Deactivated?
    requires k.node == e.node && k in rows && rows[k].closing.None? && k.activated < e.version
    requires Latest(rows, e.node, e.version) == Some(k.activated)
    requires forall p | p in events && p.node == e.node :: p.version <= k.activated
    ensures Mirrors(Applied(rows, e), events + [e])
  {
    var all := events + [e];
    var after := Applied(rows, e);
    assert after == With(rows, k, e);
    forall l | l in after ensures Begun(l, after[l], all) && EndsRight(l, after[l], all) {
      ClosedRowsEndRight(rows, events, e, k, l);
    }
    forall p | p in all ensures Recorded(p, after) {
      if p in events {
        ClosedRowsRecorded(rows, events, e, k, p);
      } else {
        SameLatest(rows, after, e.node, e.version);
      }
    }
  }

  lemma DeactivationMirrors(rows: Rows, events: seq<SetEvent>, e: SetEvent)
    requires Mirrors(rows, events) && Lawful(events + [e]) && e.Deactivated?
    ensures Mirrors(Applied(rows, e), events + [e])
  {
    var all := events + [e];
    assert all[..|events|] == events;
    if IsActive(events, e.node) {
      var k := LatestIsLastActivation(rows, events, e);
      ClosingMirrors(rows, events, e, k);
    } else {
      assert forall k | k in rows :: Begun(k, rows[k], events);
      assert Latest(rows, e.node, e.version).None?;
      assert Applied(rows, e) == rows;
      forall k | k in rows ensures Begun(k, rows[k], all) && EndsRight(k, rows[k], all) {}
      assert forall p | p in events :: Recorded(p, rows);
    }
  }

  /** A new event leaves every row alone but the open one it closes. */
  lemma OnlyTheOpenRowMoves(events: seq<SetEvent>, e: SetEvent, k: Key)
    requires Lawful(events + [e]) && k in AppliedAll(events)
    ensures var rows, after := AppliedAll(events), Applied(AppliedAll(events), e);
            && k in after
            && (after[k] != rows[k] ==>
                  e.Deactivated? && rows[k].closing.None?
                      && after[k].closing == Some(Closing(e.version, e.at, e.reason)))
  {
    hide Mirrors, Lawful;
    var rows := AppliedAll(events);
    LawfulInit(events, e);
    TableMirrorsEvents(events);
    if e.Deactivated? && IsActive(events, e.node) {
      var closed := LatestIsLastActivation(rows, events, e);
    } else if e.Deactivated? {
      NothingToClose(rows, events, e);
    }
  }

  lemma LawfulInit(events: seq<SetEvent>, e: SetEvent)
    requires Lawful(events + [e])
    ensures Lawful(events) && forall p | p in events && p.node == e.node :: p.version < e.version
    ensures e.Deactivated? && !IsActive(events, e.node) ==> forall p | p in events :: p.node != e.node
  {
    assert (events + [e])[..|events|] == events;
  }

  lemma NothingToClose(rows: Rows, events: seq<SetEvent>, e: SetEvent)
    requires Mirrors(rows, events) && forall p | p in events :: p.node != e.node
    ensures Latest(rows, e.node, e.version).None?
  {
    assert forall k | k in rows :: Begun(k, rows[k], events);
  }

  // ----- Replay --------------------------------------------------------------------------------

  /** The events delivered, each at its first delivery. */
  function Firsts(deliveries: seq<SetEvent>): seq<SetEvent> {
    if deliveries == [] then []
    else
      var before, e := Firsts(deliveries[..|deliveries| - 1]), deliveries[|deliveries| - 1];
      if e in before then before else before + [e]
  }

  lemma {:induction false} FirstsAreOnceEach(deliveries: seq<SetEvent>, k: nat)
    requires k <= |deliveries|
    ensures forall e :: e in Firsts(deliveries) <==> e in deliveries
    ensures forall i, j | 0 <= i < j < |Firsts(deliveries)| :: Firsts(deliveries)[i] != Firsts(deliveries)[j]
    ensures Firsts(deliveries[..k]) <= Firsts(deliveries)
  {
    if deliveries != [] {
      var n := |deliveries| - 1;
      FirstsAreOnceEach(deliveries[..n], if k < n then k else n);
      assert forall e :: e in deliveries <==> e in deliveries[..n] || e == deliveries[n];
      assert k <= n ==> deliveries[..n][..k] == deliveries[..k];
      assert k > n ==> deliveries[..k] == deliveries;
    }
  }

  lemma ReplayedEventChangesNothing(rows: Rows, events: seq<SetEvent>, e: SetEvent)
    requires Mirrors(rows, events) && e in events
    ensures Applied(rows, e) == rows
  {
    assert Recorded(e, rows);
  }

  /** Any events may be delivered again, any number of times, in any order, at any moment after their first
      delivery: the table is that of one clean pass. */
  lemma {:induction false} ReplayIsInvisible(deliveries: seq<SetEvent>)
    requires Lawful(Firsts(deliveries))
    ensures AppliedAll(deliveries) == AppliedAll(Firsts(deliveries))
  {
    if deliveries != [] {
      var before, e := deliveries[..|deliveries| - 1], deliveries[|deliveries| - 1];
      if e in Firsts(before) {
        ReplayIsInvisible(before);
        TableMirrorsEvents(Firsts(before));
        ReplayedEventChangesNothing(AppliedAll(before), Firsts(before), e);
      } else {
        assert Firsts(deliveries)[..|Firsts(before)|] == Firsts(before);
        ReplayIsInvisible(before);
      }
    }
  }

  // ----- What a selection means ----------------------------------------------------------------

  /** No version lies in two intervals of one node. */
  lemma IntervalsAreDisjoint(events: seq<SetEvent>, rows: Rows, k: Key, l: Key, version: Version)
    requires Lawful(events) && rows == AppliedAll(events)
    requires k in rows && l in rows && k.node == l.node
    requires NodeInterval(k.node, k.activated, rows[k].closing).Contains(version)
    requires NodeInterval(l.node, l.activated, rows[l].closing).Contains(version)
    ensures k == l
  {
    TableMirrorsEvents(events);
    assert Begun(k, rows[k], events) && EndsRight(k, rows[k], events);
    assert Begun(l, rows[l], events) && EndsRight(l, rows[l], events);
  }

  lemma SelectedIsActive(events: seq<SetEvent>, version: Version, out: seq<NodeInterval>, iv: NodeInterval)
    requires Lawful(events) && IsSelection(out, AppliedAll(events), version) && iv in out
    ensures ActiveAt(events, iv.node, version)
  {
    TableMirrorsEvents(events);
    var rows := AppliedAll(events);
    var k := Key(iv.node, iv.activated);
    assert Begun(k, rows[k], events) && EndsRight(k, rows[k], events);
    var a := Activated(iv.node, iv.activated, rows[k].activatedAt);
    assert a in events;
  }

  lemma RowOfActivation(rows: Rows, events: seq<SetEvent>, a: SetEvent, version: Version)
    requires Mirrors(rows, events) && a in events && a.Activated? && a.version <= version
    requires forall d | d in events && d.Deactivated? && d.node == a.node && a.version < d.version ::
             version < d.version
    ensures var k := Key(a.node, a.version);
            k in rows && NodeInterval(a.node, a.version, rows[k].closing).Contains(version)
  {
    var k := Key(a.node, a.version);
    assert Recorded(a, rows);
    assert EndsRight(k, rows[k], events);
    if rows[k].closing.Some? {
      var c := rows[k].closing.value;
      assert Deactivated(a.node, c.version, c.at, c.reason) in events;
    }
  }

  lemma ActiveIsSelected(events: seq<SetEvent>, version: Version, out: seq<NodeInterval>, node: Node)
    requires Lawful(events) && IsSelection(out, AppliedAll(events), version) && ActiveAt(events, node, version)
    ensures exists iv :: iv in out && iv.node == node
  {
    TableMirrorsEvents(events);
    var rows := AppliedAll(events);
    var a :| a in events && a.Activated? && a.node == node && a.version <= version &&
      forall d | d in events && d.Deactivated? && d.node == node && a.version < d.version :: version < d.version;
    RowOfActivation(rows, events, a, version);
    assert NodeInterval(node, a.version, rows[Key(node, a.version)].closing) in out;
  }

  /** The rows selected at a version are the nodes active at it, one row each. */
  lemma SelectionIsTheActiveSet(events: seq<SetEvent>, version: Version, out: seq<NodeInterval>)
    requires Lawful(events) && IsSelection(out, AppliedAll(events), version)
    ensures forall node :: (exists iv :: iv in out && iv.node == node) <==> ActiveAt(events, node, version)
    ensures forall i, j | 0 <= i < j < |out| :: out[i].node != out[j].node
  {
    forall iv | iv in out ensures ActiveAt(events, iv.node, version) {
      SelectedIsActive(events, version, out, iv);
    }
    forall node | ActiveAt(events, node, version) ensures exists iv :: iv in out && iv.node == node {
      ActiveIsSelected(events, version, out, node);
    }
    forall i, j | 0 <= i < j < |out| ensures out[i].node != out[j].node {
      assert out[i] in out && out[j] in out;
      if out[i].node == out[j].node {
        var k, l := Key(out[i].node, out[i].activated), Key(out[j].node, out[j].activated);
        IntervalsAreDisjoint(events, AppliedAll(events), k, l, version);
      }
    }
  }
}
