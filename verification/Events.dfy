/** Event numbering and command-brief staleness. Writers may read the incident row
    before they take the write lock; the unique (incident, sequence) constraint is what
    stops a writer whose copy is out of date. One incident; briefs are rows named by
    their position. */
module Events {
  import opened Options

  datatype Resource =
    | Incident | Report | Attachment | BlindSpot | Question | DirectedAnswer
    | Fragment | Conflict | Fact | AiAnalysis

  predicate DataAffecting(r: Resource) {
    r != AiAnalysis
  }

  predicate MapAffecting(r: Resource) {
    r in {Report, BlindSpot, Fact, Conflict, Fragment}
  }

  datatype Kind = Main(resource: Resource) | BriefStale(brief: nat) | MapInvalidated(mapRevision: nat)

  datatype Row = Row(sequence: nat, kind: Kind)

  datatype BriefStatus = Queued | Running | Succeeded | Failed

  datatype Brief = Brief(status: BriefStatus, inputVersion: nat, stale: bool)

  /** The incident's three counters. */
  datatype Counters = Counters(eventSequence: nat, dataRevision: nat, mapRevision: nat)

  /** One write transaction: `base` is the copy it loaded, `counters` that copy as the
      session has changed it. The two marks say whether this transaction has bumped. */
  datatype Tx = Tx(
    base: Counters,
    counters: Counters,
    rows: seq<Row>,
    briefs: seq<Brief>,
    dataMarked: bool,
    mapMarked: bool,
    completing: bool)

  datatype Store = Store(
    counters: Counters,
    outbox: seq<Row>,
    briefs: seq<Brief>,
    sessions: map<nat, Counters>,
    holder: Option<Tx>)

  function Begin(counters: Counters, briefs: seq<Brief>): Tx {
    Tx(counters, counters, [], briefs, false, false, false)
  }

  function MarkStale(briefs: seq<Brief>, ids: seq<nat>): (r: seq<Brief>)
    ensures |r| == |briefs|
    ensures forall b | 0 <= b < |briefs| :: r[b] == if b in ids then briefs[b].(stale := true) else briefs[b]
  {
    if ids == [] then briefs
    else
      var rest, b := MarkStale(briefs, ids[1..]), ids[0];
      if b < |briefs| then rest[b := briefs[b].(stale := true)] else rest
  }

  /** A brief the staleness query matches. */
  predicate Outdated(brief: Brief, dataRevision: nat) {
    brief.status == Succeeded && !brief.stale && brief.inputVersion != dataRevision
  }

  function DataAfter(tx: Tx, r: Resource): nat {
    tx.counters.dataRevision + if DataAffecting(r) && !tx.dataMarked then 1 else 0
  }

  /** The query runs without flushing, so it may return again a brief this transaction
      has already marked; it never misses one that is still unmarked. */
  predicate FoundBy(tx: Tx, committed: seq<Brief>, r: Resource, found: seq<nat>) {
    && |committed| <= |tx.briefs|
    && (forall i | 0 <= i < |found| ::
          found[i] < |committed| && Outdated(committed[found[i]], DataAfter(tx, r)))
    && (forall b | 0 <= b < |committed| && Outdated(committed[b], DataAfter(tx, r)) && !tx.briefs[b].stale :: b in found)
  }

  function StaleRows(first: nat, ids: seq<nat>): (r: seq<Row>)
    decreases |ids|
    ensures |r| == |ids| && forall i | 0 <= i < |ids| :: r[i] == Row(first + i, BriefStale(ids[i]))
  {
    if ids == [] then [] else [Row(first, BriefStale(ids[0]))] + StaleRows(first + 1, ids[1..])
  }

  /** The event's own row, and the bumps this transaction has not made yet. */
  function EmitMain(tx: Tx, r: Resource): Tx {
    var n := tx.counters.eventSequence + 1;
    var mapRevision := tx.counters.mapRevision + if MapAffecting(r) && !tx.mapMarked then 1 else 0;
    tx.(
      counters := Counters(n, DataAfter(tx, r), mapRevision),
      rows := tx.rows + [Row(n, Main(r))],
      dataMarked := tx.dataMarked || DataAffecting(r),
      mapMarked := tx.mapMarked || MapAffecting(r))
  }

  /** A row for every outdated brief found. */
  function EmitStale(tx: Tx, ids: seq<nat>): Tx {
    var n := tx.counters.eventSequence;
    tx.(
      counters := tx.counters.(eventSequence := n + |ids|),
      rows := tx.rows + StaleRows(n + 1, ids),
      briefs := MarkStale(tx.briefs, ids))
  }

  function EmitMap(tx: Tx): Tx {
    var n := tx.counters.eventSequence + 1;
    tx.(counters := tx.counters.(eventSequence := n), rows := tx.rows + [Row(n, MapInvalidated(tx.counters.mapRevision))])
  }

  /** One emit: the main row, a row for every brief found, and the map row if this is the
      transaction's first map-affecting event. */
  function Emit(tx: Tx, r: Resource, found: seq<nat>): Tx {
    var tx1 := EmitMain(tx, r);
    var tx2 := if DataAffecting(r) then EmitStale(tx1, found) else tx1;
    if MapAffecting(r) && !tx.mapMarked then EmitMap(tx2) else tx2
  }

  /** The model has answered: the brief succeeds, stale if the data moved meanwhile. */
  function Complete(tx: Tx, b: nat): Tx
    requires b < |tx.briefs|
  {
    var brief := tx.briefs[b];
    var stale := brief.stale || tx.counters.dataRevision != brief.inputVersion;
    Emit(tx.(briefs := tx.briefs[b := brief.(status := Succeeded, stale := stale)], completing := true), AiAnalysis, [])
  }

  /** Some pending row has the number of a committed one. */
  predicate Collides(outbox: seq<Row>, rows: seq<Row>) {
    exists i, j | 0 <= i < |outbox| && 0 <= j < |rows| :: outbox[i].sequence == rows[j].sequence
  }

  /** What a session does between taking the lock and committing. */
  datatype Action =
    | Refresh
    | EmitEvent(r: Resource, found: seq<nat>)
    | EnqueueBrief
    | StartBrief(b: nat)
    | CompleteBrief(b: nat)
    | FailBrief(b: nat)
    | RetryBrief(b: nat)

  datatype Op = Load(w: nat) | Acquire(w: nat) | Act(a: Action) | Commit | Abort

  predicate Allowed(s: Store, tx: Tx, a: Action) {
    match a
    case Refresh => tx.rows == []
    case EmitEvent(r, found) => FoundBy(tx, s.briefs, r, found) && !(tx.completing && DataAffecting(r))
    case EnqueueBrief => true
    case StartBrief(b) => b < |tx.briefs|
    case CompleteBrief(b) => b < |tx.briefs| && tx.rows == [] && tx.briefs[b].status == Running
    case FailBrief(b) => b < |tx.briefs|
    case RetryBrief(b) => b < |tx.briefs| && tx.briefs[b].status == Failed
  }

  function SetBrief(tx: Tx, b: nat, brief: Brief): Tx
    requires b < |tx.briefs|
  {
    tx.(briefs := tx.briefs[b := brief])
  }

  function Perform(s: Store, tx: Tx, a: Action): Tx
    requires Allowed(s, tx, a)
  {
    match a
    case Refresh => tx.(base := s.counters, counters := s.counters)
    case EmitEvent(r, found) => Emit(tx, r, found)
    case EnqueueBrief => tx.(briefs := tx.briefs + [Brief(Queued, tx.counters.dataRevision, false)])
    case StartBrief(b) => SetBrief(tx, b, tx.briefs[b].(status := Running))
    case CompleteBrief(b) => Complete(tx, b)
    case FailBrief(b) => SetBrief(tx, b, tx.briefs[b].(status := Failed))
    case RetryBrief(b) => SetBrief(tx, b, tx.briefs[b].(status := Queued, stale := false))
  }

  predicate Enabled(s: Store, op: Op) {
    match op
    case Load(_) => true
    case Acquire(w) => s.holder.None? && w in s.sessions
    case Act(a) => s.holder.Some? && Allowed(s, s.holder.value, a)
    case Commit => s.holder.Some?
    case Abort => s.holder.Some?
  }

  function Committed(s: Store): Store
    requires s.holder.Some?
  {
    var tx := s.holder.value;
    if tx.rows == [] then s.(briefs := tx.briefs, holder := None)
    else if Collides(s.outbox, tx.rows) then s.(holder := None)
    else s.(counters := tx.counters, outbox := s.outbox + tx.rows, briefs := tx.briefs, holder := None)
  }

  function Apply(s: Store, op: Op): Store
    requires Enabled(s, op)
  {
    match op
    case Load(w) => s.(sessions := s.sessions[w := s.counters])
    case Acquire(w) => s.(holder := Some(Begin(s.sessions[w], s.briefs)))
    case Commit => Committed(s)
    case Abort => s.(holder := None)
    case Act(a) => s.(holder := Some(Perform(s, s.holder.value, a)))
  }

  const INITIAL := Store(Counters(0, 0, 0), [], [], map[], None)

  ghost predicate Run(s: Store, ops: seq<Op>, last: Store)
    decreases |ops|
  {
    if ops == [] then s == last
    else Enabled(s, ops[0]) && Run(Apply(s, ops[0]), ops[1..], last)
  }

  // ---------------------------------------------------------------- what is claimed

  ghost predicate Numbered(rows: seq<Row>, base: nat) {
    forall i | 0 <= i < |rows| :: rows[i].sequence == base + 1 + i
  }

  ghost predicate Fresh(briefs: seq<Brief>, dataRevision: nat) {
    forall b | 0 <= b < |briefs| && briefs[b].status == Succeeded && !briefs[b].stale ::
      briefs[b].inputVersion == dataRevision
  }

  ghost predicate HasMain(rows: seq<Row>, p: Resource -> bool) {
    exists i | 0 <= i < |rows| :: rows[i].kind.Main? && p(rows[i].kind.resource)
  }

  /** A copy of the counters: out of date, or equal to what is committed. */
  predicate CopyOf(copy: Counters, committed: Counters) {
    copy == committed || copy.eventSequence < committed.eventSequence
  }

  // ---------------------------------------------------------------- invariant

  ghost predicate TxOk(s: Store, tx: Tx) {
    && CopyOf(tx.base, s.counters)
    && Numbered(tx.rows, tx.base.eventSequence)
    && tx.counters.eventSequence == tx.base.eventSequence + |tx.rows|
    && tx.counters.dataRevision == tx.base.dataRevision + (if tx.dataMarked then 1 else 0)
    && tx.counters.mapRevision == tx.base.mapRevision + (if tx.mapMarked then 1 else 0)
    && (tx.rows == [] ==> !tx.dataMarked && !tx.mapMarked && Fresh(tx.briefs, s.counters.dataRevision))
    && (tx.dataMarked <==> HasMain(tx.rows, DataAffecting))
    && (tx.mapMarked <==> HasMain(tx.rows, MapAffecting))
    && |s.briefs| <= |tx.briefs|
    && (!tx.completing ==> TouchedBriefs(s.briefs, tx.briefs))
    && (tx.base == s.counters ==> Fresh(tx.briefs, tx.counters.dataRevision))
  }

  /** Short of a completion, a transaction turns no brief into a fresh one. */
  ghost predicate TouchedBriefs(before: seq<Brief>, now: seq<Brief>) {
    forall b | 0 <= b < |now| && now[b].status == Succeeded && !now[b].stale ::
      b < |before| && now[b] == before[b]
  }

  ghost predicate Inv(s: Store) {
    && Numbered(s.outbox, 0)
    && s.counters.eventSequence == |s.outbox|
    && Fresh(s.briefs, s.counters.dataRevision)
    && (forall w | w in s.sessions :: CopyOf(s.sessions[w], s.counters))
    && (s.holder.Some? ==> TxOk(s, s.holder.value))
  }

  lemma EmitNumbers(tx: Tx, r: Resource, found: seq<nat>, base: nat)
    requires Numbered(tx.rows, base) && tx.counters.eventSequence == base + |tx.rows|
    ensures var tx' := Emit(tx, r, found);
            Numbered(tx'.rows, base) && tx'.counters.eventSequence == base + |tx'.rows| && tx'.rows != []
  {
    var tx1 := EmitMain(tx, r);
    assert Numbered(tx1.rows, base);
    var tx2 := if DataAffecting(r) then EmitStale(tx1, found) else tx1;
    assert Numbered(tx2.rows, base);
  }

  lemma EmitRevisions(tx: Tx, r: Resource, found: seq<nat>)
    ensures var tx' := Emit(tx, r, found);
            && tx'.base == tx.base && tx'.completing == tx.completing
            && tx'.dataMarked == (tx.dataMarked || DataAffecting(r)) && tx'.mapMarked == (tx.mapMarked || MapAffecting(r))
            && tx'.counters.dataRevision == tx.counters.dataRevision + (if DataAffecting(r) && !tx.dataMarked then 1 else 0)
            && tx'.counters.mapRevision == tx.counters.mapRevision + (if MapAffecting(r) && !tx.mapMarked then 1 else 0)
            && tx'.briefs == if DataAffecting(r) then MarkStale(tx.briefs, found) else tx.briefs
  {
  }

  lemma EmitBriefs(s: Store, tx: Tx, r: Resource, found: seq<nat>)
    requires TxOk(s, tx) && FoundBy(tx, s.briefs, r, found) && !(tx.completing && DataAffecting(r))
    ensures var tx' := Emit(tx, r, found);
            && |s.briefs| <= |tx'.briefs|
            && (!tx'.completing ==> TouchedBriefs(s.briefs, tx'.briefs))
            && (tx'.base == s.counters ==> Fresh(tx'.briefs, tx'.counters.dataRevision))
  {
    EmitRevisions(tx, r, found);
  }

  lemma EmitKeepsTx(s: Store, tx: Tx, r: Resource, found: seq<nat>)
    requires TxOk(s, tx) && FoundBy(tx, s.briefs, r, found) && !(tx.completing && DataAffecting(r))
    ensures TxOk(s, Emit(tx, r, found))
  {
    EmitNumbers(tx, r, found, tx.base.eventSequence);
    EmitRevisions(tx, r, found);
    EmitBriefs(s, tx, r, found);
    EmitKeepsMarks(tx, r, found, DataAffecting);
    EmitKeepsMarks(tx, r, found, MapAffecting);
  }

  lemma AppendKeepsMain(rows: seq<Row>, row: Row, p: Resource -> bool)
    ensures HasMain(rows + [row], p) <==> HasMain(rows, p) || (row.kind.Main? && p(row.kind.resource))
  {
    var all := rows + [row];
    assert all[|rows|] == row;
    assert forall i | 0 <= i < |rows| :: all[i] == rows[i];
  }

  lemma {:induction false} StaleRowsKeepMain(rows: seq<Row>, first: nat, ids: seq<nat>, p: Resource -> bool)
    ensures HasMain(rows + StaleRows(first, ids), p) <==> HasMain(rows, p)
  {
    var all := rows + StaleRows(first, ids);
    assert forall i | 0 <= i < |rows| :: all[i] == rows[i];
    assert forall i | |rows| <= i < |all| :: !all[i].kind.Main?;
  }

  /** The only main row an emit adds is its own. */
  lemma EmitKeepsMarks(tx: Tx, r: Resource, found: seq<nat>, p: Resource -> bool)
    ensures HasMain(Emit(tx, r, found).rows, p) <==> HasMain(tx.rows, p) || p(r)
  {
    var tx1 := EmitMain(tx, r);
    AppendKeepsMain(tx.rows, Row(tx1.counters.eventSequence, Main(r)), p);
    StaleRowsKeepMain(tx1.rows, tx1.counters.eventSequence + 1, found, p);
    var tx2 := if DataAffecting(r) then EmitStale(tx1, found) else tx1;
    AppendKeepsMain(tx2.rows, Row(tx2.counters.eventSequence + 1, MapInvalidated(tx2.counters.mapRevision)), p);
  }

  lemma PerformKeepsTx(s: Store, tx: Tx, a: Action)
    requires TxOk(s, tx) && Allowed(s, tx, a) && Fresh(s.briefs, s.counters.dataRevision)
    ensures TxOk(s, Perform(s, tx, a))
  {
    match a
    case EmitEvent(r, found) => EmitKeepsTx(s, tx, r, found);
    case CompleteBrief(b) => CompleteKeepsTx(s, tx, b);
    case StartBrief(b) => UnfinishedKeepsTx(s, tx, b, tx.briefs[b].(status := Running));
    case FailBrief(b) => UnfinishedKeepsTx(s, tx, b, tx.briefs[b].(status := Failed));
    case RetryBrief(b) => UnfinishedKeepsTx(s, tx, b, tx.briefs[b].(status := Queued, stale := false));
    case _ =>
  }

  /** A brief that has not succeeded is not a fresh one. */
  lemma UnfinishedKeepsTx(s: Store, tx: Tx, b: nat, brief: Brief)
    requires TxOk(s, tx) && b < |tx.briefs| && brief.status != Succeeded
    ensures TxOk(s, SetBrief(tx, b, brief))
  {
  }

  lemma CompleteKeepsTx(s: Store, tx: Tx, b: nat)
    requires TxOk(s, tx) && b < |tx.briefs| && tx.rows == []
    ensures TxOk(s, Complete(tx, b))
  {
    var brief := tx.briefs[b];
    var stale := brief.stale || tx.counters.dataRevision != brief.inputVersion;
    var tx1 := tx.(briefs := tx.briefs[b := brief.(status := Succeeded, stale := stale)], completing := true);
    var tx2 := Emit(tx1, AiAnalysis, []);
    assert tx2.briefs == tx1.briefs;
    EmitKeepsMarks(tx1, AiAnalysis, [], DataAffecting);
    EmitKeepsMarks(tx1, AiAnalysis, [], MapAffecting);
    assert !HasMain(tx1.rows, DataAffecting) && !HasMain(tx1.rows, MapAffecting);
  }

  /** A writer's rows collide exactly when its copy of the incident was out of date. */
  lemma StaleWriterAborts(s: Store, tx: Tx)
    requires Numbered(s.outbox, 0) && s.counters.eventSequence == |s.outbox|
    requires CopyOf(tx.base, s.counters) && Numbered(tx.rows, tx.base.eventSequence) && tx.rows != []
    ensures Collides(s.outbox, tx.rows) <==> tx.base != s.counters
  {
    if tx.base != s.counters {
      assert s.outbox[tx.base.eventSequence].sequence == tx.rows[0].sequence;
    }
  }

  lemma CommitKeepsInv(s: Store)
    requires Inv(s) && s.holder.Some?
    ensures Inv(Committed(s))
  {
    var tx := s.holder.value;
    if tx.rows != [] {
      StaleWriterAborts(s, tx);
    }
  }

  lemma {:induction false} RunKeepsInv(s: Store, ops: seq<Op>, last: Store)
    requires Inv(s) && Run(s, ops, last)
    ensures Inv(last)
    decreases |ops|
  {
    if ops != [] {
      match ops[0] {
        case Act(a) => PerformKeepsTx(s, s.holder.value, a);
        case Commit => CommitKeepsInv(s);
        case _ =>
      }
      RunKeepsInv(Apply(s, ops[0]), ops[1..], last);
    }
  }

  // ---------------------------------------------------------------- theorems

  /** Whatever interleaving of stale loads, emits, commits and aborts: the committed
      sequences are exactly 1, 2, ..., event_sequence. */
  lemma GapFreeNumbering(ops: seq<Op>, s: Store, n: nat)
    requires Run(INITIAL, ops, s)
    ensures |s.outbox| == s.counters.eventSequence
    ensures forall i | 0 <= i < |s.outbox| :: s.outbox[i].sequence == i + 1
    ensures 1 <= n <= s.counters.eventSequence <==> exists i :: 0 <= i < |s.outbox| && s.outbox[i].sequence == n
  {
    RunKeepsInv(INITIAL, ops, s);
    if 1 <= n <= |s.outbox| {
      assert s.outbox[n - 1].sequence == n;
    }
  }

  /** A brief shown as current describes the data as it is now. */
  lemma BriefsAreCurrent(ops: seq<Op>, s: Store, b: nat)
    requires Run(INITIAL, ops, s)
    requires b < |s.briefs| && s.briefs[b].status == Succeeded && !s.briefs[b].stale
    ensures s.briefs[b].inputVersion == s.counters.dataRevision
  {
    RunKeepsInv(INITIAL, ops, s);
  }

  /** A commit that lands appends its rows, and moves the data revision by one exactly
      when one of its events touches data, the map revision by one exactly when one
      touches the map. One that collides changes nothing. */
  lemma CommitCounts(ops: seq<Op>, s: Store)
    requires Run(INITIAL, ops, s) && s.holder.Some? && s.holder.value.rows != []
    ensures var tx, s' := s.holder.value, Apply(s, Commit);
            if tx.base != s.counters then s' == s.(holder := None)
            else
              && s'.outbox == s.outbox + tx.rows
              && s'.counters.dataRevision == s.counters.dataRevision + (if HasMain(tx.rows, DataAffecting) then 1 else 0)
              && s'.counters.mapRevision == s.counters.mapRevision + (if HasMain(tx.rows, MapAffecting) then 1 else 0)
  {
    RunKeepsInv(INITIAL, ops, s);
    StaleWriterAborts(s, s.holder.value);
  }

  // ---------------------------------------------------------------- the life of a brief

  /** A transaction begins with the loaded counters, the committed briefs, no row and no mark. */
  lemma TransactionBegins(s: Store, w: nat)
    requires Enabled(s, Acquire(w))
    ensures var tx := Apply(s, Acquire(w)).holder.value;
            && tx.base == tx.counters == s.sessions[w] && tx.rows == [] && tx.briefs == s.briefs
            && !tx.dataMarked && !tx.mapMarked && !tx.completing
  {
  }

  /** A brief is completed only while it is running: it has succeeded then, stale exactly if
      it was before or the data has moved since it was enqueued, and one row says so. */
  lemma CompletionIs(s: Store, b: nat, other: nat)
    requires s.holder.Some? && Enabled(s, Act(CompleteBrief(b))) && other < |s.holder.value.briefs|
    ensures var tx, tx' := s.holder.value, Apply(s, Act(CompleteBrief(b))).holder.value;
            && tx.briefs[b].status == Running && |tx'.briefs| == |tx.briefs|
            && tx'.briefs[b].status == Succeeded && tx'.briefs[b].inputVersion == tx.briefs[b].inputVersion
            && (tx'.briefs[b].stale <==> tx.briefs[b].stale || tx.counters.dataRevision != tx.briefs[b].inputVersion)
            && (other != b ==> tx'.briefs[other] == tx.briefs[other])
            && tx'.rows == [Row(tx.counters.eventSequence + 1, Main(AiAnalysis))]
            && tx'.counters.dataRevision == tx.counters.dataRevision && tx'.counters.mapRevision == tx.counters.mapRevision
  {
  }

  /** A new brief is queued for the present data; only a failed one is queued again, and no
      longer counts as stale. */
  lemma QueueingIs(s: Store, b: nat)
    requires s.holder.Some?
    ensures var tx := s.holder.value;
            Apply(s, Act(EnqueueBrief)).holder == Some(tx.(briefs := tx.briefs + [Brief(Queued, tx.counters.dataRevision, false)]))
    ensures Enabled(s, Act(RetryBrief(b))) <==> b < |s.holder.value.briefs| && s.holder.value.briefs[b].status == Failed
    ensures Enabled(s, Act(RetryBrief(b))) ==>
              var tx := s.holder.value;
              Apply(s, Act(RetryBrief(b))).holder
              == Some(tx.(briefs := tx.briefs[b := Brief(Queued, tx.briefs[b].inputVersion, false)]))
  {
  }

  /** A transaction ends with its commit or its abort. What lands are its briefs, its
      counters and its rows; without rows, its briefs alone; an abort leaves all as it was. */
  lemma TransactionEnds(ops: seq<Op>, s: Store)
    requires Run(INITIAL, ops, s) && s.holder.Some?
    ensures var tx, s' := s.holder.value, Apply(s, Commit);
            && s'.holder.None? && s'.sessions == s.sessions
            && (tx.rows == [] ==> s' == s.(briefs := tx.briefs, holder := None))
            && (tx.rows != [] && tx.base == s.counters ==>
                  s' == Store(tx.counters, s.outbox + tx.rows, tx.briefs, s.sessions, None))
            && (tx.rows != [] && tx.base != s.counters ==> s' == s.(holder := None))
    ensures Apply(s, Abort) == s.(holder := None)
  {
    RunKeepsInv(INITIAL, ops, s);
    if s.holder.value.rows != [] {
      StaleWriterAborts(s, s.holder.value);
    }
  }

  // ---------------------------------------------------------------- the rows that follow

  /** The map revisions announced, in order. */
  function Announced(rows: seq<Row>): (r: seq<nat>)
    ensures |r| <= |rows|
  {
    if rows == [] then []
    else
      var before, last := Announced(rows[..|rows| - 1]), rows[|rows| - 1];
      if last.kind.MapInvalidated? then before + [last.kind.mapRevision] else before
  }

  lemma AnnouncedNext(rows: seq<Row>, row: Row)
    ensures Announced(rows + [row]) == Announced(rows) + if row.kind.MapInvalidated? then [row.kind.mapRevision] else []
  {
    assert (rows + [row])[..|rows|] == rows;
  }

  lemma {:induction false} AnnouncedConcat(a: seq<Row>, b: seq<Row>)
    ensures Announced(a + b) == Announced(a) + Announced(b)
  {
    if b == [] {
      assert a + b == a;
    } else {
      var n := |b| - 1;
      assert a + b == (a + b[..n]) + [b[n]];
      AnnouncedConcat(a, b[..n]);
      AnnouncedNext(a + b[..n], b[n]);
    }
  }

  lemma {:induction false} NothingAnnounced(rows: seq<Row>)
    requires forall i | 0 <= i < |rows| :: !rows[i].kind.MapInvalidated?
    ensures Announced(rows) == []
  {
    if rows != [] {
      NothingAnnounced(rows[..|rows| - 1]);
    }
  }

  /** Some main row is of a resource the map shows. */
  predicate TouchesMap(rows: seq<Row>) {
    exists i | 0 <= i < |rows| ::
      rows[i].kind.Main? && rows[i].kind.resource in {Report, BlindSpot, Fact, Conflict, Fragment}
  }

  lemma TouchesMapIsHasMain(rows: seq<Row>)
    ensures TouchesMap(rows) <==> HasMain(rows, MapAffecting)
  {
    if i :| 0 <= i < |rows| && rows[i].kind.Main? && MapAffecting(rows[i].kind.resource) {
      assert rows[i].kind.resource in {Report, BlindSpot, Fact, Conflict, Fragment};
    }
  }

  lemma EmitAnnounces(tx: Tx, r: Resource, found: seq<nat>)
    ensures Announced(Emit(tx, r, found).rows)
            == Announced(tx.rows) + if MapAffecting(r) && !tx.mapMarked then [tx.counters.mapRevision + 1] else []
  {
    var tx1 := EmitMain(tx, r);
    var tx2 := if DataAffecting(r) then EmitStale(tx1, found) else tx1;
    AnnouncedNext(tx.rows, Row(tx.counters.eventSequence + 1, Main(r)));
    NothingAnnounced(StaleRows(tx1.counters.eventSequence + 1, found));
    AnnouncedConcat(tx1.rows, StaleRows(tx1.counters.eventSequence + 1, found));
    AnnouncedNext(tx2.rows, Row(tx2.counters.eventSequence + 1, MapInvalidated(tx2.counters.mapRevision)));
  }

  /** The transaction has announced the map revision it will leave, once, if it moved it. */
  ghost predicate Announces(tx: Tx) {
    && tx.counters.mapRevision == tx.base.mapRevision + (if tx.mapMarked then 1 else 0)
    && Announced(tx.rows) == if tx.mapMarked then [tx.counters.mapRevision] else []
  }

  /** Every map revision has been announced, in order. */
  ghost predicate AllAnnounced(s: Store) {
    && |Announced(s.outbox)| == s.counters.mapRevision
    && (forall i | 0 <= i < |Announced(s.outbox)| :: Announced(s.outbox)[i] == i + 1)
    && (s.holder.Some? ==> Announces(s.holder.value))
  }

  lemma PerformAnnounces(s: Store, tx: Tx, a: Action)
    requires Announces(tx) && Allowed(s, tx, a) && (tx.rows == [] ==> !tx.mapMarked)
    ensures Announces(Perform(s, tx, a))
  {
    match a
    case EmitEvent(r, found) => EmitKeepsAnnounced(tx, r, found);
    case CompleteBrief(b) => CompleteKeepsAnnounced(tx, b);
    case _ =>
  }

  lemma EmitKeepsAnnounced(tx: Tx, r: Resource, found: seq<nat>)
    requires Announces(tx)
    ensures Announces(Emit(tx, r, found))
  {
    EmitRevisions(tx, r, found);
    EmitAnnounces(tx, r, found);
  }

  lemma CompleteKeepsAnnounced(tx: Tx, b: nat)
    requires Announces(tx) && b < |tx.briefs|
    ensures Announces(Complete(tx, b))
  {
    var brief := tx.briefs[b];
    var stale := brief.stale || tx.counters.dataRevision != brief.inputVersion;
    EmitKeepsAnnounced(tx.(briefs := tx.briefs[b := brief.(status := Succeeded, stale := stale)], completing := true), AiAnalysis, []);
  }

  lemma CommitAnnounces(s: Store)
    requires Inv(s) && AllAnnounced(s) && s.holder.Some?
    ensures AllAnnounced(Committed(s))
  {
    var tx := s.holder.value;
    if tx.rows != [] {
      StaleWriterAborts(s, tx);
      AnnouncedConcat(s.outbox, tx.rows);
    }
  }

  lemma {:induction false} RunAnnounces(s: Store, ops: seq<Op>, last: Store)
    requires Inv(s) && AllAnnounced(s) && Run(s, ops, last)
    ensures AllAnnounced(last)
    decreases |ops|
  {
    if ops != [] {
      match ops[0] {
        case Act(a) => PerformAnnounces(s, s.holder.value, a);
        case Commit => CommitAnnounces(s);
        case _ =>
      }
      RunKeepsInv(s, ops[..1], Apply(s, ops[0])) by {
        assert ops[..1][1..] == [];
      }
      RunAnnounces(Apply(s, ops[0]), ops[1..], last);
    }
  }

  /** In every run the map invalidations committed are those of revisions 1, 2, ... up to the
      incident's, each once and in order. */
  lemma EveryMapRevisionAnnounced(ops: seq<Op>, s: Store)
    requires Run(INITIAL, ops, s)
    ensures |Announced(s.outbox)| == s.counters.mapRevision
    ensures forall i | 0 <= i < |Announced(s.outbox)| :: Announced(s.outbox)[i] == i + 1
  {
    RunAnnounces(INITIAL, ops, s);
  }

  /** A commit that lands brings one map invalidation if one of its events is of a resource
      the map shows, with the map revision it leaves, and none otherwise. */
  lemma CommitAnnouncesMap(ops: seq<Op>, s: Store)
    requires Run(INITIAL, ops, s) && s.holder.Some? && s.holder.value.rows != [] && s.holder.value.base == s.counters
    ensures Apply(s, Commit).outbox == s.outbox + s.holder.value.rows
    ensures Announced(s.holder.value.rows) == if TouchesMap(s.holder.value.rows) then [Apply(s, Commit).counters.mapRevision] else []
  {
    RunKeepsInv(INITIAL, ops, s);
    RunAnnounces(INITIAL, ops, s);
    StaleWriterAborts(s, s.holder.value);
    TouchesMapIsHasMain(s.holder.value.rows);
  }

  /** The rows tell that brief `b` has gone stale. */
  predicate TellsStale(rows: seq<Row>, b: nat) {
    exists i | 0 <= i < |rows| :: rows[i].kind == BriefStale(b)
  }

  /** An emit tells of exactly the briefs its query found, each of which is stale then; what
      it turns stale is among them. */
  lemma EmitTellsStale(tx: Tx, r: Resource, found: seq<nat>, b: nat)
    requires forall i | 0 <= i < |found| :: found[i] < |tx.briefs|
    ensures var tx' := Emit(tx, r, found);
            && TellsStale(tx'.rows, b) == (TellsStale(tx.rows, b) || (r != AiAnalysis && b in found))
            && |tx'.briefs| == |tx.briefs|
            && (b < |tx.briefs| ==> tx'.briefs[b] == tx.briefs[b].(stale := tx.briefs[b].stale || (r != AiAnalysis && b in found)))
  {
    var tx1 := EmitMain(tx, r);
    var tx2 := if DataAffecting(r) then EmitStale(tx1, found) else tx1;
    TellsAppend(tx.rows, [Row(tx.counters.eventSequence + 1, Main(r))], b);
    var first := tx1.counters.eventSequence + 1;
    TellsAppend(tx1.rows, StaleRows(first, found), b);
    assert TellsStale(StaleRows(first, found), b) <==> b in found by {
      if i :| 0 <= i < |found| && found[i] == b {
        assert StaleRows(first, found)[i].kind == BriefStale(b);
      }
    }
    TellsAppend(tx2.rows, [Row(tx2.counters.eventSequence + 1, MapInvalidated(tx2.counters.mapRevision))], b);
  }

  lemma TellsAppend(a: seq<Row>, b: seq<Row>, brief: nat)
    ensures TellsStale(a + b, brief) <==> TellsStale(a, brief) || TellsStale(b, brief)
  {
    var all := a + b;
    if i :| 0 <= i < |a| && a[i].kind == BriefStale(brief) {
      assert all[i].kind == BriefStale(brief);
    }
    if i :| 0 <= i < |b| && b[i].kind == BriefStale(brief) {
      assert all[|a| + i].kind == BriefStale(brief);
    }
  }

  /** Short of a completion, every brief the transaction has turned stale is told of. */
  ghost predicate StaleIsTold(s: Store, tx: Tx) {
    && |s.briefs| <= |tx.briefs|
    && (!tx.completing ==>
          forall b: nat {:trigger TellsStale(tx.rows, b)} |
            b < |tx.briefs| && tx.briefs[b].stale && (b < |s.briefs| ==> !s.briefs[b].stale) :: TellsStale(tx.rows, b))
  }

  lemma PerformTells(s: Store, tx: Tx, a: Action)
    requires StaleIsTold(s, tx) && Allowed(s, tx, a)
    ensures StaleIsTold(s, Perform(s, tx, a))
  {
    var tx' := Perform(s, tx, a);
    if a.EmitEvent? && !tx.completing {
      forall b: nat | b < |tx'.briefs| && tx'.briefs[b].stale && (b < |s.briefs| ==> !s.briefs[b].stale)
        ensures TellsStale(tx'.rows, b)
      {
        EmitTellsStale(tx, a.r, a.found, b);
      }
    }
  }

  lemma {:induction false} RunTells(s: Store, ops: seq<Op>, last: Store)
    requires Run(s, ops, last) && (s.holder.Some? ==> StaleIsTold(s, s.holder.value))
    ensures last.holder.Some? ==> StaleIsTold(last, last.holder.value)
    decreases |ops|
  {
    if ops != [] {
      if ops[0].Act? {
        PerformTells(s, s.holder.value, ops[0].a);
      }
      RunTells(Apply(s, ops[0]), ops[1..], last);
    }
  }

  /** Of every brief that a landing commit turns stale, other than by completing it, the
      outbox tells. */
  lemma CommitTellsStale(ops: seq<Op>, s: Store, b: nat)
    requires Run(INITIAL, ops, s) && s.holder.Some? && !s.holder.value.completing && b < |s.briefs| && !s.briefs[b].stale
    requires b < |Apply(s, Commit).briefs| && Apply(s, Commit).briefs[b].stale
    ensures TellsStale(Apply(s, Commit).outbox, b) && TellsStale(s.holder.value.rows, b)
  {
    RunTells(INITIAL, ops, s);
    var tx := s.holder.value;
    assert Apply(s, Commit).briefs == tx.briefs;
    assert TellsStale(tx.rows, b);
    TellsAppend(s.outbox, tx.rows, b);
    assert tx.rows != [];
  }

  // ---------------------------------------------------------------- the emitting session

  /** The session's own copies, changed in place by one emit after another. */
  class EventSession {
    var base: Counters
    var eventSequence: nat
    var dataRevision: nat
    var mapRevision: nat
    var rows: seq<Row>
    var briefs: seq<Brief>
    var dataMarked: bool
    var mapMarked: bool
    var completing: bool

    function View(): Tx
      reads this
    {
      Tx(base, Counters(eventSequence, dataRevision, mapRevision), rows, briefs, dataMarked, mapMarked, completing)
    }

    constructor (counters: Counters, briefs: seq<Brief>)
      ensures View() == Begin(counters, briefs)
    {
      base := counters;
      eventSequence, dataRevision, mapRevision := counters.eventSequence, counters.dataRevision, counters.mapRevision;
      this.briefs := briefs;
      rows, dataMarked, mapMarked, completing := [], false, false, false;
    }

    /** The loop over the briefs the staleness query returned. */
    method MarkBriefsStale(found: seq<nat>)
      requires forall i | 0 <= i < |found| :: found[i] < |briefs|
      modifies `eventSequence, `rows, `briefs
      ensures eventSequence == old(eventSequence) + |found|
      ensures rows == old(rows) + StaleRows(old(eventSequence) + 1, found)
      ensures briefs == MarkStale(old(briefs), found)
    {
      for i := 0 to |found|
        invariant eventSequence == old(eventSequence) + i
        invariant |rows| == |old(rows)| + i && |briefs| == |old(briefs)|
        invariant forall j {:trigger rows[j]} | 0 <= j < |rows| ::
                    rows[j] == if j < |old(rows)| then old(rows)[j]
                               else Row(old(eventSequence) + 1 + j - |old(rows)|, BriefStale(found[j - |old(rows)|]))
        invariant forall b {:trigger briefs[b]} | 0 <= b < |briefs| ::
                    briefs[b] == if b in found[..i] then old(briefs)[b].(stale := true) else old(briefs)[b]
      {
        assert found[..i + 1] == found[..i] + [found[i]];
        briefs := briefs[found[i] := briefs[found[i]].(stale := true)];
        eventSequence := eventSequence + 1;
        rows := rows + [Row(eventSequence, BriefStale(found[i]))];
      }
      assert found[..|found|] == found;
    }

    method BumpData(r: Resource)
      modifies `dataRevision, `dataMarked
      ensures dataRevision == DataAfter(old(View()), r)
      ensures dataMarked == (old(dataMarked) || DataAffecting(r))
    {
      if DataAffecting(r) && !dataMarked {
        dataRevision, dataMarked := dataRevision + 1, true;
      }
    }

    method BumpMap(r: Resource) returns (bumped: bool)
      modifies `mapRevision, `mapMarked
      ensures bumped <==> MapAffecting(r) && !old(mapMarked)
      ensures mapRevision == old(mapRevision) + (if bumped then 1 else 0)
      ensures mapMarked == (old(mapMarked) || MapAffecting(r))
    {
      bumped := MapAffecting(r) && !mapMarked;
      if bumped {
        mapRevision, mapMarked := mapRevision + 1, true;
      }
    }

    /** The event's own row and the two revision bumps, each once per transaction. */
    method AddMainRow(r: Resource) returns (mapBumped: bool)
      modifies this
      ensures View() == EmitMain(old(View()), r)
      ensures mapBumped <==> MapAffecting(r) && !old(mapMarked)
    {
      eventSequence := eventSequence + 1;
      BumpData(r);
      mapBumped := BumpMap(r);
      rows := rows + [Row(eventSequence, Main(r))];
    }

    method AddMapRow()
      modifies this
      ensures View() == EmitMap(old(View()))
    {
      eventSequence := eventSequence + 1;
      rows := rows + [Row(eventSequence, MapInvalidated(mapRevision))];
    }

    /** `found` is what the staleness query returns. */
    method EmitEvent(r: Resource, found: seq<nat>)
      requires forall i | 0 <= i < |found| :: found[i] < |briefs|
      modifies this
      ensures View() == Emit(old(View()), r, found)
    {
      var mapBumped := AddMainRow(r);
      if DataAffecting(r) {
        ghost var main := View();
        MarkBriefsStale(found);
        assert View() == EmitStale(main, found);
      }
      if mapBumped {
        AddMapRow();
      }
    }
  }
}
