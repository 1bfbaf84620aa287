/** The hand-off from the outbox to a websocket client: the hub, the publisher's batch, and
    one connection's register / snapshot / replay / drain / send path. */
module Realtime {
  import opened Options

  // An envelope is named by its sequence: row `k` of `log` has sequence `k + 1` (module
  // Events proves that numbering).

  datatype Role = Resident | Operator | Admin

  datatype Visibility = Public | Owner | Operators

  datatype Geometry = Geometry(regionCodes: set<string>, spatial: bool)

  datatype Actor = Actor(role: Role, subjectId: string, region: Option<string>)

  datatype Envelope = Envelope(
    isQuestion: bool,
    geometry: Option<Geometry>,
    visibility: Visibility,
    ownerDevice: Option<string>,
    occurredAt: int)

  /** Which envelopes an actor may see. A question aimed at a place is never pushed
      to a resident; one aimed at regions only to residents of those regions. */
  predicate EventVisible(actor: Actor, e: Envelope) {
    if actor.role != Resident then true
    else if e.isQuestion && e.geometry.Some? && e.geometry.value.regionCodes != {}
            && (actor.region == None || actor.region.value !in e.geometry.value.regionCodes) then false
    else if e.isQuestion && e.geometry.Some? && e.geometry.value.spatial then false
    else e.visibility == Public || e.ownerDevice == Some(actor.subjectId)
  }

  // ---------------------------------------------------------------- state

  datatype Phase = Registered | Counted | Checked | Replaying | Draining | Sending | Closed

  /** `joined` records how long the log was at registration; only the proofs read it. */
  datatype Conn = Conn(
    actor: Actor,
    lastSequence: Option<nat>,
    capacity: nat,
    joined: nat,
    phase: Phase,
    cutoff: int,
    latest: nat,
    cursor: nat,
    due: seq<nat>,
    queue: seq<nat>,
    sent: seq<nat>)

  /** `published` rows are marked; `batchEnd` is the last row the publisher has read;
      `call` holds the targets a running publish has not reached yet. */
  datatype Hub = Hub(
    log: seq<Envelope>,
    published: nat,
    batchEnd: nat,
    call: Option<seq<nat>>,
    conns: map<nat, Conn>,
    members: set<nat>)

  predicate Visible(log: seq<Envelope>, actor: Actor, x: nat) {
    1 <= x <= |log| && EventVisible(actor, log[x - 1])
  }

  /** Outcome of offering an envelope to one bounded queue. */
  datatype Offer<T> = Skipped | Enqueued(queue: seq<T>) | Full

  function OfferTo<T>(queue: seq<T>, capacity: nat, wanted: bool, item: T): Offer<T> {
    if !wanted then Skipped
    else if |queue| < capacity then Enqueued(queue + [item])
    else Full
  }

  predicate Recent(log: seq<Envelope>, cutoff: int, x: nat) {
    1 <= x <= |log| && log[x - 1].occurredAt >= cutoff
  }

  /** The least sequence inside the replay window. */
  function OldestSince(log: seq<Envelope>, cutoff: int): (r: Option<nat>)
    ensures r.None? ==> forall x :: !Recent(log, cutoff, x)
    ensures r.Some? ==> Recent(log, cutoff, r.value)
    ensures r.Some? ==> forall x :: Recent(log, cutoff, x) ==> r.value <= x
  {
    if log == [] then None
    else
      var n := |log|;
      var before := OldestSince(log[..n - 1], cutoff);
      assert forall x: nat :: x < n ==> (Recent(log, cutoff, x) <==> Recent(log[..n - 1], cutoff, x));
      if before.Some? then before
      else if log[n - 1].occurredAt >= cutoff then Some(n)
      else None
  }

  /** The replay query: visible rows of (lo, hi] inside the window, in order. */
  function ReplayRows(log: seq<Envelope>, actor: Actor, cutoff: int, lo: nat, hi: nat): (r: seq<nat>)
    ensures forall x :: x in r <==> lo < x <= hi && Visible(log, actor, x) && Recent(log, cutoff, x)
    ensures forall i, j | 0 <= i < j < |r| :: r[i] < r[j]
    decreases hi
  {
    if hi <= lo then []
    else
      var before := ReplayRows(log, actor, cutoff, lo, hi - 1);
      assert forall i | 0 <= i < |before| :: before[i] in before;
      if Visible(log, actor, hi) && Recent(log, cutoff, hi) then before + [hi] else before
  }

  predicate NeedsReplay(k: Conn) {
    k.lastSequence.Some? && k.cursor < k.latest
  }

  predicate WindowExceeded(log: seq<Envelope>, k: Conn) {
    NeedsReplay(k) &&
    var oldest := OldestSince(log, k.cutoff);
    oldest.None? || k.cursor + 1 < oldest.value
  }

  // ---------------------------------------------------------------- steps

  datatype Op =
    | Commit(e: Envelope)
    | ReadBatch(hi: nat)
    | StartPublish(targets: seq<nat>)
    | OfferNext
    | FinishPublish
    | FailPublish
    | Register(c: nat, actor: Actor, lastSequence: Option<nat>, capacity: nat)
    | ReadLatest(c: nat, cutoff: int)
    | CheckWindow(c: nat)
    | QueryReplay(c: nat)
    | ReplayNext(c: nat)
    | ReplayDone(c: nat)
    | DrainNext(c: nat)
    | DrainDone(c: nat)
    | SendNext(c: nat)
    | Disconnect(c: nat)

  predicate AllApart(targets: seq<nat>) {
    forall i, j | 0 <= i < j < |targets| :: targets[i] != targets[j]
  }

  predicate InPhase(h: Hub, c: nat, phase: Phase) {
    c in h.conns && h.conns[c].phase == phase
  }

  /** The only assumption is in Commit: the clock that stamps rows does not step back. */
  predicate Enabled(h: Hub, op: Op) {
    match op
    case Commit(e) => h.log != [] ==> h.log[|h.log| - 1].occurredAt <= e.occurredAt
    case ReadBatch(hi) => h.call.None? && h.batchEnd <= h.published && h.published <= hi <= |h.log|
    case StartPublish(targets) =>
      h.call.None? && h.published < h.batchEnd && (set c | c in targets) == h.members && AllApart(targets)
    case OfferNext => h.call.Some? && h.call.value != [] && h.call.value[0] in h.conns
    case FinishPublish => h.call == Some([])
    case FailPublish => true
    case Register(c, _, _, _) => c !in h.conns
    case ReadLatest(c, _) => InPhase(h, c, Registered)
    case CheckWindow(c) => InPhase(h, c, Counted)
    case QueryReplay(c) => InPhase(h, c, Checked)
    case ReplayNext(c) => InPhase(h, c, Replaying) && h.conns[c].due != []
    case ReplayDone(c) => InPhase(h, c, Replaying) && h.conns[c].due == []
    case DrainNext(c) => InPhase(h, c, Draining) && h.conns[c].queue != []
    case DrainDone(c) => InPhase(h, c, Draining) && h.conns[c].queue == []
    case SendNext(c) => InPhase(h, c, Sending) && h.conns[c].queue != []
    case Disconnect(c) => c in h.conns
  }

  function Close(h: Hub, c: nat): Hub
    requires c in h.conns
  {
    h.(conns := h.conns[c := h.conns[c].(phase := Closed)], members := h.members - {c})
  }

  function With(h: Hub, c: nat, k: Conn): Hub {
    h.(conns := h.conns[c := k])
  }

  function OfferStep(h: Hub): Hub
    requires Enabled(h, OfferNext)
  {
    var c := h.call.value[0];
    var k := h.conns[c];
    var x := h.published + 1;
    var h1 := h.(call := Some(h.call.value[1..]));
    match OfferTo(k.queue, k.capacity, Visible(h.log, k.actor, x), x)
    case Skipped => h1
    case Enqueued(queue) => With(h1, c, k.(queue := queue))
    case Full => Close(h1, c)
  }

  /** What one step of the websocket handler does to its own connection. */
  function Advance(log: seq<Envelope>, k: Conn, op: Op): Conn
    requires op.ReplayNext? ==> k.due != []
    requires op.DrainNext? || op.SendNext? ==> k.queue != []
  {
    match op
    case ReadLatest(_, cutoff) =>
      k.(phase := Counted, cutoff := cutoff, latest := |log|, cursor := k.lastSequence.GetOr(|log|))
    case QueryReplay(_) =>
      k.(phase := Replaying,
         due := if NeedsReplay(k) then ReplayRows(log, k.actor, k.cutoff, k.cursor, k.latest) else [])
    case ReplayNext(_) => k.(due := k.due[1..], sent := k.sent + [k.due[0]])
    case ReplayDone(_) => k.(phase := Draining)
    case DrainNext(_) =>
      k.(queue := k.queue[1..], sent := if k.queue[0] > k.latest then k.sent + [k.queue[0]] else k.sent)
    case DrainDone(_) => k.(phase := Sending)
    case SendNext(_) => k.(queue := k.queue[1..], sent := k.sent + [k.queue[0]])
    case _ => k
  }

  function Apply(h: Hub, op: Op): Hub
    requires Enabled(h, op)
  {
    match op
    case Commit(e) => h.(log := h.log + [e])
    case ReadBatch(hi) => h.(batchEnd := hi)
    case StartPublish(targets) => h.(call := Some(targets))
    case OfferNext => OfferStep(h)
    case FinishPublish => h.(published := h.published + 1, call := None)
    case FailPublish => h.(batchEnd := h.published, call := None)
    case Register(c, actor, last, capacity) =>
      h.(conns := h.conns[c := Conn(actor, last, capacity, |h.log|, Registered, 0, 0, 0, [], [], [])],
         members := h.members + {c})
    case CheckWindow(c) =>
      if WindowExceeded(h.log, h.conns[c]) then Close(h, c)
      else With(h, c, h.conns[c].(phase := Checked))
    case Disconnect(c) => Close(h, c)
    case ReadLatest(c, _) => With(h, c, Advance(h.log, h.conns[c], op))
    case QueryReplay(c) => With(h, c, Advance(h.log, h.conns[c], op))
    case ReplayNext(c) => With(h, c, Advance(h.log, h.conns[c], op))
    case ReplayDone(c) => With(h, c, Advance(h.log, h.conns[c], op))
    case DrainNext(c) => With(h, c, Advance(h.log, h.conns[c], op))
    case DrainDone(c) => With(h, c, Advance(h.log, h.conns[c], op))
    case SendNext(c) => With(h, c, Advance(h.log, h.conns[c], op))
  }

  const INITIAL := Hub([], 0, 0, None, map[], {})

  ghost predicate Run(h: Hub, ops: seq<Op>, last: Hub)
    decreases |ops|
  {
    if ops == [] then h == last
    else Enabled(h, ops[0]) && Run(Apply(h, ops[0]), ops[1..], last)
  }

  // ---------------------------------------------------------------- what is claimed

  /** Above the client's cursor, an envelope is a repeat or newer than all before it. */
  ghost predicate FirstDeliveriesInOrder(sent: seq<nat>, cursor: nat) {
    forall i, j | 0 <= i < j < |sent| && sent[j] > cursor && sent[j] !in sent[..j] :: sent[i] < sent[j]
  }

  /** Nothing visible above the cursor was skipped before a delivered envelope. */
  ghost predicate NothingSkipped(log: seq<Envelope>, k: Conn) {
    forall x, y | x in k.sent && k.cursor < y < x && Visible(log, k.actor, y) :: y in k.sent
  }

  predicate SnapshotTaken(k: Conn) {
    k.phase !in {Registered, Closed}
  }

  /** Still owed by the replay. */
  predicate Due(k: Conn, x: nat) {
    if k.phase == Counted || k.phase == Checked then k.cursor < x <= k.latest else x in k.due
  }

  ghost predicate NoGap(h: Hub, k: Conn) {
    forall x | k.cursor < x && (x <= k.latest || x <= h.published) && Visible(h.log, k.actor, x) ::
      x in k.sent || x in k.queue || Due(k, x)
  }

  // ---------------------------------------------------------------- invariant

  function Floor(k: Conn): nat {
    if k.phase == Registered then k.joined else k.latest
  }

  /** Rows offered so far to connection `c`: the running publish counts once it passed `c`. */
  function Reached(h: Hub, c: nat): nat {
    if h.call.Some? && c !in h.call.value then h.published + 1 else h.published
  }

  ghost predicate Window(log: seq<Envelope>) {
    forall i, j | 0 <= i < j < |log| :: log[i].occurredAt <= log[j].occurredAt
  }

  ghost predicate QueueOk(log: seq<Envelope>, published: nat, reached: nat, k: Conn) {
    && (forall x | x in k.queue :: x <= published + 1 && Visible(log, k.actor, x))
    && (forall i, j | 0 <= i < j < |k.queue| :: k.queue[i] <= k.queue[j])
    && (forall x | Floor(k) < x <= reached && Visible(log, k.actor, x) :: x in k.queue || x in k.sent)
  }

  ghost predicate ReplayOk(log: seq<Envelope>, k: Conn) {
    && (forall x | x in k.sent + k.due :: k.cursor < x <= k.latest)
    && (forall i, j | 0 <= i < j < |k.sent + k.due| :: (k.sent + k.due)[i] < (k.sent + k.due)[j])
    && (forall x | k.cursor < x <= k.latest && Visible(log, k.actor, x) :: x in k.sent || x in k.due)
  }

  ghost predicate LiveOk(log: seq<Envelope>, published: nat, k: Conn) {
    && k.due == []
    && (forall x | x in k.sent :: x <= published + 1 || x <= k.latest)
    && (forall x | k.cursor < x <= k.latest && Visible(log, k.actor, x) :: x in k.sent)
    && (forall x, y | x in k.sent && y in k.queue && k.latest < y :: x <= y)
    && FirstDeliveriesInOrder(k.sent, k.cursor)
  }

  ghost predicate ConnOk(log: seq<Envelope>, published: nat, reached: nat, k: Conn) {
    && k.joined <= |log|
    && (k.phase != Registered ==> k.joined <= k.latest <= |log|)
    && (k.phase != Registered && k.lastSequence.None? ==> k.cursor == k.latest)
    && (k.phase in {Registered, Counted, Checked} ==> k.sent == [] && k.due == [])
    && (forall x | x in k.sent || x in k.due :: Visible(log, k.actor, x))
    && QueueOk(log, published, reached, k)
    && (k.phase == Checked && NeedsReplay(k) ==> forall x | k.cursor < x <= k.latest :: Recent(log, k.cutoff, x))
    && (k.phase == Replaying ==> ReplayOk(log, k))
    && (k.phase in {Draining, Sending} ==> LiveOk(log, published, k))
  }

  ghost predicate Inv(h: Hub) {
    && h.published <= h.batchEnd <= |h.log|
    && (h.call.Some? ==> h.published < h.batchEnd)
    && Window(h.log)
    && h.members <= h.conns.Keys
    && (h.call.Some? ==> forall c | c in h.call.value :: c in h.conns)
    && (forall c | c in h.conns && h.conns[c].phase != Closed ::
          c in h.members && ConnOk(h.log, h.published, Reached(h, c), h.conns[c]))
  }

  lemma CommitKeepsConn(log: seq<Envelope>, e: Envelope, p: nat, reached: nat, k: Conn)
    requires ConnOk(log, p, reached, k) && reached <= |log|
    ensures ConnOk(log + [e], p, reached, k)
  {
    assert forall x: nat | x <= |log| :: Visible(log + [e], k.actor, x) <==> Visible(log, k.actor, x);
    assert forall x: nat | x <= |log| :: Recent(log + [e], k.cutoff, x) <==> Recent(log, k.cutoff, x);
  }

  lemma OfferKeepsQueue(log: seq<Envelope>, p: nat, k: Conn)
    requires QueueOk(log, p, p, k) && Visible(log, k.actor, p + 1)
    ensures QueueOk(log, p, p + 1, k.(queue := k.queue + [p + 1]))
  {
    var k' := k.(queue := k.queue + [p + 1]);
    forall i | 0 <= i < |k.queue| ensures k'.queue[i] <= p + 1 {
      assert k.queue[i] in k.queue;
    }
    assert p + 1 in k'.queue && Floor(k') == Floor(k);
    assert forall x | x in k.queue :: x in k'.queue;
  }

  lemma OfferKeepsConn(log: seq<Envelope>, p: nat, k: Conn)
    requires ConnOk(log, p, p, k) && p + 1 <= |log|
    requires Visible(log, k.actor, p + 1)
    ensures ConnOk(log, p, p + 1, k.(queue := k.queue + [p + 1]))
  {
    OfferKeepsQueue(log, p, k);
  }

  lemma SkipKeepsConn(log: seq<Envelope>, p: nat, k: Conn)
    requires ConnOk(log, p, p, k)
    requires !Visible(log, k.actor, p + 1)
    ensures ConnOk(log, p, p + 1, k)
  {
  }

  lemma FinishKeepsConn(log: seq<Envelope>, p: nat, reached: nat, k: Conn)
    requires ConnOk(log, p, reached, k)
    requires reached == p + 1
    ensures ConnOk(log, p + 1, p + 1, k)
  {
  }

  lemma SnapshotKeepsConn(log: seq<Envelope>, p: nat, reached: nat, k: Conn, c: nat, cutoff: int)
    requires ConnOk(log, p, reached, k) && k.phase == Registered && reached <= |log|
    ensures ConnOk(log, p, reached, Advance(log, k, ReadLatest(c, cutoff)))
  {
  }

  lemma WindowKeepsConn(log: seq<Envelope>, p: nat, reached: nat, k: Conn)
    requires ConnOk(log, p, reached, k) && k.phase == Counted && Window(log)
    requires !WindowExceeded(log, k)
    ensures ConnOk(log, p, reached, k.(phase := Checked))
  {
    if NeedsReplay(k) {
      var oldest := OldestSince(log, k.cutoff).value;
      forall x | k.cursor < x <= k.latest ensures Recent(log, k.cutoff, x) {
        assert log[oldest - 1].occurredAt <= log[x - 1].occurredAt;
      }
    }
  }

  lemma ReplayKeepsConn(log: seq<Envelope>, p: nat, reached: nat, k: Conn, op: Op)
    requires ConnOk(log, p, reached, k)
    requires (op.QueryReplay? && k.phase == Checked) || (op.ReplayNext? && k.phase == Replaying && k.due != [])
    ensures ConnOk(log, p, reached, Advance(log, k, op))
  {
    var k' := Advance(log, k, op);
    if op.ReplayNext? {
      assert k'.sent + k'.due == k.sent + k.due;
      assert k'.sent[|k.sent|] == k.due[0];
    } else {
      assert k'.sent + k'.due == k'.due;
    }
  }

  lemma ReplayDoneKeepsConn(log: seq<Envelope>, p: nat, reached: nat, k: Conn)
    requires ConnOk(log, p, reached, k) && k.phase == Replaying && k.due == []
    ensures ConnOk(log, p, reached, k.(phase := Draining))
  {
    assert k.sent + k.due == k.sent;
  }

  lemma AppendKeepsOrder(sent: seq<nat>, cursor: nat, x: nat)
    requires FirstDeliveriesInOrder(sent, cursor)
    requires x > cursor ==> x in sent || forall y | y in sent :: y < x
    ensures FirstDeliveriesInOrder(sent + [x], cursor)
  {
    var s := sent + [x];
    forall i, j | 0 <= i < j < |s| && s[j] > cursor && s[j] !in s[..j]
      ensures s[i] < s[j]
    {
      if j < |sent| {
        assert s[..j] == sent[..j];
      } else {
        assert s[..j] == sent && sent[i] in sent;
      }
    }
  }

  lemma TakeKeepsQueue(log: seq<Envelope>, p: nat, reached: nat, k: Conn, sent: seq<nat>)
    requires QueueOk(log, p, reached, k) && k.queue != []
    requires forall x | x in k.sent :: x in sent
    requires k.queue[0] > Floor(k) ==> k.queue[0] in sent
    ensures QueueOk(log, p, reached, k.(queue := k.queue[1..], sent := sent))
  {
    var rest := k.queue[1..];
    forall x | x in rest ensures x <= p + 1 && Visible(log, k.actor, x) {
      assert x in k.queue;
    }
    forall x | Floor(k) < x <= reached && Visible(log, k.actor, x) ensures x in rest || x in sent {
      assert x in k.queue || x in k.sent;
      assert x in k.queue ==> x == k.queue[0] || x in rest;
    }
  }

  /** Taking the head of the queue: dropped when the replay covered it, else sent. */
  lemma TakeKeepsLive(log: seq<Envelope>, p: nat, k: Conn)
    requires LiveOk(log, p, k) && k.queue != []
    requires forall i, j | 0 <= i < j < |k.queue| :: k.queue[i] <= k.queue[j]
    requires k.queue[0] <= p + 1 && Visible(log, k.actor, k.queue[0])
    ensures LiveOk(log, p, k.(queue := k.queue[1..], sent := k.sent + [k.queue[0]]))
    ensures LiveOk(log, p, k.(queue := k.queue[1..]))
  {
    var x, rest := k.queue[0], k.queue[1..];
    assert forall y | y in rest :: y in k.queue;
    assert x in k.queue;
    AppendKeepsOrder(k.sent, k.cursor, x) by {
      if x > k.cursor && x > k.latest && x !in k.sent {
        assert forall y | y in k.sent :: y <= x;
      }
    }
    forall i | 0 <= i < |rest| ensures x <= rest[i] {
      assert rest[i] == k.queue[i + 1];
    }
  }

  lemma TakeKeepsConn(log: seq<Envelope>, p: nat, reached: nat, k: Conn, op: Op)
    requires ConnOk(log, p, reached, k) && k.queue != []
    requires (op.DrainNext? && k.phase == Draining) || (op.SendNext? && k.phase == Sending)
    ensures ConnOk(log, p, reached, Advance(log, k, op))
  {
    assert k.queue[0] in k.queue;
    TakeKeepsLive(log, p, k);
    TakeKeepsQueue(log, p, reached, k, Advance(log, k, op).sent);
    assert k.queue[0] in k.queue;
  }

  lemma DrainDoneKeepsConn(log: seq<Envelope>, p: nat, reached: nat, k: Conn)
    requires ConnOk(log, p, reached, k) && k.phase == Draining
    ensures ConnOk(log, p, reached, k.(phase := Sending))
  {
  }

  lemma AdvanceKeepsConn(log: seq<Envelope>, p: nat, reached: nat, k: Conn, op: Op)
    requires ConnOk(log, p, reached, k) && reached <= |log|
    requires match op
             case ReadLatest(_, _) => k.phase == Registered
             case QueryReplay(_) => k.phase == Checked
             case ReplayNext(_) => k.phase == Replaying && k.due != []
             case ReplayDone(_) => k.phase == Replaying && k.due == []
             case DrainNext(_) => k.phase == Draining && k.queue != []
             case DrainDone(_) => k.phase == Draining && k.queue == []
             case SendNext(_) => k.phase == Sending && k.queue != []
             case _ => false
    ensures ConnOk(log, p, reached, Advance(log, k, op))
    ensures Advance(log, k, op).phase != Closed
  {
    match op
    case ReadLatest(c, cutoff) => SnapshotKeepsConn(log, p, reached, k, c, cutoff);
    case QueryReplay(_) => ReplayKeepsConn(log, p, reached, k, op);
    case ReplayNext(_) => ReplayKeepsConn(log, p, reached, k, op);
    case ReplayDone(_) => ReplayDoneKeepsConn(log, p, reached, k);
    case DrainNext(_) => TakeKeepsConn(log, p, reached, k, op);
    case DrainDone(_) => DrainDoneKeepsConn(log, p, reached, k);
    case SendNext(_) => TakeKeepsConn(log, p, reached, k, op);
  }

  predicate OnConnection(op: Op) {
    op.ReadLatest? || op.QueryReplay? || op.ReplayNext? || op.ReplayDone? || op.DrainNext? || op.DrainDone? || op.SendNext?
  }

  lemma ConnOkMonotone(log: seq<Envelope>, p: nat, k: Conn)
    requires ConnOk(log, p, p + 1, k)
    ensures ConnOk(log, p, p, k)
  {
  }

  function AfterOffer(k: Conn, offer: Offer<nat>): Conn {
    match offer
    case Skipped => k
    case Enqueued(queue) => k.(queue := queue)
    case Full => k.(phase := Closed)
  }

  lemma OfferStepResult(h: Hub, c: nat, k: Conn)
    requires Enabled(h, OfferNext) && c == h.call.value[0] && k == h.conns[c]
    ensures OfferStep(h).conns[c] ==
            AfterOffer(k, OfferTo(k.queue, k.capacity, Visible(h.log, k.actor, h.published + 1), h.published + 1))
  {
  }

  lemma OfferedKeepsConn(log: seq<Envelope>, p: nat, k: Conn)
    requires ConnOk(log, p, p, k) && p + 1 <= |log|
    ensures var offer := OfferTo(k.queue, k.capacity, Visible(log, k.actor, p + 1), p + 1);
            !offer.Full? ==> ConnOk(log, p, p + 1, AfterOffer(k, offer))
  {
    if Visible(log, k.actor, p + 1) {
      OfferKeepsConn(log, p, k);
    } else {
      SkipKeepsConn(log, p, k);
    }
  }

  /** A connection still to be offered has been offered everything before. */
  lemma CalledConnOk(h: Hub, c: nat)
    requires Inv(h) && h.call.Some? && c in h.call.value && h.conns[c].phase != Closed
    ensures ConnOk(h.log, h.published, h.published, h.conns[c]) && h.published + 1 <= |h.log|
  {
  }

  /** The connection just offered, wherever the publish now stands. */
  lemma OfferedConnOk(log: seq<Envelope>, p: nat, k: Conn, k': Conn)
    requires ConnOk(log, p, p, k) && p + 1 <= |log| && k'.phase != Closed
    requires k' == AfterOffer(k, OfferTo(k.queue, k.capacity, Visible(log, k.actor, p + 1), p + 1))
    ensures ConnOk(log, p, p + 1, k')
  {
    OfferedKeepsConn(log, p, k);
  }

  lemma OfferedStepConn(h: Hub, c: nat)
    requires Enabled(h, OfferNext) && c == h.call.value[0] && h.published + 1 <= |h.log|
    requires ConnOk(h.log, h.published, h.published, h.conns[c])
    requires OfferStep(h).conns[c].phase != Closed
    ensures ConnOk(h.log, h.published, h.published + 1, OfferStep(h).conns[c])
  {
    OfferStepResult(h, c, h.conns[c]);
    OfferedConnOk(h.log, h.published, h.conns[c], OfferStep(h).conns[c]);
  }

  lemma OtherStepConn(h: Hub, d: nat)
    requires Inv(h) && Enabled(h, OfferNext) && d != h.call.value[0]
    requires d in h.conns && OfferStep(h).conns[d].phase != Closed
    ensures ConnOk(h.log, h.published, Reached(OfferStep(h), d), OfferStep(h).conns[d])
  {
    var h' := OfferStep(h);
    assert h.call.value == [h.call.value[0]] + h'.call.value;
    assert h'.conns[d] == h.conns[d] && Reached(h', d) == Reached(h, d);
  }

  lemma OfferStepConn(h: Hub, d: nat)
    requires Inv(h) && Enabled(h, OfferNext)
    requires d in h.conns && OfferStep(h).conns[d].phase != Closed
    ensures ConnOk(h.log, h.published, Reached(OfferStep(h), d), OfferStep(h).conns[d])
  {
    if d == h.call.value[0] {
      assert d in h.call.value;
      CalledConnOk(h, d);
      OfferedStepConn(h, d);
      ConnOkMonotone(h.log, h.published, OfferStep(h).conns[d]);
    } else {
      OtherStepConn(h, d);
    }
  }

  /** Of the invariant all but the connections, and who is registered. */
  lemma OfferStepKeepsHub(h: Hub)
    requires Inv(h) && Enabled(h, OfferNext)
    ensures var h' := OfferStep(h);
            && h'.log == h.log && h'.published == h.published && h'.batchEnd == h.batchEnd
            && h'.conns.Keys == h.conns.Keys
            && h'.call.Some? && (forall c | c in h'.call.value :: c in h'.conns)
  {
    assert forall c | c in h.call.value[1..] :: c in h.call.value;
  }

  lemma OfferStepKeepsMembers(h: Hub)
    requires Enabled(h, OfferNext) && h.members <= h.conns.Keys
    requires forall d | d in h.conns && h.conns[d].phase != Closed :: d in h.members
    ensures var h' := OfferStep(h);
            h'.members <= h'.conns.Keys && (forall d | d in h'.conns && h'.conns[d].phase != Closed :: d in h'.members)
  {
  }

  lemma OfferStepKeepsInv(h: Hub)
    requires Inv(h) && Enabled(h, OfferNext)
    ensures Inv(OfferStep(h))
  {
    var h' := OfferStep(h);
    OfferStepKeepsHub(h);
    OfferStepKeepsMembers(h);
    forall d | d in h'.conns && h'.conns[d].phase != Closed ensures ConnOk(h'.log, h'.published, Reached(h', d), h'.conns[d]) {
      OfferStepConn(h, d);
    }
  }

  lemma HubStepKeepsInv(h: Hub, op: Op)
    requires Inv(h) && Enabled(h, op)
    requires op.Commit? || op.ReadBatch? || op.StartPublish? || op.FinishPublish? || op.FailPublish?
    ensures Inv(Apply(h, op))
  {
    var h' := Apply(h, op);
    forall d | d in h.conns && h.conns[d].phase != Closed
      ensures ConnOk(h'.log, h'.published, Reached(h', d), h.conns[d])
    {
      match op
      case Commit(e) => CommitKeepsConn(h.log, e, h.published, Reached(h, d), h.conns[d]);
      case FinishPublish => FinishKeepsConn(h.log, h.published, Reached(h, d), h.conns[d]);
      case FailPublish =>
        if Reached(h, d) != h.published {
          ConnOkMonotone(h.log, h.published, h.conns[d]);
        }
      case _ =>
    }
  }

  lemma WithKeepsInv(h: Hub, c: nat, k: Conn)
    requires Inv(h) && c in h.conns && h.conns[c].phase != Closed
    requires ConnOk(h.log, h.published, Reached(h, c), k)
    ensures Inv(With(h, c, k))
  {
  }

  lemma RegisterKeepsInv(h: Hub, op: Op)
    requires Inv(h) && Enabled(h, op) && op.Register?
    ensures Inv(Apply(h, op))
  {
    var h' := Apply(h, op);
    forall d | d in h'.conns && h'.conns[d].phase != Closed
      ensures d in h'.members && ConnOk(h'.log, h'.published, Reached(h', d), h'.conns[d])
    {
      if d == op.c {
        assert Reached(h', d) <= |h.log|;
      }
    }
  }

  lemma ConnStepKeepsInv(h: Hub, op: Op)
    requires Inv(h) && Enabled(h, op)
    requires op.CheckWindow? || op.Disconnect? || OnConnection(op)
    ensures Inv(Apply(h, op))
  {
    if OnConnection(op) {
      AdvanceKeepsConn(h.log, h.published, Reached(h, op.c), h.conns[op.c], op);
      WithKeepsInv(h, op.c, Advance(h.log, h.conns[op.c], op));
    } else if op.CheckWindow? && !WindowExceeded(h.log, h.conns[op.c]) {
      WindowKeepsConn(h.log, h.published, Reached(h, op.c), h.conns[op.c]);
      WithKeepsInv(h, op.c, h.conns[op.c].(phase := Checked));
    }
  }

  lemma {:induction false} RunKeepsInv(h: Hub, ops: seq<Op>, last: Hub)
    requires Inv(h) && Run(h, ops, last)
    ensures Inv(last)
    decreases |ops|
  {
    if ops != [] {
      var op := ops[0];
      if op.OfferNext? {
        OfferStepKeepsInv(h);
      } else if op.Register? {
        RegisterKeepsInv(h, op);
      } else if op.CheckWindow? || op.Disconnect? || OnConnection(op) {
        ConnStepKeepsInv(h, op);
      } else {
        HubStepKeepsInv(h, op);
      }
      RunKeepsInv(Apply(h, op), ops[1..], last);
    }
  }

  // ---------------------------------------------------------------- theorems

  /** In every run, for every connection that has taken its snapshot and is open:
      no visible envelope above the cursor is lost, first deliveries ascend, none is
      skipped over, and nothing the actor may not see is sent. */
  lemma {:induction false} DeliveryGuarantee(ops: seq<Op>, h: Hub, c: nat)
    requires Run(INITIAL, ops, h)
    requires c in h.conns && SnapshotTaken(h.conns[c])
    ensures NoGap(h, h.conns[c])
    ensures FirstDeliveriesInOrder(h.conns[c].sent, h.conns[c].cursor)
    ensures NothingSkipped(h.log, h.conns[c])
    ensures forall x | x in h.conns[c].sent || x in h.conns[c].queue :: Visible(h.log, h.conns[c].actor, x)
  {
    RunKeepsInv(INITIAL, ops, h);
    var k := h.conns[c];
    assert ConnOk(h.log, h.published, Reached(h, c), k);
    if k.phase == Replaying {
      ReplayOrder(h.log, k);
    }
    forall x, y | x in k.sent && k.cursor < y < x && Visible(h.log, k.actor, y) ensures y in k.sent {
      assert y in k.queue && k.latest < y && k.phase in {Draining, Sending} ==> x <= y;
    }
  }

  /** While the replay runs, what was sent precedes what is due. */
  lemma ReplayOrder(log: seq<Envelope>, k: Conn)
    requires ReplayOk(log, k)
    ensures FirstDeliveriesInOrder(k.sent, k.cursor)
    ensures NothingSkipped(log, k)
  {
    var all := k.sent + k.due;
    assert forall i | 0 <= i < |k.sent| :: all[i] == k.sent[i];
    forall x, y | x in k.sent && k.cursor < y < x && Visible(log, k.actor, y) ensures y in k.sent {
      var i :| 0 <= i < |k.sent| && k.sent[i] == x;
      assert all[i] in all && y in all;
      var j :| 0 <= j < |all| && all[j] == y;
      assert j < i && k.sent[j] == y;
    }
  }

  /** A client that ignores whatever is not above the last envelope it took. */
  function Accepted(sent: seq<nat>, cursor: nat): seq<nat> {
    if sent == [] then []
    else if sent[0] > cursor then [sent[0]] + Accepted(sent[1..], sent[0])
    else Accepted(sent[1..], cursor)
  }

  /** All of `sent` above the cursor, each once and in order. */
  ghost predicate TakesAll(sent: seq<nat>, cursor: nat, taken: seq<nat>) {
    && (forall x :: x in taken <==> x in sent && x > cursor)
    && (forall i, j | 0 <= i < j < |taken| :: taken[i] < taken[j])
  }

  /** In-order first deliveries are exactly what such a client needs to lose nothing. */
  lemma {:induction false} AcceptedIsComplete(sent: seq<nat>, cursor: nat)
    requires FirstDeliveriesInOrder(sent, cursor)
    ensures TakesAll(sent, cursor, Accepted(sent, cursor))
  {
    if sent != [] {
      var rest, next := sent[1..], if sent[0] > cursor then sent[0] else cursor;
      RestInOrder(sent, cursor);
      AcceptedIsComplete(rest, next);
      AcceptedNext(sent, cursor, Accepted(rest, next));
    }
  }

  lemma AcceptedNext(sent: seq<nat>, cursor: nat, tail: seq<nat>)
    requires sent != [] && FirstDeliveriesInOrder(sent, cursor)
    requires TakesAll(sent[1..], if sent[0] > cursor then sent[0] else cursor, tail)
    ensures TakesAll(sent, cursor, if sent[0] > cursor then [sent[0]] + tail else tail)
  {
    assert forall x | x in sent :: x == sent[0] || x in sent[1..];
    if sent[0] > cursor {
      forall j | 0 <= j < |sent| && sent[j] > cursor ensures sent[0] <= sent[j] {
        FirstIsLeast(sent, cursor, j);
      }
      assert forall i | 0 <= i < |tail| :: tail[i] in tail;
    }
  }

  lemma RestInOrder(sent: seq<nat>, cursor: nat)
    requires sent != [] && FirstDeliveriesInOrder(sent, cursor)
    ensures FirstDeliveriesInOrder(sent[1..], if sent[0] > cursor then sent[0] else cursor)
  {
    var rest, next := sent[1..], if sent[0] > cursor then sent[0] else cursor;
    forall i, j | 0 <= i < j < |rest| && rest[j] > next && rest[j] !in rest[..j]
      ensures rest[i] < rest[j]
    {
      assert sent[..j + 1] == [sent[0]] + rest[..j];
      assert sent[i + 1] == rest[i] && sent[j + 1] == rest[j];
    }
  }

  lemma {:induction false} FirstIsLeast(sent: seq<nat>, cursor: nat, j: nat)
    requires FirstDeliveriesInOrder(sent, cursor)
    requires j < |sent| && sent[0] > cursor && sent[j] > cursor
    ensures sent[0] <= sent[j]
  {
    if sent[j] in sent[..j] {
      var i :| 0 <= i < j && sent[i] == sent[j];
      FirstIsLeast(sent, cursor, i);
    }
  }

  /** Once the sender has caught up, the client holds exactly the visible envelopes
      after its cursor, each once and in order. */
  lemma ClientMissesNothing(ops: seq<Op>, h: Hub, c: nat, x: nat)
    requires Run(INITIAL, ops, h)
    requires InPhase(h, c, Sending) && h.conns[c].queue == []
    requires x <= h.conns[c].latest || x <= h.published
    ensures x in Accepted(h.conns[c].sent, h.conns[c].cursor) <==>
            h.conns[c].cursor < x && Visible(h.log, h.conns[c].actor, x)
  {
    DeliveryGuarantee(ops, h, c);
    AcceptedIsComplete(h.conns[c].sent, h.conns[c].cursor);
    RunKeepsInv(INITIAL, ops, h);
    assert ConnOk(h.log, h.published, Reached(h, c), h.conns[c]);
  }

  /** Everything the replay owes the connection is in it. */
  ghost predicate ReplayComplete(log: seq<Envelope>, k: Conn) {
    forall x | k.cursor < x <= k.latest && Visible(log, k.actor, x) ::
      x in ReplayRows(log, k.actor, k.cutoff, k.cursor, k.latest)
  }

  /** Row `x`, which the actor sees, was stamped earlier than row `i` before it. */
  predicate SteppedBack(log: seq<Envelope>, actor: Actor, i: nat, x: nat) {
    1 <= i < x <= |log| && Visible(log, actor, x) && log[i - 1].occurredAt > log[x - 1].occurredAt
  }

  ghost predicate NoStepBack(log: seq<Envelope>, actor: Actor) {
    forall i: nat, x: nat :: !SteppedBack(log, actor, i, x)
  }

  predicate Replayed(log: seq<Envelope>, actor: Actor, k: Conn) {
    k.actor == actor && NeedsReplay(k) && k.latest <= |log| && !WindowExceeded(log, k)
  }

  /** The window check makes every replay of an actor complete, wherever it starts and
      whenever it is made, if and only if the clock never stepped back to stamp a row the
      actor sees. */
  lemma ReplayCoversIff(log: seq<Envelope>, actor: Actor)
    ensures (forall k | Replayed(log, actor, k) :: ReplayComplete(log, k)) <==> NoStepBack(log, actor)
  {
    if NoStepBack(log, actor) {
      forall k | Replayed(log, actor, k) ensures ReplayComplete(log, k) {
        var oldest := OldestSince(log, k.cutoff).value;
        forall x | k.cursor < x <= k.latest && Visible(log, actor, x) ensures Recent(log, k.cutoff, x) {
          assert !SteppedBack(log, actor, oldest, x);
        }
      }
    }
    if i: nat, x: nat :| SteppedBack(log, actor, i, x) {
      var k := Conn(actor, Some(i - 1), 0, 0, Counted, log[i - 1].occurredAt, |log|, i - 1, [], [], []);
      assert Recent(log, k.cutoff, i) && !Recent(log, k.cutoff, x);
      assert Replayed(log, actor, k) && !ReplayComplete(log, k);
    }
  }

  /** If the clock steps back, a row inside the log can fall out of the window check. */
  lemma ClockStepBackLosesRow()
    ensures var e := Envelope(false, None, Public, None, 100);
            var log := [e, e.(occurredAt := 50), e];
            var k := Conn(Actor(Operator, "op", None), Some(0), 10, 0, Counted, 60, 3, 0, [], [], []);
            !WindowExceeded(log, k) && Visible(log, k.actor, 2)
            && 2 !in ReplayRows(log, k.actor, k.cutoff, k.cursor, k.latest)
  {
    var e := Envelope(false, None, Public, None, 100);
    var log := [e, e.(occurredAt := 50), e];
    assert Recent(log, 60, 1);
    assert !Recent(log, 60, 2);
  }

  // ---------------------------------------------------------------- the hub object

  /** What the drain loop sends of a queue: what is newer than the snapshot. */
  function Newer(queue: seq<nat>, latest: nat): (r: seq<nat>)
    ensures forall x :: x in r <==> x in queue && x > latest
  {
    if queue == [] then []
    else if queue[0] > latest then [queue[0]] + Newer(queue[1..], latest)
    else Newer(queue[1..], latest)
  }

  /** One connection's drain steps, run to the end without interference, amount to Newer. */
  lemma {:induction false} DrainStepsAreNewer(log: seq<Envelope>, k: Conn, c: nat)
    ensures Drained(log, k, c) == k.(queue := [], sent := k.sent + Newer(k.queue, k.latest))
    decreases |k.queue|
  {
    if k.queue != [] {
      var k' := Advance(log, k, DrainNext(c));
      DrainStepsAreNewer(log, k', c);
      NewerStep(k.queue, k.latest, k.sent, k'.sent);
    } else {
      assert k.sent + Newer(k.queue, k.latest) == k.sent;
    }
  }

  lemma NewerStep(queue: seq<nat>, latest: nat, sent: seq<nat>, sent': seq<nat>)
    requires queue != [] && sent' == if queue[0] > latest then sent + [queue[0]] else sent
    ensures sent' + Newer(queue[1..], latest) == sent + Newer(queue, latest)
  {
  }

  function Drained(log: seq<Envelope>, k: Conn, c: nat): Conn
    decreases |k.queue|
  {
    if k.queue == [] then k else Drained(log, Advance(log, k, DrainNext(c)), c)
  }

  /** Whom an envelope is for: staff, and the residents who own it or, if it is public, all;
      of the questions put to a place, no resident, and of those put to regions, only
      residents of one of them. */
  predicate IsFor(e: Envelope, actor: Actor) {
    actor.role == Resident ==>
      && (e.visibility == Public || e.ownerDevice == Some(actor.subjectId))
      && (e.isQuestion && e.geometry.Some? ==> !e.geometry.value.spatial)
      && (e.isQuestion && e.geometry.Some? && e.geometry.value.regionCodes != {} ==>
            actor.region.Some? && actor.region.value in e.geometry.value.regionCodes)
  }

  class Connection {
    const actor: Actor
    const incident: string
    const capacity: nat
    var queue: seq<nat>
    var closed: bool

    constructor (actor: Actor, incident: string, capacity: nat)
      ensures this.actor == actor && this.incident == incident && this.capacity == capacity
      ensures queue == [] && !closed
    {
      this.actor, this.incident, this.capacity := actor, incident, capacity;
      queue, closed := [], false;
    }

    predicate Wants(incident: string, e: Envelope) {
      this.incident == incident && EventVisible(actor, e)
    }

    method Drain(latest: nat) returns (sent: seq<nat>)
      modifies this`queue
      ensures queue == [] && sent == Newer(old(queue), latest)
    {
      sent := [];
      while queue != []
        invariant sent + Newer(queue, latest) == Newer(old(queue), latest)
        decreases |queue|
      {
        var x := queue[0];
        queue := queue[1..];
        if x > latest {
          sent := sent + [x];
        }
      }
    }
  }

  class RealtimeHub {
    var connections: set<Connection>

    constructor ()
      ensures connections == {}
    {
      connections := {};
    }

    method Add(c: Connection)
      modifies this
      ensures connections == old(connections) + {c}
    {
      connections := connections + {c};
    }

    method Remove(c: Connection)
      modifies this
      ensures connections == old(connections) - {c}
    {
      connections := connections - {c};
    }

    /** Offers the envelope to every registered connection; a full queue closes its
        connection and drops it from the hub. */
    method Publish(incident: string, sequence: nat, e: Envelope)
      modifies this, connections
      ensures forall c | c in old(connections) ::
                match OfferTo(old(c.queue), c.capacity, c.Wants(incident, e), sequence)
                case Skipped => c.queue == old(c.queue) && c.closed == old(c.closed) && c in connections
                case Enqueued(queue) => c.queue == queue && c.closed == old(c.closed) && c in connections
                case Full => c.queue == old(c.queue) && c.closed && c !in connections
      ensures connections <= old(connections)
      ensures forall c | c in old(connections) && c.queue != old(c.queue) ::
                c.queue == old(c.queue) + [sequence] && c.incident == incident && IsFor(e, c.actor)
      ensures forall c | c in old(connections) && c.incident == incident && IsFor(e, c.actor) && |old(c.queue)| < c.capacity ::
                c.queue == old(c.queue) + [sequence] && c in connections
    {
      var rest := connections;
      while rest != {}
        invariant rest <= old(connections) && connections <= old(connections)
        invariant forall c | c in rest ::
                    c in connections && c.queue == old(c.queue) && c.closed == old(c.closed)
        invariant forall c | c in old(connections) - rest ::
                    match OfferTo(old(c.queue), c.capacity, c.Wants(incident, e), sequence)
                    case Skipped => c.queue == old(c.queue) && c.closed == old(c.closed) && c in connections
                    case Enqueued(queue) => c.queue == queue && c.closed == old(c.closed) && c in connections
                    case Full => c.queue == old(c.queue) && c.closed && c !in connections
        decreases rest
      {
        var c :| c in rest;
        rest := rest - {c};
        if c.Wants(incident, e) {
          if |c.queue| < c.capacity {
            c.queue := c.queue + [sequence];
          } else {
            c.closed := true;
            Remove(c);
          }
        }
      }
    }
  }
}
