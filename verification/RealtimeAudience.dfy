/** Who gets a row: over every run, what a connection was sent or is owed is meant for its
    actor, and what is meant for its actor is not kept from it. */
module RealtimeAudience {
  import opened Options
  import opened Realtime

  /** The connection holds the row in some way: sent, due from the replay, or queued. */
  predicate HasRow(k: Conn, x: nat) {
    x in k.sent || x in k.due || x in k.queue
  }

  /** Every row a connection has, open or closed, is in the log and meant for its actor. */
  predicate OnlyTheirs(log: seq<Envelope>, k: Conn) {
    forall x | x in k.sent + k.due + k.queue :: 1 <= x <= |log| && IsFor(log[x - 1], k.actor)
  }

  ghost predicate AllOnlyTheirs(h: Hub) {
    forall c | c in h.conns :: OnlyTheirs(h.log, h.conns[c])
  }

  lemma OfferOnlyTheirs(h: Hub)
    requires AllOnlyTheirs(h) && Enabled(h, OfferNext)
    ensures AllOnlyTheirs(OfferStep(h))
  {
    var h' := OfferStep(h);
    forall c | c in h'.conns ensures OnlyTheirs(h'.log, h'.conns[c]) {
      var k, k' := h.conns[c], h'.conns[c];
      assert OnlyTheirs(h.log, k);
      forall x | x in k'.sent + k'.due + k'.queue ensures 1 <= x <= |h.log| && IsFor(h.log[x - 1], k.actor) {
        assert x in k.sent + k.due + k.queue || (x == h.published + 1 && Visible(h.log, k.actor, x));
      }
    }
  }

  lemma AdvanceOnlyTheirs(log: seq<Envelope>, k: Conn, op: Op)
    requires OnlyTheirs(log, k)
    requires op.ReplayNext? ==> k.due != []
    requires op.DrainNext? || op.SendNext? ==> k.queue != []
    ensures OnlyTheirs(log, Advance(log, k, op))
  {
    var k' := Advance(log, k, op);
    forall x | x in k'.sent + k'.due + k'.queue ensures 1 <= x <= |log| && IsFor(log[x - 1], k.actor) {
      if op.QueryReplay? && x in k'.due {
        assert Visible(log, k.actor, x);
      } else {
        assert x in k.sent + k.due + k.queue;
      }
    }
  }

  lemma StepOnlyTheirs(h: Hub, op: Op)
    requires AllOnlyTheirs(h) && Enabled(h, op)
    ensures AllOnlyTheirs(Apply(h, op))
  {
    var h' := Apply(h, op);
    if op.OfferNext? {
      OfferOnlyTheirs(h);
    } else {
      forall c | c in h'.conns ensures OnlyTheirs(h'.log, h'.conns[c]) {
        assert c in h.conns ==> OnlyTheirs(h.log, h.conns[c]);
        if OnConnection(op) && op.c == c {
          AdvanceOnlyTheirs(h.log, h.conns[c], op);
        }
      }
    }
  }

  lemma {:induction false} RunOnlyTheirs(h: Hub, ops: seq<Op>, last: Hub)
    requires AllOnlyTheirs(h) && Run(h, ops, last)
    ensures AllOnlyTheirs(last)
    decreases |ops|
  {
    if ops != [] {
      StepOnlyTheirs(h, ops[0]);
      RunOnlyTheirs(Apply(h, ops[0]), ops[1..], last);
    }
  }

  /** In every run, for every connection, open or closed: a row that a resident was sent, is
      due or has queued is public or the resident's own; if it is a question, it is not put
      to a place, and if it is put to regions, one of them is the resident's. */
  lemma ResidentsGetOnlyTheirs(ops: seq<Op>, h: Hub, c: nat, x: nat)
    requires Run(INITIAL, ops, h) && c in h.conns && HasRow(h.conns[c], x) && h.conns[c].actor.role == Resident
    ensures 1 <= x <= |h.log|
    ensures var e, actor := h.log[x - 1], h.conns[c].actor;
            && (e.visibility == Public || e.ownerDevice == Some(actor.subjectId))
            && (e.isQuestion && e.geometry.Some? ==> !e.geometry.value.spatial)
            && (e.isQuestion && e.geometry.Some? && e.geometry.value.regionCodes != {} ==>
                  actor.region.Some? && actor.region.value in e.geometry.value.regionCodes)
  {
    RunOnlyTheirs(INITIAL, ops, h);
    assert OnlyTheirs(h.log, h.conns[c]);
    assert x in h.conns[c].sent + h.conns[c].due + h.conns[c].queue;
  }

  lemma ForIsVisible(e: Envelope, actor: Actor)
    ensures IsFor(e, actor) <==> EventVisible(actor, e)
  {
  }

  /** In every run, past its snapshot and while it is open, a connection has every row above
      its cursor that is meant for its actor, up to the snapshot and to the last row
      published: staff every row, residents every public or own row that is no question, and
      of questions those that are not put to a place or to other regions. */
  lemma NothingOfTheirsIsMissing(ops: seq<Op>, h: Hub, c: nat, x: nat)
    requires Run(INITIAL, ops, h) && c in h.conns && SnapshotTaken(h.conns[c])
    requires 1 <= x <= |h.log| && h.conns[c].cursor < x && (x <= h.conns[c].latest || x <= h.published)
    requires var e, actor := h.log[x - 1], h.conns[c].actor;
             || actor.role == Operator || actor.role == Admin
             || (&& (e.visibility == Public || e.ownerDevice == Some(actor.subjectId))
                 && (e.isQuestion && e.geometry.Some? ==> !e.geometry.value.spatial)
                 && (e.isQuestion && e.geometry.Some? && e.geometry.value.regionCodes != {} ==>
                       actor.region.Some? && actor.region.value in e.geometry.value.regionCodes))
    ensures HasRow(h.conns[c], x) || Due(h.conns[c], x)
  {
    DeliveryGuarantee(ops, h, c);
    ForIsVisible(h.log[x - 1], h.conns[c].actor);
    assert Visible(h.log, h.conns[c].actor, x);
  }
}
