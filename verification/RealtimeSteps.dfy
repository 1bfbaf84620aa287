/** What the hub and a handler do to a connection: who is registered, who is turned away, how
    much is queued, what is read for a replay, and what a failed publish leaves. */
module RealtimeSteps {
  import opened Options
  import opened Realtime

  // ---------------------------------------------------------------- who is registered, and how much waits

  /** The hub lists exactly the connections that are open, and queues no more than fits. */
  ghost predicate Listed(h: Hub) {
    && (forall c: nat :: c in h.members <==> c in h.conns && h.conns[c].phase != Closed)
    && (forall c | c in h.conns :: |h.conns[c].queue| <= h.conns[c].capacity)
  }

  lemma OfferKeepsListed(h: Hub)
    requires Listed(h) && Enabled(h, OfferNext)
    ensures Listed(OfferStep(h))
  {
    var r := OfferStep(h);
    forall d | d in r.conns ensures |r.conns[d].queue| <= r.conns[d].capacity && (d in r.members <==> r.conns[d].phase != Closed) {
      OfferIs(h, d);
    }
  }

  lemma StepKeepsListed(h: Hub, op: Op)
    requires Listed(h) && Enabled(h, op) && !op.OfferNext?
    ensures Listed(Apply(h, op))
  {
    if OnConnection(op) {
      AdvanceKeepsListed(h, op);
    }
  }

  lemma AdvanceKeepsListed(h: Hub, op: Op)
    requires Listed(h) && Enabled(h, op) && OnConnection(op)
    ensures Listed(With(h, op.c, Advance(h.log, h.conns[op.c], op)))
  {
    var k := Advance(h.log, h.conns[op.c], op);
    assert |k.queue| <= |h.conns[op.c].queue| && k.capacity == h.conns[op.c].capacity && k.phase != Closed;
  }

  lemma {:induction false} RunKeepsListed(h: Hub, ops: seq<Op>, last: Hub)
    requires Listed(h) && Run(h, ops, last)
    ensures Listed(last)
    decreases |ops|
  {
    if ops != [] {
      if ops[0].OfferNext? {
        OfferKeepsListed(h);
      } else {
        StepKeepsListed(h, ops[0]);
      }
      RunKeepsListed(Apply(h, ops[0]), ops[1..], last);
    }
  }

  /** In every run the hub offers rows to exactly the connections that are open, and no queue
      is longer than its capacity. */
  lemma OpenAreRegistered(ops: seq<Op>, h: Hub, c: nat)
    requires Run(INITIAL, ops, h)
    ensures c in h.members <==> c in h.conns && h.conns[c].phase != Closed
    ensures c in h.conns ==> |h.conns[c].queue| <= h.conns[c].capacity
  {
    RunKeepsListed(INITIAL, ops, h);
  }

  /** An offer closes the connection exactly if the row is for it and its queue is full; with
      room the row is queued last, and a row that is not for it passes it by. Nobody else
      notices. */
  lemma OfferIs(h: Hub, d: nat)
    requires Enabled(h, OfferNext) && d in h.conns
    ensures var c, x, r := h.call.value[0], h.published + 1, Apply(h, OfferNext);
            var k, wanted := h.conns[c], Visible(h.log, h.conns[c].actor, h.published + 1);
            && r.call == Some(h.call.value[1..]) && r.log == h.log && r.published == h.published && r.batchEnd == h.batchEnd
            && c in r.conns && d in r.conns && (d != c ==> r.conns[d] == h.conns[d])
            && r.conns[c] == (if !wanted then k
                              else if |k.queue| < k.capacity then k.(queue := k.queue + [x])
                              else k.(phase := Closed))
            && (wanted && |k.queue| >= k.capacity ==> r.members == h.members - {c})
            && (!wanted || |k.queue| < k.capacity ==> r.members == h.members)
  {
  }

  // ---------------------------------------------------------------- what is replayed

  /** The snapshot is the log as it is; a client that names no sequence starts from there. */
  lemma SnapshotIs(h: Hub, c: nat, cutoff: int)
    requires Enabled(h, ReadLatest(c, cutoff))
    ensures var k := h.conns[c];
            Apply(h, ReadLatest(c, cutoff)).conns[c]
            == k.(phase := Counted, cutoff := cutoff, latest := |h.log|,
                  cursor := if k.lastSequence.Some? then k.lastSequence.value else |h.log|)
  {
  }

  predicate InWindow(log: seq<Envelope>, cutoff: int, x: nat) {
    1 <= x <= |log| && log[x - 1].occurredAt >= cutoff
  }

  /** A client is turned away exactly if it names a sequence behind the snapshot and no row
      inside the window comes right after it or before: a row it has not seen may be too old. */
  lemma TurnedAwayIff(h: Hub, c: nat)
    requires Enabled(h, CheckWindow(c))
    ensures var k, r := h.conns[c], Apply(h, CheckWindow(c));
            && c in r.conns
            && (r.conns[c].phase == Closed <==>
                  k.lastSequence.Some? && k.cursor < k.latest
                  && forall x: nat | x <= k.cursor + 1 :: !InWindow(h.log, k.cutoff, x))
            && (r.conns[c].phase != Closed ==> r.conns[c] == k.(phase := Checked) && r.members == h.members)
            && (r.conns[c].phase == Closed ==> c !in r.members)
  {
    var k := h.conns[c];
    forall x: nat ensures Recent(h.log, k.cutoff, x) <==> InWindow(h.log, k.cutoff, x) {
    }
    var oldest := OldestSince(h.log, k.cutoff);
    if oldest.Some? {
      assert InWindow(h.log, k.cutoff, oldest.value);
    }
  }

  /** Only a client that names a sequence behind the snapshot is sent a replay: of the rows
      after it, up to the snapshot, that it may see and that are inside the window. */
  lemma ReplayIs(h: Hub, c: nat, x: nat)
    requires Enabled(h, QueryReplay(c))
    ensures var k, r := h.conns[c], Apply(h, QueryReplay(c)).conns[c];
            && r == k.(phase := Replaying, due := r.due)
            && (x in r.due <==> && k.lastSequence.Some? && k.cursor < x <= k.latest && 1 <= x <= |h.log|
                                && h.log[x - 1].occurredAt >= k.cutoff && EventVisible(k.actor, h.log[x - 1]))
  {
  }

  // ---------------------------------------------------------------- after a failure

  /** Publishing may fail at any moment, and the publisher then reads again from the first row
      that is not marked; what was queued stays queued. */
  lemma FailureIsTriedAgain(h: Hub, hi: nat)
    requires h.published <= hi <= |h.log|
    ensures Enabled(h, FailPublish)
    ensures var r := Apply(h, FailPublish);
            && r == h.(batchEnd := h.published, call := None)
            && Enabled(r, ReadBatch(hi)) && Apply(r, ReadBatch(hi)) == r.(batchEnd := hi)
  {
  }
}
