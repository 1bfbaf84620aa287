/** What the sender sends twice. The drain discards what the replay has sent; the sender that
    follows it discards nothing. */
module RealtimeRepeats {
  import opened Options
  import opened Realtime

  // ---------------------------------------------------------------- repeats by what was sent

  /** In every run: what the sender takes next is a repeat if and only if it is not above
      everything sent, which a sender that remembered one number could see. */
  lemma RepeatIff(ops: seq<Op>, h: Hub, c: nat)
    requires Run(INITIAL, ops, h) && Enabled(h, SendNext(c)) && h.conns[c].queue[0] > h.conns[c].cursor
    ensures h.conns[c].queue[0] in h.conns[c].sent <==> exists y :: y in h.conns[c].sent && h.conns[c].queue[0] <= y
  {
    DeliveryGuarantee(ops, h, c);
    assert h.conns[c].queue[0] in h.conns[c].queue;
  }

  // ---------------------------------------------------------------- every copy offered is sent or waits

  /** The step puts row `x` into the connection's queue. */
  predicate Enqueues(h: Hub, op: Op, c: nat, x: nat) {
    && op.OfferNext? && Enabled(h, op) && h.call.value[0] == c && h.published + 1 == x
    && OfferTo(h.conns[c].queue, h.conns[c].capacity, Visible(h.log, h.conns[c].actor, x), x).Enqueued?
  }

  /** How often the run puts it there. */
  function Offers(h: Hub, ops: seq<Op>, c: nat, x: nat): nat
    decreases |ops|
  {
    if ops == [] || !Enabled(h, ops[0]) then 0
    else (if Enqueues(h, ops[0], c, x) then 1 else 0) + Offers(Apply(h, ops[0]), ops[1..], c, x)
  }

  function Copies(h: Hub, c: nat, x: nat): nat {
    if c in h.conns then CopiesIn(h.conns[c], x) else 0
  }

  /** Past the snapshot its sequence is fixed. */
  predicate Fixed(h: Hub, c: nat, latest: nat) {
    c in h.conns && h.conns[c].phase != Registered && h.conns[c].latest == latest
  }

  lemma {:induction false} FixedStays(h: Hub, ops: seq<Op>, last: Hub, c: nat, latest: nat)
    requires Run(h, ops, last) && Fixed(h, c, latest)
    ensures Fixed(last, c, latest)
    decreases |ops|
  {
    if ops != [] {
      FixedStep(h, ops[0], c, latest);
      FixedStays(Apply(h, ops[0]), ops[1..], last, c, latest);
    }
  }

  lemma FixedStep(h: Hub, op: Op, c: nat, latest: nat)
    requires Enabled(h, op) && Fixed(h, c, latest)
    ensures Fixed(Apply(h, op), c, latest)
  {
  }

  lemma TakeOne(queue: seq<nat>, sent: seq<nat>, x: nat)
    requires queue != []
    ensures multiset(sent + [queue[0]])[x] + multiset(queue[1..])[x] == multiset(sent)[x] + multiset(queue)[x]
    ensures queue[0] != x ==> multiset(queue[1..])[x] == multiset(queue)[x] && multiset(sent + [queue[0]])[x] == multiset(sent)[x]
  {
    assert queue == [queue[0]] + queue[1..];
  }

  function CopiesIn(k: Conn, x: nat): nat {
    multiset(k.sent)[x] + multiset(k.queue)[x]
  }

  lemma AdvanceCopies(log: seq<Envelope>, k: Conn, op: Op, x: nat)
    requires op.ReplayNext? ==> k.due != [] && k.due[0] != x
    requires op.DrainNext? || op.SendNext? ==> k.queue != []
    requires op.DrainNext? ==> k.latest < x
    ensures CopiesIn(Advance(log, k, op), x) == CopiesIn(k, x)
  {
    if op.ReplayNext? {
      TakeOne(k.due, k.sent, x);
    } else if op.DrainNext? || op.SendNext? {
      TakeOne(k.queue, k.sent, x);
    }
  }

  lemma ReplayedIsOld(h: Hub, op: Op)
    requires Inv(h) && Enabled(h, op) && op.ReplayNext?
    ensures h.conns[op.c].due[0] <= h.conns[op.c].latest
  {
    var k := h.conns[op.c];
    assert ReplayOk(h.log, k);
    assert k.due[0] in k.sent + k.due;
  }

  lemma ConnCopies(h: Hub, op: Op, c: nat, x: nat)
    requires Enabled(h, op) && OnConnection(op) && op.c == c
    requires op.DrainNext? ==> h.conns[c].latest < x
    requires op.ReplayNext? ==> h.conns[c].due[0] != x
    ensures Copies(Apply(h, op), c, x) == Copies(h, c, x)
  {
    AdvanceCopies(h.log, h.conns[c], op, x);
  }

  lemma OfferCopies(h: Hub, c: nat, x: nat)
    requires Enabled(h, OfferNext)
    ensures Copies(OfferStep(h), c, x) == Copies(h, c, x) + if Enqueues(h, OfferNext, c, x) then 1 else 0
  {
    var k := h.conns[h.call.value[0]];
    OfferStepResult(h, h.call.value[0], k);
    if c != h.call.value[0] {
      assert c in h.conns ==> OfferStep(h).conns[c] == h.conns[c];
    }
  }

  lemma OtherCopies(h: Hub, op: Op, c: nat, x: nat)
    requires Enabled(h, op) && !(OnConnection(op) && op.c == c) && !op.OfferNext?
    ensures Copies(Apply(h, op), c, x) == Copies(h, c, x)
  {
  }

  /** Conservation: what a run offers a connection of a row above its snapshot is sent or
      waits in its queue, each copy once. */
  lemma {:induction false} CopiesAreOffers(h: Hub, ops: seq<Op>, last: Hub, c: nat, x: nat)
    requires Inv(h) && Run(h, ops, last) && (c in last.conns ==> last.conns[c].latest < x)
    ensures Copies(last, c, x) == Copies(h, c, x) + Offers(h, ops, c, x)
    decreases |ops|
  {
    if ops != [] {
      var op, h' := ops[0], Apply(h, ops[0]);
      if OnConnection(op) && op.c == c {
        if op.ReplayNext? || op.DrainNext? {
          FixedStays(h, ops, last, c, h.conns[c].latest);
        }
        if op.ReplayNext? {
          ReplayedIsOld(h, op);
        }
        ConnCopies(h, op, c, x);
      } else if op.OfferNext? {
        OfferCopies(h, c, x);
      } else {
        OtherCopies(h, op, c, x);
      }
      RunKeepsInv(h, ops[..1], h') by {
        assert ops[..1][1..] == [];
      }
      CopiesAreOffers(h', ops[1..], last, c, x);
    }
  }

  // ---------------------------------------------------------------- publishing again

  /** How often publishing row `x` failed after it had begun. */
  function Fails(h: Hub, ops: seq<Op>, x: nat): nat
    decreases |ops|
  {
    if ops == [] || !Enabled(h, ops[0]) then 0
    else
      (if ops[0].FailPublish? && h.call.Some? && h.published + 1 == x then 1 else 0) + Fails(Apply(h, ops[0]), ops[1..], x)
  }

  /** The running publish, or a finished one, is past the connection. */
  function Passed(h: Hub, c: nat, x: nat): nat {
    if x <= h.published || (h.call.Some? && x == h.published + 1 && c !in h.call.value) then 1 else 0
  }

  predicate CallApart(h: Hub) {
    h.call.Some? ==> AllApart(h.call.value)
  }

  lemma PassedStep(h: Hub, op: Op, c: nat, x: nat)
    requires CallApart(h) && Enabled(h, op)
    ensures CallApart(Apply(h, op))
    ensures (if Enqueues(h, op, c, x) then 1 else 0) + Passed(h, c, x)
            <= (if op.FailPublish? && h.call.Some? && h.published + 1 == x then 1 else 0) + Passed(Apply(h, op), c, x)
  {
    if op.OfferNext? {
      assert h.call.value == [h.call.value[0]] + h.call.value[1..];
      assert forall i | 0 <= i < |h.call.value[1..]| :: h.call.value[1..][i] == h.call.value[i + 1];
    }
  }

  lemma {:induction false} OffersNeedFailures(h: Hub, ops: seq<Op>, last: Hub, c: nat, x: nat)
    requires CallApart(h) && Run(h, ops, last)
    ensures Offers(h, ops, c, x) + Passed(h, c, x) <= Fails(h, ops, x) + Passed(last, c, x)
    decreases |ops|
  {
    if ops != [] {
      PassedStep(h, ops[0], c, x);
      OffersNeedFailures(Apply(h, ops[0]), ops[1..], last, c, x);
    }
  }

  lemma EmptyHub()
    ensures Inv(INITIAL)
  {
  }

  lemma InMultiset(s: seq<nat>, x: nat)
    ensures x in s <==> multiset(s)[x] > 0
  {
    assert x in s <==> x in multiset(s);
  }

  /** In every run: what the sender takes next is a repeat if and only if it is in the
      snapshot the replay was made from, or the run has put it into the queue more often
      than it is there; the second only if publishing it has failed before. */
  lemma SentAgainIff(ops: seq<Op>, h: Hub, c: nat, x: nat)
    requires Run(INITIAL, ops, h) && Enabled(h, SendNext(c)) && x == h.conns[c].queue[0] && x > h.conns[c].cursor
    ensures x in h.conns[c].sent
            <==> x <= h.conns[c].latest || multiset(h.conns[c].queue)[x] < Offers(INITIAL, ops, c, x)
    ensures Fails(INITIAL, ops, x) == 0 ==> (x in h.conns[c].sent <==> x <= h.conns[c].latest)
  {
    var k := h.conns[c];
    EmptyHub();
    RunKeepsInv(INITIAL, ops, h);
    assert ConnOk(h.log, h.published, Reached(h, c), k) && x in k.queue;
    InMultiset(k.sent, x);
    InMultiset(k.queue, x);
    if x > k.latest {
      CopiesAreOffers(INITIAL, ops, h, c, x);
      OffersNeedFailures(INITIAL, ops, h, c, x);
    }
  }

  // ---------------------------------------------------------------- such a run

  const ROW := Envelope(false, None, Public, None, 100)

  /** One connection that has seen nothing yet, and the queue and sends it has now. */
  function Client(phase: Phase, latest: nat, due: seq<nat>, queue: seq<nat>, sent: seq<nat>): Conn {
    Conn(Actor(Operator, "op", None), Some(0), 10, 1, phase, 0, latest, 0, due, queue, sent)
  }

  function OneClient(k: Conn, published: nat, batchEnd: nat, call: Option<seq<nat>>): Hub {
    Hub([ROW], published, batchEnd, call, map[0 := k], {0})
  }

  /** Some run without a failed publish leads from one state to the other. */
  ghost predicate Reaches(h: Hub, last: Hub) {
    exists ops :: Run(h, ops, last) && NeverFails(ops)
  }

  predicate NeverFails(ops: seq<Op>) {
    forall k | 0 <= k < |ops| :: !ops[k].FailPublish?
  }

  lemma Leads(h: Hub, op: Op, h': Hub, last: Hub)
    requires Enabled(h, op) && !op.FailPublish? && Apply(h, op) == h' && Reaches(h', last)
    ensures Reaches(h, last)
  {
    var rest :| Run(h', rest, last) && NeverFails(rest);
    var ops := [op] + rest;
    assert ops[1..] == rest;
    assert forall k | 0 <= k < |ops| :: k > 0 ==> ops[k] == rest[k - 1];
    assert Run(h, ops, last) && NeverFails(ops);
  }

  /** A step of the client's own connection. */
  lemma Advances(k: Conn, k': Conn, op: Op, published: nat, last: Hub)
    requires OnConnection(op) && op.c == 0 && Enabled(OneClient(k, published, published, None), op)
    requires k' == Advance([ROW], k, op) && Reaches(OneClient(k', published, published, None), last)
    ensures Reaches(OneClient(k, published, published, None), last)
  {
    assert map[0 := k][0 := k'] == map[0 := k'];
    Leads(OneClient(k, published, published, None), op, OneClient(k', published, published, None), last);
  }

  /** The client reads the one row as its snapshot. */
  lemma Joins(last: Hub)
    requires Reaches(OneClient(Client(Counted, 1, [], [], []), 0, 0, None), last)
    ensures Reaches(INITIAL, last)
  {
    var k, logged := Client(Registered, 0, [], [], []), INITIAL.(log := [ROW]);
    Advances(k, Client(Counted, 1, [], [], []), ReadLatest(0, 0), 0, last);
    assert Apply(logged, Register(0, k.actor, Some(0), 10)) == OneClient(k, 0, 0, None);
    Leads(logged, Register(0, k.actor, Some(0), 10), OneClient(k, 0, 0, None), last);
    Leads(INITIAL, Commit(ROW), logged, last);
  }

  lemma LetThrough(last: Hub)
    requires Reaches(OneClient(Client(Checked, 1, [], [], []), 0, 0, None), last)
    ensures Reaches(OneClient(Client(Counted, 1, [], [], []), 0, 0, None), last)
  {
    var k, k' := Client(Counted, 1, [], [], []), Client(Checked, 1, [], [], []);
    assert Recent([ROW], 0, 1);
    assert map[0 := k][0 := k'] == map[0 := k'];
    Leads(OneClient(k, 0, 0, None), CheckWindow(0), OneClient(k', 0, 0, None), last);
  }

  lemma OneReplayed()
    ensures ReplayRows([ROW], Actor(Operator, "op", None), 0, 0, 1) == [1]
  {
    assert Visible([ROW], Actor(Operator, "op", None), 1) && Recent([ROW], 0, 1);
    assert ReplayRows([ROW], Actor(Operator, "op", None), 0, 0, 0) == [];
  }

  /** The row is replayed. */
  lemma Replays(last: Hub)
    requires Reaches(OneClient(Client(Replaying, 1, [], [], [1]), 0, 0, None), last)
    ensures Reaches(OneClient(Client(Checked, 1, [], [], []), 0, 0, None), last)
  {
    Advances(Client(Replaying, 1, [1], [], []), Client(Replaying, 1, [], [], [1]), ReplayNext(0), 0, last);
    OneReplayed();
    Advances(Client(Checked, 1, [], [], []), Client(Replaying, 1, [1], [], []), QueryReplay(0), 0, last);
  }

  lemma Drains(last: Hub)
    requires Reaches(OneClient(Client(Sending, 1, [], [], [1]), 0, 0, None), last)
    ensures Reaches(OneClient(Client(Replaying, 1, [], [], [1]), 0, 0, None), last)
  {
    Advances(Client(Draining, 1, [], [], [1]), Client(Sending, 1, [], [], [1]), DrainDone(0), 0, last);
    Advances(Client(Replaying, 1, [], [], [1]), Client(Draining, 1, [], [], [1]), ReplayDone(0), 0, last);
  }

  /** Only now is the row published. */
  lemma Publishes(last: Hub)
    requires Reaches(OneClient(Client(Sending, 1, [], [], [1]), 0, 1, Some([0])), last)
    ensures Reaches(OneClient(Client(Sending, 1, [], [], [1]), 0, 0, None), last)
  {
    var k := Client(Sending, 1, [], [], [1]);
    assert (set c | c in [0]) == {0};
    Leads(OneClient(k, 0, 1, None), StartPublish([0]), OneClient(k, 0, 1, Some([0])), last);
    Leads(OneClient(k, 0, 0, None), ReadBatch(1), OneClient(k, 0, 1, None), last);
  }

  lemma Offered()
    ensures var k, k' := Client(Sending, 1, [], [], [1]), Client(Sending, 1, [], [1], [1]);
            OfferStep(OneClient(k, 0, 1, Some([0]))) == OneClient(k', 0, 1, Some([]))
  {
    var k, k' := Client(Sending, 1, [], [], [1]), Client(Sending, 1, [], [1], [1]);
    assert Visible([ROW], k.actor, 1) && [0][1..] == [];
    assert [] + [1] == [1];
    assert OfferTo(k.queue, 10, true, 1) == Enqueued([1]);
    assert map[0 := k][0 := k'] == map[0 := k'];
  }

  lemma IsOffered(last: Hub)
    requires Reaches(OneClient(Client(Sending, 1, [], [1], [1]), 1, 1, None), last)
    ensures Reaches(OneClient(Client(Sending, 1, [], [], [1]), 0, 1, Some([0])), last)
  {
    var k, k' := Client(Sending, 1, [], [], [1]), Client(Sending, 1, [], [1], [1]);
    Leads(OneClient(k', 0, 1, Some([])), FinishPublish, OneClient(k', 1, 1, None), last);
    Offered();
    Leads(OneClient(k, 0, 1, Some([0])), OfferNext, OneClient(k', 0, 1, Some([])), last);
  }

  /** From the empty hub, with no publish failing: a row that was replayed is published after
      the drain, and sent again. */
  lemma ReplayedRowIsSentAgain()
    ensures exists h: Hub ::
              Reaches(INITIAL, h) && InPhase(h, 0, Sending) && h.conns[0].cursor == 0 && h.conns[0].sent == [1, 1]
  {
    var h := OneClient(Client(Sending, 1, [], [], [1, 1]), 1, 1, None);
    assert Run(h, [], h) && NeverFails([]);
    Advances(Client(Sending, 1, [], [1], [1]), Client(Sending, 1, [], [], [1, 1]), SendNext(0), 1, h);
    IsOffered(h);
    Publishes(h);
    Drains(h);
    Replays(h);
    LetThrough(h);
    Joins(h);
  }
}
