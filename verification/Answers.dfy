/** Directed answers: each device has one answer per question, written under a revision
    check, and every write settles the question's blind spot again. */
module Answers {
  import opened Options

  /** `value` is None for the spellings of "unknown". */
  datatype Answer = Answer(question: nat, device: nat, value: Option<nat>, revision: nat)

  datatype SpotStatus = Open | Reopened | Resolved

  datatype Spot = Spot(status: SpotStatus, value: Option<nat>, min: nat, revision: nat)

  datatype State = State(answers: seq<Answer>, spot: Spot)

  /** The question is published and unexpired, and the device within its target. */
  datatype Op = Put(question: nat, device: nat, value: Option<nat>, revision: nat, admitted: bool)

  function FindAnswer(answers: seq<Answer>, question: nat, device: nat): (r: Option<nat>)
    ensures r.Some? ==> r.value < |answers| && answers[r.value].question == question && answers[r.value].device == device
    ensures r.None? ==> forall i | 0 <= i < |answers| :: answers[i].question != question || answers[i].device != device
  {
    if answers == [] then None
    else
      var n := |answers| - 1;
      if answers[n].question == question && answers[n].device == device then Some(n)
      else FindAnswer(answers[..n], question, device)
  }

  // ---------------------------------------------------------------- counting

  /** The definite values of a question's answers, in row order. */
  function Values(answers: seq<Answer>, question: nat): (r: seq<nat>)
    ensures forall v {:trigger v in r} ::
              v in r <==> exists i | 0 <= i < |answers| :: answers[i].question == question && answers[i].value == Some(v)
  {
    if answers == [] then []
    else
      var n := |answers| - 1;
      var before := Values(answers[..n], question);
      if answers[n].question == question && answers[n].value.Some? then before + [answers[n].value.value] else before
  }

  /** Informative answers: of the question, with a definite value. */
  predicate Informative(answers: seq<Answer>, question: nat, i: nat) {
    i < |answers| && answers[i].question == question && answers[i].value.Some?
  }

  function InformativeIds(answers: seq<Answer>, question: nat): set<nat> {
    set i | 0 <= i < |answers| && Informative(answers, question, i)
  }

  datatype Consensus = Consensus(value: Option<nat>, count: nat, distinct: set<nat>)

  function Count(values: seq<nat>, v: nat): nat {
    multiset(values)[v]
  }

  /** The most frequent value, the first met among equals. */
  ghost predicate IsConsensus(values: seq<nat>, c: Consensus) {
    && c.distinct == (set v | v in values)
    && (values == [] ==> c.value.None? && c.count == 0)
    && (values != [] ==>
          c.value.Some? && c.value.value in values && c.count == Count(values, c.value.value)
          && forall v | v in values :: Count(values, v) <= c.count)
  }

  // ---------------------------------------------------------------- one write

  /** The check on the revision: 0 says there is no answer yet. */
  predicate Accepts(answers: seq<Answer>, op: Op) {
    && op.admitted
    && match FindAnswer(answers, op.question, op.device)
       case None => op.revision == 0
       case Some(i) => answers[i].revision == op.revision
  }

  function Written(answers: seq<Answer>, op: Op): seq<Answer> {
    match FindAnswer(answers, op.question, op.device)
    case None => answers + [Answer(op.question, op.device, op.value, 1)]
    case Some(i) => answers[i := answers[i].(value := op.value, revision := answers[i].revision + 1)]
  }

  function Settled(spot: Spot, c: Consensus): Spot {
    if |c.distinct| > 1 then
      if spot.status == Resolved then spot.(status := Open, value := None, revision := spot.revision + 1) else spot
    else if c.value.Some? && c.count >= spot.min then
      if spot.status != Resolved || spot.value != c.value
      then spot.(status := Resolved, value := c.value, revision := spot.revision + 1) else spot
    else if spot.status == Resolved then spot.(status := Open, value := None, revision := spot.revision + 1)
    else spot
  }

  ghost predicate Step(s: State, op: Op, s': State) {
    if !Accepts(s.answers, op) then s' == s
    else exists c :: IsConsensus(Values(Written(s.answers, op), op.question), c)
                     && s' == State(Written(s.answers, op), Settled(s.spot, c))
  }

  // ---------------------------------------------------------------- what resolution means

  /** All informative answers of the question agree on `v`. */
  predicate AgreeOn(answers: seq<Answer>, question: nat, v: nat) {
    forall i: nat | i < |answers| && Informative(answers, question, i) :: answers[i].value == Some(v)
  }

  /** They agree on `v`, and there are enough of them (at least one). */
  predicate Decides(answers: seq<Answer>, question: nat, min: nat, v: nat) {
    && AgreeOn(answers, question, v)
    && |InformativeIds(answers, question)| >= min && InformativeIds(answers, question) != {}
  }

  lemma {:induction false} ValuesCount(answers: seq<Answer>, question: nat)
    ensures |Values(answers, question)| == |InformativeIds(answers, question)|
  {
    if answers == [] {
    } else {
      var n := |answers| - 1;
      ValuesCount(answers[..n], question);
      var before, ids := InformativeIds(answers[..n], question), InformativeIds(answers, question);
      assert ids == if Informative(answers, question, n) then before + {n} else before by {
        forall i: nat ensures i in ids <==> i in before || (i == n && Informative(answers, question, n)) {
          assert i < n ==> answers[..n][i] == answers[i];
        }
      }
    }
  }

  lemma {:induction false} CountAll(values: seq<nat>, v: nat)
    requires All(values, v)
    ensures Count(values, v) == |values|
  {
    if values != [] {
      var n := |values| - 1;
      CountAll(values[..n], v);
      assert values == values[..n] + [v];
    }
  }

  predicate All(values: seq<nat>, v: nat) {
    forall i | 0 <= i < |values| :: values[i] == v
  }

  lemma ValuesAgree(answers: seq<Answer>, question: nat, v: nat)
    ensures AgreeOn(answers, question, v) <==> All(Values(answers, question), v)
  {
    var values := Values(answers, question);
    if AgreeOn(answers, question, v) {
      forall k | 0 <= k < |values| ensures values[k] == v {
        assert values[k] in values;
        var i :| 0 <= i < |answers| && answers[i].question == question && answers[i].value == Some(values[k]);
        assert Informative(answers, question, i);
      }
    }
    if All(values, v) {
      forall i: nat | i < |answers| && Informative(answers, question, i) ensures answers[i].value == Some(v) {
        assert answers[i].value.value in values;
      }
    }
  }

  lemma OneDistinct(values: seq<nat>, distinct: set<nat>, v: nat)
    requires distinct == set x | x in values
    requires v in values
    ensures |distinct| <= 1 <==> All(values, v)
  {
    if All(values, v) {
      assert distinct == {v};
    } else {
      var i :| 0 <= i < |values| && values[i] != v;
      var x := values[i];
      assert {x, v} <= distinct;
      SubsetSize({x, v}, distinct);
    }
  }

  lemma {:induction false} SubsetSize(a: set<nat>, b: set<nat>)
    requires a <= b
    ensures |a| <= |b|
  {
    if a != {} {
      var x :| x in a;
      SubsetSize(a - {x}, b - {x});
    }
  }

  /** What the consensus says, in terms of the answers. */
  lemma ConsensusMeans(answers: seq<Answer>, question: nat, c: Consensus, min: nat, v: nat)
    requires IsConsensus(Values(answers, question), c)
    ensures |c.distinct| <= 1 && c.value == Some(v) && c.count >= min <==> Decides(answers, question, min, v)
  {
    var values := Values(answers, question);
    ValuesCount(answers, question);
    ValuesAgree(answers, question, v);
    if values != [] {
      var w := c.value.value;
      OneDistinct(values, c.distinct, w);
      if All(values, w) {
        CountAll(values, w);
      }
      if All(values, v) {
        assert w == v;
      }
    } else {
      assert InformativeIds(answers, question) == {};
    }
  }

  /** After an accepted write, whatever the spot was before, it is resolved exactly when the
      question's informative answers agree and suffice, and with the value they agree on. */
  lemma WriteSettles(s: State, op: Op, s': State, v: nat)
    requires Accepts(s.answers, op) && Step(s, op, s')
    ensures s'.spot.status == Resolved && s'.spot.value == Some(v) <==> Decides(s'.answers, op.question, s.spot.min, v)
    ensures s'.spot.status == Resolved ==> s'.spot.value.Some?
  {
    var c :| IsConsensus(Values(Written(s.answers, op), op.question), c)
             && s' == State(Written(s.answers, op), Settled(s.spot, c));
    ConsensusMeans(s'.answers, op.question, c, s.spot.min, v);
    if c.value.Some? {
      ConsensusMeans(s'.answers, op.question, c, s.spot.min, c.value.value);
    }
  }

  /** What an accepted write does to the spot: decided, it is resolved with the value; not
      decided, a resolved one is open again, without a value. It moves its revision on
      exactly when it changes, and keeps what it requires. */
  lemma WriteMovesSpot(s: State, op: Op, s': State, v: nat)
    requires Accepts(s.answers, op) && Step(s, op, s')
    ensures Decides(s'.answers, op.question, s.spot.min, v) ==>
              if s.spot.status == Resolved && s.spot.value == Some(v) then s'.spot == s.spot
              else s'.spot == Spot(Resolved, Some(v), s.spot.min, s.spot.revision + 1)
    ensures (forall w :: !Decides(s'.answers, op.question, s.spot.min, w)) ==>
              if s.spot.status == Resolved then s'.spot == Spot(Open, None, s.spot.min, s.spot.revision + 1)
              else s'.spot == s.spot
  {
    var c :| IsConsensus(Values(Written(s.answers, op), op.question), c)
             && s' == State(Written(s.answers, op), Settled(s.spot, c));
    ConsensusMeans(s'.answers, op.question, c, s.spot.min, v);
    if c.value.Some? {
      ConsensusMeans(s'.answers, op.question, c, s.spot.min, c.value.value);
    }
  }

  // ---------------------------------------------------------------- whole runs

  ghost predicate Run(s: State, ops: seq<Op>, last: State)
    decreases |ops|
  {
    if ops == [] then last == s else exists s' :: Step(s, ops[0], s') && Run(s', ops[1..], last)
  }

  /** The spot says what the question's answers say. */
  ghost predicate Agrees(s: State, question: nat) {
    && (s.spot.status == Resolved ==> s.spot.value.Some?)
    && forall v: nat {:trigger Decides(s.answers, question, s.spot.min, v)} ::
         s.spot.status == Resolved && s.spot.value == Some(v) <==> Decides(s.answers, question, s.spot.min, v)
  }

  lemma StepAgrees(s: State, op: Op, s': State)
    requires Step(s, op, s') && Agrees(s, op.question)
    ensures Agrees(s', op.question) && s'.spot.min == s.spot.min
  {
    if Accepts(s.answers, op) {
      WriteAgrees(s, op, s');
    }
  }

  lemma WriteAgrees(s: State, op: Op, s': State)
    requires Step(s, op, s') && Accepts(s.answers, op)
    ensures Agrees(s', op.question) && s'.spot.min == s.spot.min
  {
    assert s'.spot.min == s.spot.min;
    forall v: nat
      ensures s'.spot.status == Resolved && s'.spot.value == Some(v) <==> Decides(s'.answers, op.question, s'.spot.min, v)
    {
      WriteSettles(s, op, s', v);
    }
    WriteSettles(s, op, s', 0);
  }

  function NewSpot(min: nat): State {
    State([], Spot(Open, None, min, 1))
  }

  /** For a spot served by one question, new or in agreement: after any sequence of writes,
      accepted or refused, it is resolved iff the informative answers agree and suffice, with
      their value. */
  lemma {:induction false} AnswersDecide(s: State, question: nat, ops: seq<Op>, last: State)
    requires s == NewSpot(s.spot.min) || Agrees(s, question)
    requires Run(s, ops, last)
    requires forall k | 0 <= k < |ops| :: ops[k].question == question
    ensures Agrees(last, question)
    decreases |ops|
  {
    assert InformativeIds([], question) == {};
    if ops != [] {
      var s' :| Step(s, ops[0], s') && Run(s', ops[1..], last);
      StepAgrees(s, ops[0], s');
      AnswersDecide(s', question, ops[1..], last);
    }
  }

  /** Both questions decide alike: for the same value, or neither for any. */
  ghost predicate SameVerdict(answers: seq<Answer>, q: nat, r: nat, min: nat) {
    forall v: nat {:trigger Decides(answers, q, min, v)} :: Decides(answers, q, min, v) <==> Decides(answers, r, min, v)
  }

  /** Of a spot that several questions serve, the last one written decides: after an accepted
      write the spot says what another question's answers say if and only if the two
      questions' answers, with the new one, decide alike. */
  lemma AgreesWithOtherIff(s: State, op: Op, s': State, q: nat)
    requires Step(s, op, s') && Accepts(s.answers, op)
    ensures Agrees(s', q) <==> SameVerdict(Written(s.answers, op), q, op.question, s.spot.min)
  {
    WriteAgrees(s, op, s');
    forall v: nat
      ensures s'.spot.status == Resolved && s'.spot.value == Some(v) <==> Decides(s'.answers, op.question, s'.spot.min, v)
    {
      assert Decides(s'.answers, op.question, s'.spot.min, v) || !Decides(s'.answers, op.question, s'.spot.min, v);
    }
  }

  /** The write itself changes nothing the other question's answers decide, so the spot is
      only reopened, or resolved otherwise, over their heads. */
  lemma OtherVerdictStands(answers: seq<Answer>, op: Op, q: nat, min: nat, v: nat)
    requires q != op.question
    ensures Decides(Written(answers, op), q, min, v) <==> Decides(answers, q, min, v)
  {
    var written := Written(answers, op);
    forall i: nat
      ensures Informative(written, q, i) == Informative(answers, q, i)
      ensures Informative(written, q, i) ==> written[i] == answers[i]
    {
    }
    assert InformativeIds(written, q) == InformativeIds(answers, q);
  }

  /** With two questions on one spot the last one written decides: it may reopen what the
      other one's answers had resolved. */
  lemma SecondQuestionReopens()
    ensures exists s: State, op: Op, s': State ::
              Step(s, op, s') && Agrees(s, 1) && op.question == 2 && Accepts(s.answers, op)
              && s.spot.status == Resolved && s'.spot.status == Open && Decides(s'.answers, 1, s'.spot.min, 7)
  {
    var a, b := Answer(1, 1, Some(7), 1), Answer(2, 1, None, 1);
    var s := State([a], Spot(Resolved, Some(7), 1, 2));
    FirstAnswerResolves(a);
    var op := Put(2, 1, None, 0, true);
    var s' := State([a, b], Spot(Open, None, 1, 3));
    assert Written([a], op) == [a, b];
    NothingSaid(a, b);
    assert IsConsensus([], Consensus(None, 0, {}));
    assert Step(s, op, s');
    StillDecided(a, b);
  }

  lemma FirstAnswerResolves(a: Answer)
    requires a == Answer(1, 1, Some(7), 1)
    ensures Agrees(State([a], Spot(Resolved, Some(7), 1, 2)), 1)
  {
    var s0 := State([], Spot(Open, None, 1, 1));
    var put := Put(1, 1, Some(7), 0, true);
    var s := State([a], Spot(Resolved, Some(7), 1, 2));
    assert Values([a], 1) == [7] by { assert [a][..0] == []; }
    assert IsConsensus([7], Consensus(Some(7), 1, {7}));
    assert Written([], put) == [a];
    assert Step(s0, put, s);
    WriteAgrees(s0, put, s);
  }

  lemma NothingSaid(a: Answer, b: Answer)
    requires a.question == 1 && b == Answer(2, 1, None, 1)
    ensures Values([a, b], 2) == []
  {
    assert Values([a], 2) == [] by { assert [a][..0] == []; }
    assert [a, b][..1] == [a];
  }

  lemma StillDecided(a: Answer, b: Answer)
    requires a == Answer(1, 1, Some(7), 1) && b == Answer(2, 1, None, 1)
    ensures Decides([a, b], 1, 1, 7)
  {
    assert Informative([a, b], 1, 0);
    assert 0 in InformativeIds([a, b], 1);
    SubsetSize({0}, InformativeIds([a, b], 1));
  }

  /** An accepted write stores its own value as the device's one answer to the question, at
      the next revision, and leaves every other answer as it is. A refused one stores
      nothing. */
  lemma WriteStores(s: State, op: Op, s': State, i: nat)
    requires Step(s, op, s')
    requires forall i, j | 0 <= i < j < |s.answers| ::
               s.answers[i].question != s.answers[j].question || s.answers[i].device != s.answers[j].device
    ensures !Accepts(s.answers, op) ==> s' == s
    ensures Accepts(s.answers, op) ==>
              && op.admitted
              && (exists k | 0 <= k < |s'.answers| :: s'.answers[k] == Answer(op.question, op.device, op.value, op.revision + 1))
              && |s.answers| <= |s'.answers| <= |s.answers| + 1
              && (|s'.answers| > |s.answers| <==>
                    forall k | 0 <= k < |s.answers| :: s.answers[k].question != op.question || s.answers[k].device != op.device)
              && (|s'.answers| > |s.answers| ==> op.revision == 0)
              && (i < |s.answers| && (s.answers[i].question != op.question || s.answers[i].device != op.device) ==>
                    s'.answers[i] == s.answers[i])
  {
    if Accepts(s.answers, op) {
      var found := FindAnswer(s.answers, op.question, op.device);
      var k := found.GetOr(|s.answers|);
      assert s'.answers[k] == Answer(op.question, op.device, op.value, op.revision + 1);
    }
  }

  /** Of two writes that name the same revision of one answer, the second is refused. */
  lemma SecondWriterRefused(s: State, op: Op, s': State, other: Op)
    requires Accepts(s.answers, op) && Step(s, op, s')
    requires other.question == op.question && other.device == op.device && other.revision == op.revision
    requires forall i, j | 0 <= i < j < |s.answers| ::
               s.answers[i].question != s.answers[j].question || s.answers[i].device != s.answers[j].device
    ensures !Accepts(s'.answers, other)
  {
    var i := FindAnswer(s'.answers, op.question, op.device);
    assert s'.answers == Written(s.answers, op);
    assert match FindAnswer(s.answers, op.question, op.device)
           case None => s'.answers[|s.answers|] == Answer(op.question, op.device, op.value, 1)
           case Some(k) => s'.answers[k].question == op.question && s'.answers[k].device == op.device;
  }

  // ---------------------------------------------------------------- the handler

  /** Counts the definite values and picks the most frequent. */
  method ValidConsensus(answers: seq<Answer>, question: nat) returns (c: Consensus)
    ensures IsConsensus(Values(answers, question), c)
  {
    var values: seq<nat> := [];
    var i := 0;
    while i < |answers|
      invariant i <= |answers|
      invariant values == Values(answers[..i], question)
    {
      assert answers[..i + 1][..i] == answers[..i];
      if answers[i].question == question && answers[i].value.Some? {
        values := values + [answers[i].value.value];
      }
      i := i + 1;
    }
    assert answers[..i] == answers;
    c := MostCommon(values);
  }

  method MostCommon(values: seq<nat>) returns (c: Consensus)
    ensures IsConsensus(values, c)
  {
    var counts: map<nat, nat> := Tally(values);
    c := Consensus(None, 0, {});
    var i := 0;
    while i < |values|
      invariant i <= |values|
      invariant c.distinct == set v | v in values[..i]
      invariant i == 0 ==> c == Consensus(None, 0, {})
      invariant i > 0 ==> c.value.Some? && c.value.value in values && c.count == Count(values, c.value.value)
      invariant forall v | v in values[..i] :: Count(values, v) <= c.count
    {
      var v := values[i];
      assert values[..i + 1] == values[..i] + [v];
      if c.value.None? || counts[v] > c.count {
        c := c.(value := Some(v), count := counts[v]);
      }
      c := c.(distinct := c.distinct + {v});
      i := i + 1;
    }
    assert values[..i] == values;
  }

  method Tally(values: seq<nat>) returns (counts: map<nat, nat>)
    ensures forall v | v in values :: v in counts && counts[v] == Count(values, v)
  {
    counts := map[];
    var i := 0;
    while i < |values|
      invariant i <= |values|
      invariant forall v :: v in counts <==> v in values[..i]
      invariant forall v | v in counts :: counts[v] == Count(values[..i], v)
    {
      var v := values[i];
      assert values[..i + 1] == values[..i] + [v];
      counts := counts[v := if v in counts then counts[v] + 1 else 1];
      i := i + 1;
    }
    assert values[..i] == values;
  }

  class Board {
    var answers: seq<Answer>
    var spot: Spot

    constructor (min: nat)
      ensures State(answers, spot) == State([], Spot(Open, None, min, 1))
    {
      answers, spot := [], Spot(Open, None, min, 1);
    }

    method PutMyAnswer(op: Op) returns (accepted: bool)
      modifies this
      ensures accepted <==> Accepts(old(answers), op)
      ensures Step(old(State(answers, spot)), op, State(answers, spot))
    {
      var i := FindAnswer(answers, op.question, op.device);
      if !op.admitted || op.revision != (if i.None? then 0 else answers[i.value].revision) {
        return false;
      }
      if i.None? {
        answers := answers + [Answer(op.question, op.device, op.value, 1)];
      } else {
        answers := answers[i.value := answers[i.value].(value := op.value, revision := answers[i.value].revision + 1)];
      }
      var c := ValidConsensus(answers, op.question);
      SettleSpot(c);
      return true;
    }

    method SettleSpot(c: Consensus)
      modifies this`spot
      ensures spot == Settled(old(spot), c)
    {
      if |c.distinct| > 1 {
        if spot.status == Resolved {
          spot := spot.(status := Open, value := None, revision := spot.revision + 1);
        }
      } else if c.value.Some? && c.count >= spot.min {
        if spot.status != Resolved || spot.value != c.value {
          spot := spot.(status := Resolved, value := c.value, revision := spot.revision + 1);
        }
      } else if spot.status == Resolved {
        spot := spot.(status := Open, value := None, revision := spot.revision + 1);
      }
    }
  }
}
