/** Packing the frames of a report's attachments under one byte budget, round robin: the
    first frame of every attachment, then the second, and so on. The attachments are those
    whose reading ended, in their order. */
module FramePacking {

  datatype Frame = Frame(id: nat, size: nat)

  /** `limited`: reading the attachment reported a limitation of its own. */
  datatype Visual = Visual(frames: seq<Frame>, limited: bool)

  datatype MediaStatus = Loaded | PartiallyLoaded | Unavailable

  /** Frame `f` of attachment `a`. */
  datatype Slot = Slot(a: nat, f: nat)

  predicate IsSlot(visuals: seq<Visual>, s: Slot) {
    s.a < |visuals| && s.f < |visuals[s.a].frames|
  }

  function FrameAt(visuals: seq<Visual>, s: Slot): Frame {
    if IsSlot(visuals, s) then visuals[s.a].frames[s.f] else Frame(0, 0)
  }

  /** The turn of attachment `a` in a round, if it has a frame left. */
  function TurnOf(visuals: seq<Visual>, f: nat, a: nat): seq<Slot>
    requires a < |visuals|
  {
    if f < |visuals[a].frames| then [Slot(a, f)] else []
  }

  /** The f-th frames of the first `n` attachments. */
  function Round(visuals: seq<Visual>, f: nat, n: nat): (r: seq<Slot>)
    requires n <= |visuals|
    ensures forall s {:trigger s in r} :: s in r <==> s.a < n && s.f == f && IsSlot(visuals, s)
  {
    if n == 0 then []
    else Round(visuals, f, n - 1) + TurnOf(visuals, f, n - 1)
  }

  function Rounds(visuals: seq<Visual>, n: nat): (r: seq<Slot>)
    ensures forall s {:trigger s in r} :: s in r <==> s.f < n && IsSlot(visuals, s)
  {
    if n == 0 then [] else Rounds(visuals, n - 1) + Round(visuals, n - 1, |visuals|)
  }

  function MostFrames(visuals: seq<Visual>): (m: nat)
    ensures forall a | 0 <= a < |visuals| :: |visuals[a].frames| <= m
  {
    if visuals == [] then 0
    else
      var rest := MostFrames(visuals[..|visuals| - 1]);
      var last := |visuals[|visuals| - 1].frames|;
      if last > rest then last else rest
  }

  function Bytes(visuals: seq<Visual>, slots: seq<Slot>): nat {
    if slots == [] then 0
    else Bytes(visuals, slots[..|slots| - 1]) + FrameAt(visuals, slots[|slots| - 1]).size
  }

  /** Each slot in turn is taken if it still fits. */
  function Packed(visuals: seq<Visual>, slots: seq<Slot>, budget: nat): (r: seq<Slot>)
    ensures forall s {:trigger s in r} :: s in r ==> s in slots
  {
    if slots == [] then []
    else
      var taken := Packed(visuals, slots[..|slots| - 1], budget);
      var s := slots[|slots| - 1];
      if Bytes(visuals, taken) + FrameAt(visuals, s).size <= budget then taken + [s] else taken
  }

  function Payloads(visuals: seq<Visual>, slots: seq<Slot>): (r: seq<Frame>)
    ensures |r| == |slots|
    ensures forall i {:trigger r[i]} | 0 <= i < |slots| :: r[i] == FrameAt(visuals, slots[i])
  {
    if slots == [] then []
    else Payloads(visuals, slots[..|slots| - 1]) + [FrameAt(visuals, slots[|slots| - 1])]
  }

  /** The places, counted from 1, that attachment `a` has among the images. */
  function Indices(slots: seq<Slot>, a: nat): (r: seq<nat>)
    ensures forall n: nat {:trigger n in r} :: n in r <==> 1 <= n <= |slots| && slots[n - 1].a == a
    ensures forall i, j | 0 <= i < j < |r| :: r[i] < r[j]
  {
    if slots == [] then []
    else
      var before := Indices(slots[..|slots| - 1], a);
      assert forall i | 0 <= i < |before| :: before[i] in before;
      if slots[|slots| - 1].a == a then before + [|slots|] else before
  }

  /** Some frame of the attachment was left out. */
  predicate Omits(slots: seq<Slot>, taken: seq<Slot>, a: nat) {
    exists i | 0 <= i < |slots| :: slots[i].a == a && slots[i] !in taken
  }

  function StatusOf(v: Visual, indices: seq<nat>): MediaStatus {
    if indices == [] then Unavailable
    else if |indices| == |v.frames| && !v.limited then Loaded
    else PartiallyLoaded
  }

  // ---------------------------------------------------------------- what packing guarantees

  lemma PackedNext(visuals: seq<Visual>, slots: seq<Slot>, s: Slot, budget: nat)
    ensures Packed(visuals, slots + [s], budget) ==
            var taken := Packed(visuals, slots, budget);
            if Bytes(visuals, taken) + FrameAt(visuals, s).size <= budget then taken + [s] else taken
  {
    assert (slots + [s])[..|slots|] == slots;
  }

  lemma BytesNext(visuals: seq<Visual>, slots: seq<Slot>, s: Slot)
    ensures Bytes(visuals, slots + [s]) == Bytes(visuals, slots) + FrameAt(visuals, s).size
  {
    assert (slots + [s])[..|slots|] == slots;
  }

  /** The images together never exceed the budget. */
  lemma {:induction false} WithinBudget(visuals: seq<Visual>, slots: seq<Slot>, budget: nat)
    ensures Bytes(visuals, Packed(visuals, slots, budget)) <= budget
  {
    if slots != [] {
      WithinBudget(visuals, slots[..|slots| - 1], budget);
      BytesNext(visuals, Packed(visuals, slots[..|slots| - 1], budget), slots[|slots| - 1]);
    }
  }

  /** A frame that was left out does not fit at the end either. */
  lemma {:induction false} OmittedNeverFit(visuals: seq<Visual>, slots: seq<Slot>, budget: nat, s: Slot)
    requires s in slots && s !in Packed(visuals, slots, budget)
    ensures Bytes(visuals, Packed(visuals, slots, budget)) + FrameAt(visuals, s).size > budget
  {
    var n := |slots| - 1;
    var taken := Packed(visuals, slots[..n], budget);
    BytesNext(visuals, taken, slots[n]);
    if slots[n] != s {
      assert s in slots[..n] by {
        var i :| 0 <= i < |slots| && slots[i] == s;
        assert slots[..n][i] == s;
      }
      assert forall x | x in taken :: x in taken + [slots[n]];
      OmittedNeverFit(visuals, slots[..n], budget, s);
    }
  }

  predicate Turn(s: Slot, t: Slot) {
    s.f < t.f || (s.f == t.f && s.a < t.a)
  }

  ghost predicate InTurn(slots: seq<Slot>) {
    forall i, j | 0 <= i < j < |slots| :: Turn(slots[i], slots[j])
  }

  lemma {:induction false} RoundInTurn(visuals: seq<Visual>, f: nat, n: nat)
    requires n <= |visuals|
    ensures InTurn(Round(visuals, f, n))
  {
    if n > 0 {
      RoundInTurn(visuals, f, n - 1);
      var before := Round(visuals, f, n - 1);
      forall i | 0 <= i < |before| ensures before[i].a < n - 1 && before[i].f == f {
        assert before[i] in before;
      }
    }
  }

  lemma {:induction false} RoundsInTurn(visuals: seq<Visual>, n: nat)
    ensures InTurn(Rounds(visuals, n))
  {
    if n > 0 {
      RoundsInTurn(visuals, n - 1);
      RoundInTurn(visuals, n - 1, |visuals|);
      var before, round, r := Rounds(visuals, n - 1), Round(visuals, n - 1, |visuals|), Rounds(visuals, n);
      forall i | 0 <= i < |before| ensures before[i].f < n - 1 {
        assert before[i] in before;
      }
      forall j | 0 <= j < |round| ensures round[j].f == n - 1 {
        assert round[j] in round;
      }
      forall i, j | 0 <= i < j < |r| ensures Turn(r[i], r[j]) {
        assert r[i] == if i < |before| then before[i] else round[i - |before|];
        assert r[j] == if j < |before| then before[j] else round[j - |before|];
      }
    }
  }

  lemma {:induction false} PackedInTurn(visuals: seq<Visual>, slots: seq<Slot>, budget: nat)
    requires InTurn(slots)
    ensures InTurn(Packed(visuals, slots, budget))
  {
    if slots != [] {
      var n := |slots| - 1;
      PackedInTurn(visuals, slots[..n], budget);
      var taken := Packed(visuals, slots[..n], budget);
      forall i | 0 <= i < |taken| ensures Turn(taken[i], slots[n]) {
        assert taken[i] in taken;
        assert taken[i] in slots[..n];
        var k :| 0 <= k < n && slots[k] == taken[i];
      }
    }
  }

  /** Every frame gets its turn, and no frame is sent before one whose turn came earlier. */
  lemma RoundRobin(visuals: seq<Visual>, budget: nat, s: Slot)
    ensures var slots := Rounds(visuals, MostFrames(visuals));
            && (s in slots <==> IsSlot(visuals, s))
            && InTurn(slots)
            && InTurn(Packed(visuals, slots, budget))
  {
    var slots := Rounds(visuals, MostFrames(visuals));
    RoundsInTurn(visuals, MostFrames(visuals));
    PackedInTurn(visuals, slots, budget);
  }

  lemma {:induction false} IndicesCount(slots: seq<Slot>, a: nat, bound: nat)
    requires InTurn(slots) && forall i | 0 <= i < |slots| && slots[i].a == a :: slots[i].f < bound
    ensures |Indices(slots, a)| <= bound
    ensures |Indices(slots, a)| == bound ==> forall f | 0 <= f < bound :: Slot(a, f) in slots
    decreases |slots|
  {
    if slots != [] {
      var n := |slots| - 1;
      if slots[n].a == a {
        IndicesCount(slots[..n], a, slots[n].f);
        if |Indices(slots, a)| == bound {
          forall f | 0 <= f < bound ensures Slot(a, f) in slots {
            if f == slots[n].f {
              assert slots[n] == Slot(a, f);
            } else {
              assert Slot(a, f) in slots[..n];
            }
          }
        }
      } else {
        IndicesCount(slots[..n], a, bound);
        assert |Indices(slots, a)| == bound ==> forall f | 0 <= f < bound :: Slot(a, f) in slots[..n];
      }
    }
  }

  /** "loaded" is never said of an attachment with a frame missing from the images. */
  lemma LoadedMeansAll(visuals: seq<Visual>, budget: nat, a: nat, f: nat)
    requires a < |visuals| && f < |visuals[a].frames|
    requires var taken := Packed(visuals, Rounds(visuals, MostFrames(visuals)), budget);
             StatusOf(visuals[a], Indices(taken, a)) == Loaded
    ensures Slot(a, f) in Packed(visuals, Rounds(visuals, MostFrames(visuals)), budget) && !visuals[a].limited
  {
    var slots := Rounds(visuals, MostFrames(visuals));
    var taken := Packed(visuals, slots, budget);
    RoundRobin(visuals, budget, Slot(a, f));
    forall i | 0 <= i < |taken| && taken[i].a == a ensures taken[i].f < |visuals[a].frames| {
      assert taken[i] in taken;
    }
    IndicesCount(taken, a, |visuals[a].frames|);
  }

  lemma {:induction false} CountsAll(kept: seq<nat>, n: nat)
    requires forall f: nat | f < n :: f in kept
    ensures |kept| >= n
  {
    if n > 0 {
      var m: nat := n - 1;
      assert m in kept;
      var i :| 0 <= i < |kept| && kept[i] == m;
      var rest := kept[..i] + kept[i + 1..];
      forall f: nat | f < n - 1 ensures f in rest {
        assert f in kept;
        var k :| 0 <= k < |kept| && kept[k] == f;
        assert rest[if k < i then k else k - 1] == f;
      }
      CountsAll(rest, n - 1);
    }
  }

  /** What is said of an attachment: "unavailable" if and only if none of its frames is among
      the images; "loaded" if and only if it has frames, all of them are, and there is no
      limitation; and "partially loaded" in every other case. */
  lemma StatusSays(visuals: seq<Visual>, budget: nat, a: nat)
    requires a < |visuals|
    ensures var taken := Packed(visuals, Rounds(visuals, MostFrames(visuals)), budget);
            var status := StatusOf(visuals[a], Indices(taken, a));
            && (status == Unavailable <==> forall f | 0 <= f < |visuals[a].frames| :: Slot(a, f) !in taken)
            && (status == Loaded <==>
                  && visuals[a].frames != [] && !visuals[a].limited
                  && forall f | 0 <= f < |visuals[a].frames| :: Slot(a, f) in taken)
  {
    var taken := Packed(visuals, Rounds(visuals, MostFrames(visuals)), budget);
    var indices, frames := Indices(taken, a), visuals[a].frames;
    PackedIsOrdered(visuals, budget);
    forall i | 0 <= i < |taken| && taken[i].a == a ensures taken[i].f < |frames| {
      assert IsSlot(visuals, taken[i]);
    }
    IndicesCount(taken, a, |frames|);
    NoneCounted(visuals, taken, a);
    if forall f | 0 <= f < |frames| :: Slot(a, f) in taken {
      AllTakenAllCounted(taken, a, |frames|);
    }
  }

  lemma NoneCounted(visuals: seq<Visual>, taken: seq<Slot>, a: nat)
    requires a < |visuals| && AllSlots(visuals, taken)
    ensures Indices(taken, a) == [] <==> forall f | 0 <= f < |visuals[a].frames| :: Slot(a, f) !in taken
  {
    var indices := Indices(taken, a);
    if indices != [] {
      assert indices[0] in indices;
      var s := taken[indices[0] - 1];
      assert s == Slot(a, s.f) && s in taken && IsSlot(visuals, s);
    }
    if f :| 0 <= f < |visuals[a].frames| && Slot(a, f) in taken {
      var i :| 0 <= i < |taken| && taken[i] == Slot(a, f);
      var number: nat := i + 1;
      assert number in indices;
    }
  }

  lemma AllTakenAllCounted(taken: seq<Slot>, a: nat, n: nat)
    requires forall f: nat | f < n :: Slot(a, f) in taken
    ensures |Indices(taken, a)| >= n
  {
    var indices := Indices(taken, a);
    var kept := FramesAt(taken, indices);
    forall f: nat | f < n ensures f in kept {
      assert Slot(a, f) in taken;
      var i :| 0 <= i < |taken| && taken[i] == Slot(a, f);
      var number: nat := i + 1;
      assert number in indices;
      var k :| 0 <= k < |indices| && indices[k] == number;
      assert kept[k] == f;
    }
    CountsAll(kept, n);
  }

  // ---------------------------------------------------------------- the loops

  /** What the loops build: the images so far, where each attachment's are among them, and
      which attachments get the budget limitation. */
  datatype Packing = Packing(used: nat, payloads: seq<Frame>, indices: seq<seq<nat>>, omitted: seq<bool>)

  /** What is built when of the slots seen so far those were taken. */
  ghost predicate Holds(visuals: seq<Visual>, slots: seq<Slot>, taken: seq<Slot>, p: Packing) {
    && p.used == Bytes(visuals, taken)
    && p.payloads == Payloads(visuals, taken)
    && |p.indices| == |p.omitted| == |visuals|
    && (forall a | 0 <= a < |visuals| :: p.indices[a] == Indices(taken, a))
    && (forall a | 0 <= a < |visuals| :: p.omitted[a] <==> Omits(slots, taken, a))
  }

  ghost predicate Packs(visuals: seq<Visual>, slots: seq<Slot>, budget: nat, p: Packing) {
    Holds(visuals, slots, Packed(visuals, slots, budget), p)
  }

  /** One turn: the frame is taken and numbered if it still fits, else its attachment is
      marked. */
  function PackNext(p: Packing, a: nat, frame: Frame, budget: nat): (r: Packing)
    requires a < |p.indices| == |p.omitted|
    ensures |r.indices| == |r.omitted| == |p.indices|
  {
    if p.used + frame.size > budget then p.(omitted := p.omitted[a := true])
    else
      Packing(p.used + frame.size, p.payloads + [frame], p.indices[a := p.indices[a] + [|p.payloads| + 1]], p.omitted)
  }

  predicate AllSlots(visuals: seq<Visual>, slots: seq<Slot>) {
    forall i | 0 <= i < |slots| :: IsSlot(visuals, slots[i])
  }

  lemma RoundsAreSlots(visuals: seq<Visual>, n: nat)
    ensures AllSlots(visuals, Rounds(visuals, n))
  {
    var slots := Rounds(visuals, n);
    forall i | 0 <= i < |slots| ensures IsSlot(visuals, slots[i]) {
      assert slots[i] in slots;
    }
  }

  /** The turn of attachment `a`, if it has a frame left. */
  function AfterTurn(visuals: seq<Visual>, p: Packing, a: nat, f: nat, budget: nat): (r: Packing)
    requires a < |visuals| && |p.indices| == |p.omitted| == |visuals|
    ensures |r.indices| == |r.omitted| == |visuals|
  {
    if f < |visuals[a].frames| then PackNext(p, a, visuals[a].frames[f], budget) else p
  }

  /** What one round adds to what is there before. */
  function PackTurns(visuals: seq<Visual>, budget: nat, f: nat, n: nat, before: Packing): (p: Packing)
    requires n <= |visuals| && |before.indices| == |before.omitted| == |visuals|
    ensures |p.indices| == |p.omitted| == |visuals|
  {
    if n == 0 then before
    else AfterTurn(visuals, PackTurns(visuals, budget, f, n - 1, before), n - 1, f, budget)
  }

  lemma NextPacks(visuals: seq<Visual>, slots: seq<Slot>, s: Slot, budget: nat, p: Packing)
    requires Packs(visuals, slots, budget, p) && IsSlot(visuals, s) && s !in slots
    ensures Packs(visuals, slots + [s], budget, PackNext(p, s.a, FrameAt(visuals, s), budget))
  {
    if p.used + FrameAt(visuals, s).size > budget {
      Skipped(visuals, slots, s, budget, p);
    } else {
      Taken(visuals, slots, s, budget, p);
    }
  }

  lemma TurnPacks(visuals: seq<Visual>, slots: seq<Slot>, budget: nat, f: nat, a: nat, p: Packing)
    requires a < |visuals| && Packs(visuals, slots, budget, p) && Slot(a, f) !in slots
    ensures Packs(visuals, slots + TurnOf(visuals, f, a), budget, AfterTurn(visuals, p, a, f, budget))
  {
    if f < |visuals[a].frames| {
      NextPacks(visuals, slots, Slot(a, f), budget, p);
    } else {
      assert slots + [] == slots;
    }
  }

  predicate AllBefore(slots: seq<Slot>, f: nat) {
    forall s | s in slots :: s.f < f
  }

  lemma TurnIsNew(visuals: seq<Visual>, slots: seq<Slot>, f: nat, n: nat)
    requires 0 < n <= |visuals| && AllBefore(slots, f)
    ensures Slot(n - 1, f) !in slots + Round(visuals, f, n - 1)
    ensures slots + Round(visuals, f, n) == slots + Round(visuals, f, n - 1) + TurnOf(visuals, f, n - 1)
  {
  }

  /** A turn that is new keeps the property. */
  ghost predicate TurnsKeep(visuals: seq<Visual>, budget: nat, f: nat, good: (seq<Slot>, Packing) -> bool) {
    forall a: nat, earlier: seq<Slot>, p: Packing {:trigger AfterTurn(visuals, p, a, f, budget), good(earlier, p)} |
      a < |visuals| && |p.indices| == |p.omitted| == |visuals| && good(earlier, p) && Slot(a, f) !in earlier ::
      good(earlier + TurnOf(visuals, f, a), AfterTurn(visuals, p, a, f, budget))
  }

  lemma TurnKeeps(visuals: seq<Visual>, budget: nat, f: nat, a: nat, good: (seq<Slot>, Packing) -> bool, earlier: seq<Slot>,
                  p: Packing)
    requires TurnsKeep(visuals, budget, f, good) && a < |visuals| && |p.indices| == |p.omitted| == |visuals|
    requires good(earlier, p) && Slot(a, f) !in earlier
    ensures good(earlier + TurnOf(visuals, f, a), AfterTurn(visuals, p, a, f, budget))
  {
  }

  /** What every turn keeps, a round keeps. */
  lemma {:induction false} RoundKeeps(visuals: seq<Visual>, slots: seq<Slot>, budget: nat, f: nat, n: nat, before: Packing,
                                      good: (seq<Slot>, Packing) -> bool)
    requires n <= |visuals| && |before.indices| == |before.omitted| == |visuals|
    requires good(slots, before) && AllBefore(slots, f)
    requires TurnsKeep(visuals, budget, f, good)
    ensures good(slots + Round(visuals, f, n), PackTurns(visuals, budget, f, n, before))
  {
    if n == 0 {
      NoTurns(visuals, slots, f);
    } else {
      var earlier, p := slots + Round(visuals, f, n - 1), PackTurns(visuals, budget, f, n - 1, before);
      RoundKeeps(visuals, slots, budget, f, n - 1, before, good);
      TurnIsNew(visuals, slots, f, n);
      TurnKeeps(visuals, budget, f, n - 1, good, earlier, p);
    }
  }

  lemma NoTurns(visuals: seq<Visual>, slots: seq<Slot>, f: nat)
    ensures slots + Round(visuals, f, 0) == slots
  {
  }

  /** A round packs its slots after those of the rounds before. */
  lemma RoundPacks(visuals: seq<Visual>, slots: seq<Slot>, budget: nat, f: nat, before: Packing)
    requires Packs(visuals, slots, budget, before) && AllBefore(slots, f)
    ensures Packs(visuals, slots + Round(visuals, f, |visuals|), budget, PackTurns(visuals, budget, f, |visuals|, before))
  {
    var good := (taken: seq<Slot>, p: Packing) => Packs(visuals, taken, budget, p);
    forall a: nat, earlier: seq<Slot>, p: Packing |
      a < |visuals| && |p.indices| == |p.omitted| == |visuals| && good(earlier, p) && Slot(a, f) !in earlier
      ensures good(earlier + TurnOf(visuals, f, a), AfterTurn(visuals, p, a, f, budget))
    {
      TurnPacks(visuals, earlier, budget, f, a, p);
    }
    RoundKeeps(visuals, slots, budget, f, |visuals|, before, good);
  }

  lemma RoundsNext(visuals: seq<Visual>, n: nat)
    ensures Rounds(visuals, n + 1) == Rounds(visuals, n) + Round(visuals, n, |visuals|)
    ensures AllBefore(Rounds(visuals, n), n)
  {
  }

  /** The images an attachment is told are its own: some of its frames, in their order. */
  predicate OwnFrames(frames: seq<Frame>, payloads: seq<Frame>, indices: seq<nat>, kept: seq<nat>) {
    && |kept| == |indices|
    && (forall i | 0 <= i < |kept| :: kept[i] < |frames| && 1 <= indices[i] <= |payloads|)
    && (forall i, j | 0 <= i < j < |kept| :: kept[i] < kept[j] && indices[i] < indices[j])
    && (forall i | 0 <= i < |kept| :: payloads[indices[i] - 1] == frames[kept[i]])
  }

  ghost predicate FindsOwn(frames: seq<Frame>, payloads: seq<Frame>, indices: seq<nat>) {
    exists kept :: OwnFrames(frames, payloads, indices, kept)
  }

  predicate Given(indices: seq<seq<nat>>, n: nat, a: nat) {
    a < |indices| && n in indices[a]
  }

  ghost predicate IsGiven(indices: seq<seq<nat>>, n: nat) {
    exists a: nat :: Given(indices, n, a)
  }

  /** The images are numbered 1, 2, … and shared out: each number is given to exactly one
      attachment, which finds under its numbers its own frames, none twice and in order. */
  lemma {:induction false} IndicesPartition(visuals: seq<Visual>, budget: nat, p: Packing)
    requires Packs(visuals, Rounds(visuals, MostFrames(visuals)), budget, p)
    ensures forall n: nat :: IsGiven(p.indices, n) <==> 1 <= n <= |p.payloads|
    ensures forall n: nat, a: nat, b: nat | Given(p.indices, n, a) && Given(p.indices, n, b) :: a == b
    ensures forall a | 0 <= a < |visuals| :: FindsOwn(visuals[a].frames, p.payloads, p.indices[a])
  {
    var taken := Packed(visuals, Rounds(visuals, MostFrames(visuals)), budget);
    PackedIsOrdered(visuals, budget);
    NumbersShared(visuals, taken, p.indices);
    forall a | 0 <= a < |visuals| ensures FindsOwn(visuals[a].frames, p.payloads, p.indices[a]) {
      KeptFrames(visuals, taken, a);
    }
  }

  lemma {:induction false} PackedIsOrdered(visuals: seq<Visual>, budget: nat)
    ensures var taken := Packed(visuals, Rounds(visuals, MostFrames(visuals)), budget);
            InTurn(taken) && AllSlots(visuals, taken)
  {
    var slots := Rounds(visuals, MostFrames(visuals));
    RoundsInTurn(visuals, MostFrames(visuals));
    RoundsAreSlots(visuals, MostFrames(visuals));
    PackedInTurn(visuals, slots, budget);
    var taken := Packed(visuals, slots, budget);
    forall i | 0 <= i < |taken| ensures IsSlot(visuals, taken[i]) {
      assert taken[i] in taken && taken[i] in slots;
    }
  }

  /** Every place among the images taken is one number of its attachment. */
  lemma {:induction false} NumbersShared(visuals: seq<Visual>, taken: seq<Slot>, indices: seq<seq<nat>>)
    requires AllSlots(visuals, taken) && |indices| == |visuals|
    requires forall a | 0 <= a < |indices| :: indices[a] == Indices(taken, a)
    ensures forall n: nat :: IsGiven(indices, n) <==> 1 <= n <= |taken|
    ensures forall n: nat, a: nat, b: nat | Given(indices, n, a) && Given(indices, n, b) :: a == b
  {
    forall n: nat ensures IsGiven(indices, n) <==> 1 <= n <= |taken| {
      if 1 <= n <= |taken| {
        assert IsSlot(visuals, taken[n - 1]);
        assert Given(indices, n, taken[n - 1].a);
      }
    }
  }

  lemma {:induction false} KeptFrames(visuals: seq<Visual>, taken: seq<Slot>, a: nat)
    requires a < |visuals| && InTurn(taken) && AllSlots(visuals, taken)
    ensures FindsOwn(visuals[a].frames, Payloads(visuals, taken), Indices(taken, a))
  {
    var indices, payloads := Indices(taken, a), Payloads(visuals, taken);
    var kept := FramesAt(taken, indices);
    forall i | 0 <= i < |indices|
      ensures 1 <= indices[i] <= |taken| && taken[indices[i] - 1] == Slot(a, kept[i])
      ensures kept[i] < |visuals[a].frames| && payloads[indices[i] - 1] == visuals[a].frames[kept[i]]
    {
      assert indices[i] in indices;
      assert IsSlot(visuals, taken[indices[i] - 1]);
    }
    forall i, j | 0 <= i < j < |kept| ensures kept[i] < kept[j] {
      assert Turn(taken[indices[i] - 1], taken[indices[j] - 1]);
    }
    assert OwnFrames(visuals[a].frames, payloads, indices, kept);
  }

  /** The frames behind the numbers. */
  function FramesAt(taken: seq<Slot>, indices: seq<nat>): (r: seq<nat>)
    ensures |r| == |indices|
    ensures forall i {:trigger r[i]} | 0 <= i < |r| :: r[i] == if 1 <= indices[i] <= |taken| then taken[indices[i] - 1].f else 0
  {
    if indices == [] then []
    else
      var k := |indices| - 1;
      FramesAt(taken, indices[..k]) + [if 1 <= indices[k] <= |taken| then taken[indices[k] - 1].f else 0]
  }

  /** Packs round by round, attachment by attachment. */
  method Pack(visuals: seq<Visual>, budget: nat) returns (p: Packing)
    ensures Packs(visuals, Rounds(visuals, MostFrames(visuals)), budget, p)
  {
    p := Packing(0, [], NoIndices(|visuals|), NoneOmitted(|visuals|));
    NothingPacked(visuals, budget);
    var most := MostFrames(visuals);
    var f := 0;
    while f < most
      invariant f <= most
      invariant Packs(visuals, Rounds(visuals, f), budget, p)
    {
      ghost var before := p;
      p := PackRound(visuals, budget, f, p);
      RoundsNext(visuals, f);
      RoundPacks(visuals, Rounds(visuals, f), budget, f, before);
      f := f + 1;
    }
  }

  method PackFrame(visuals: seq<Visual>, budget: nat, a: nat, f: nat, before: Packing) returns (p: Packing)
    requires IsSlot(visuals, Slot(a, f)) && |before.indices| == |before.omitted| == |visuals|
    ensures p == PackNext(before, a, visuals[a].frames[f], budget)
  {
    p := before;
    var frame := visuals[a].frames[f];
    if p.used + frame.size > budget {
      p := p.(omitted := p.omitted[a := true]);
    } else {
      p := p.(used := p.used + frame.size, payloads := p.payloads + [frame]);
      p := p.(indices := p.indices[a := p.indices[a] + [|p.payloads|]]);
    }
  }

  /** The f-th frame of every attachment that has one. */
  method PackRound(visuals: seq<Visual>, budget: nat, f: nat, before: Packing) returns (p: Packing)
    requires |before.indices| == |before.omitted| == |visuals|
    ensures p == PackTurns(visuals, budget, f, |visuals|, before)
  {
    p := before;
    var a := 0;
    while a < |visuals|
      invariant a <= |visuals|
      invariant p == PackTurns(visuals, budget, f, a, before)
    {
      if f < |visuals[a].frames| {
        p := PackFrame(visuals, budget, a, f, p);
      }
      a := a + 1;
    }
  }

  function NoIndices(n: nat): (r: seq<seq<nat>>)
    ensures |r| == n && forall i | 0 <= i < n :: r[i] == []
  {
    if n == 0 then [] else NoIndices(n - 1) + [[]]
  }

  function NoneOmitted(n: nat): (r: seq<bool>)
    ensures |r| == n && forall i | 0 <= i < n :: !r[i]
  {
    if n == 0 then [] else NoneOmitted(n - 1) + [false]
  }

  lemma NothingPacked(visuals: seq<Visual>, budget: nat)
    ensures Packs(visuals, Rounds(visuals, 0), budget, Packing(0, [], NoIndices(|visuals|), NoneOmitted(|visuals|)))
  {
  }

  lemma Skipped(visuals: seq<Visual>, slots: seq<Slot>, s: Slot, budget: nat, p: Packing)
    requires Packs(visuals, slots, budget, p) && IsSlot(visuals, s) && s !in slots
    requires p.used + FrameAt(visuals, s).size > budget
    ensures Packs(visuals, slots + [s], budget, p.(omitted := p.omitted[s.a := true]))
  {
    PackedNext(visuals, slots, s, budget);
    SkippedHolds(visuals, slots, Packed(visuals, slots, budget), s, p);
  }

  lemma SkippedHolds(visuals: seq<Visual>, slots: seq<Slot>, taken: seq<Slot>, s: Slot, p: Packing)
    requires Holds(visuals, slots, taken, p) && IsSlot(visuals, s) && s !in slots && s !in taken
    ensures Holds(visuals, slots + [s], taken, p.(omitted := p.omitted[s.a := true]))
  {
    forall a | 0 <= a < |visuals| ensures p.omitted[s.a := true][a] <==> Omits(slots + [s], taken, a) {
      OmitsMore(slots, s, taken, taken, a);
    }
  }

  lemma OmitsMore(slots: seq<Slot>, s: Slot, taken: seq<Slot>, taken': seq<Slot>, a: nat)
    requires taken' == taken || taken' == taken + [s]
    requires s !in slots
    ensures Omits(slots + [s], taken', a) <==> Omits(slots, taken, a) || (s.a == a && s !in taken')
  {
    var slots' := slots + [s];
    forall i | 0 <= i < |slots| ensures slots'[i] == slots[i] && (slots[i] in taken' <==> slots[i] in taken) {
      assert slots[i] in slots;
      assert slots[i] != s;
    }
    if Omits(slots, taken, a) {
      var i :| 0 <= i < |slots| && slots[i].a == a && slots[i] !in taken;
      assert slots'[i].a == a;
    }
    if s.a == a && s !in taken' {
      assert slots'[|slots|] == s;
    }
  }

  lemma Taken(visuals: seq<Visual>, slots: seq<Slot>, s: Slot, budget: nat, p: Packing)
    requires Packs(visuals, slots, budget, p) && IsSlot(visuals, s) && s !in slots
    requires p.used + FrameAt(visuals, s).size <= budget
    ensures Packs(visuals, slots + [s], budget,
                  Packing(p.used + FrameAt(visuals, s).size, p.payloads + [FrameAt(visuals, s)],
                          p.indices[s.a := p.indices[s.a] + [|p.payloads| + 1]], p.omitted))
  {
    PackedNext(visuals, slots, s, budget);
    TakenHolds(visuals, slots, Packed(visuals, slots, budget), s, p);
  }

  lemma TakenHolds(visuals: seq<Visual>, slots: seq<Slot>, taken: seq<Slot>, s: Slot, p: Packing)
    requires Holds(visuals, slots, taken, p) && IsSlot(visuals, s) && s !in slots
    ensures Holds(visuals, slots + [s], taken + [s],
                  Packing(p.used + FrameAt(visuals, s).size, p.payloads + [FrameAt(visuals, s)],
                          p.indices[s.a := p.indices[s.a] + [|p.payloads| + 1]], p.omitted))
  {
    BytesNext(visuals, taken, s);
    PayloadsNext(visuals, taken, s);
    forall a | 0 <= a < |visuals|
      ensures p.indices[s.a := p.indices[s.a] + [|p.payloads| + 1]][a] == Indices(taken + [s], a)
    {
      IndicesNext(taken, s, a);
    }
    forall a | 0 <= a < |visuals| ensures p.omitted[a] <==> Omits(slots + [s], taken + [s], a) {
      OmitsMore(slots, s, taken, taken + [s], a);
    }
  }

  lemma PayloadsNext(visuals: seq<Visual>, slots: seq<Slot>, s: Slot)
    ensures Payloads(visuals, slots + [s]) == Payloads(visuals, slots) + [FrameAt(visuals, s)]
  {
    assert (slots + [s])[..|slots|] == slots;
  }

  lemma IndicesNext(slots: seq<Slot>, s: Slot, a: nat)
    ensures Indices(slots + [s], a) == Indices(slots, a) + (if s.a == a then [|slots| + 1] else [])
  {
    assert (slots + [s])[..|slots|] == slots;
  }
}
