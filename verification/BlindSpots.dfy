/** The automatic life of blind spots: opened for a report that only says "unknown", resolved
    by a concrete one, handed over or ended when reports change. A report and its fragment are one row. */
module BlindSpots {
  import opened Options
  import Conflicts

  /** The pairs of positions that lie within the radius; nothing but symmetry and reflexivity
      is ever used of them. */
  type Near = set<(nat, nat)>

  /** `text` is the normalised address. */
  datatype Place = Place(position: Option<nat>, text: nat)

  /** An address of nothing but white space. */
  const BLANK: nat := 0

  predicate SameLocation(near: Near, a: Place, b: Place) {
    if a.position.Some? && b.position.Some? then (a.position.value, b.position.value) in near
    else a.text != BLANK && a.text == b.text
  }

  ghost predicate Symmetric(near: Near) {
    forall x, y | (x, y) in near :: (y, x) in near
  }

  /** Each fragment's position is within the radius of itself. */
  ghost predicate Reflexive(near: Near, fragments: seq<Fragment>) {
    forall f | 0 <= f < |fragments| && fragments[f].v.place.position.Some? ::
      (fragments[f].v.place.position.value, fragments[f].v.place.position.value) in near
  }

  datatype Source = FromReport(deleted: bool, invalid: bool) | Other

  /** `rest` stands for the fields no decision here looks at. */
  datatype Fields = Fields(key: Option<nat>, claim: Conflicts.Claim, place: Place, received: int, rest: nat)

  datatype Fragment = Fragment(source: Source, status: Conflicts.FragmentStatus, revision: nat, v: Fields)

  datatype SpotStatus = Open | Reopened | Resolved

  datatype Outcome = NoOutcome | Claimed(value: nat) | Conflicting | Ended(reason: nat)

  /** `automatic` marks the spots detection makes. */
  datatype Spot = Spot(
    automatic: bool,
    key: nat,
    place: Place,
    status: SpotStatus,
    outcome: Outcome,
    origin: nat,
    resolver: Option<nat>,
    revision: nat)

  datatype Db = Db(incidentActive: bool, fragments: seq<Fragment>, spots: seq<Spot>)

  /** Neither withdrawn nor from a report that is deleted or invalid. */
  predicate Active(x: Fragment) {
    x.status != Conflicts.Withdrawn && (x.source.FromReport? ==> !x.source.deleted && !x.source.invalid)
  }

  predicate IsUnknown(x: Fragment) {
    x.v.claim == Conflicts.Unknown
  }

  // ---------------------------------------------------------------- a changed fragment

  /** Another active fragment on the spot's key and place. */
  predicate Nearby(near: Near, fragments: seq<Fragment>, f: nat, s: Spot, g: nat) {
    && g < |fragments| && g != f
    && fragments[g].v.key == Some(s.key)
    && Active(fragments[g]) && SameLocation(near, s.place, fragments[g].v.place)
  }

  predicate Replaces(near: Near, fragments: seq<Fragment>, f: nat, s: Spot, unknown: bool, g: nat) {
    Nearby(near, fragments, f, s, g) && (if unknown then IsUnknown(fragments[g]) else fragments[g].v.claim.Known?)
  }

  function FirstReplacement(near: Near, fragments: seq<Fragment>, f: nat, s: Spot, unknown: bool, n: nat): (r: Option<nat>)
    ensures r.Some? ==> r.value < n && Replaces(near, fragments, f, s, unknown, r.value)
    ensures forall g: nat {:trigger Replaces(near, fragments, f, s, unknown, g)} |
              g < n && Replaces(near, fragments, f, s, unknown, g) :: r.Some? && r.value <= g
  {
    if n == 0 then None
    else
      var before := FirstReplacement(near, fragments, f, s, unknown, n - 1);
      if before.Some? then before
      else if Replaces(near, fragments, f, s, unknown, n - 1) then Some(n - 1)
      else None
  }

  predicate StillResolves(near: Near, x: Fragment, s: Spot) {
    && x.v.key == Some(s.key)
    && x.v.claim.Known? && s.outcome == Claimed(x.v.claim.value)
    && Active(x) && SameLocation(near, s.place, x.v.place)
  }

  predicate StillUnknownHere(near: Near, x: Fragment, s: Spot) {
    x.v.key == Some(s.key) && IsUnknown(x) && Active(x) && SameLocation(near, s.place, x.v.place)
  }

  predicate OriginStands(fragments: seq<Fragment>, s: Spot) {
    s.origin < |fragments| && IsUnknown(fragments[s.origin]) && Active(fragments[s.origin])
  }

  function ResolvedBy(s: Spot, outcome: Outcome, f: nat): Spot {
    s.(status := Resolved, outcome := outcome, resolver := Some(f), revision := s.revision + 1)
  }

  /** A resolved spot whose resolver changed: still resolved, resolved by another, or
      open again; None when it stays as it is. */
  function ResolverChanged(near: Near, fragments: seq<Fragment>, f: nat, s: Spot): Option<Spot>
    requires f < |fragments|
  {
    var g := FirstReplacement(near, fragments, f, s, false, |fragments|);
    if g.Some? then Some(ResolvedBy(s, Claimed(fragments[g.value].v.claim.value), g.value))
    else if OriginStands(fragments, s) then
      Some(s.(status := Reopened, outcome := NoOutcome, resolver := None, revision := s.revision + 1))
    else None
  }

  /** An open spot whose origin changed. */
  function OriginChanged(near: Near, fragments: seq<Fragment>, f: nat, s: Spot, reason: nat): Spot
    requires f < |fragments|
  {
    var x := fragments[f];
    if StillUnknownHere(near, x, s) then s
    else if x.v.key == Some(s.key) && x.v.claim.Known? && Active(x) then ResolvedBy(s, Claimed(x.v.claim.value), f)
    else
      var g := FirstReplacement(near, fragments, f, s, true, |fragments|);
      if g.Some? then s.(origin := g.value, revision := s.revision + 1)
      else s.(status := Resolved, outcome := Ended(reason), revision := s.revision + 1)
  }

  /** What a change of fragment `f`, already written, does to one spot. */
  function Revised(near: Near, fragments: seq<Fragment>, f: nat, s: Spot, reason: nat): Spot
    requires f < |fragments|
  {
    if !s.automatic || (s.origin != f && s.resolver != Some(f)) then s
    else if s.status == Resolved then
      if s.resolver != Some(f) || StillResolves(near, fragments[f], s) then s
      else ResolverChanged(near, fragments, f, s).GetOr(s)
    else if s.origin != f then s
    else OriginChanged(near, fragments, f, s, reason)
  }

  function ReviseAll(near: Near, fragments: seq<Fragment>, f: nat, spots: seq<Spot>, reason: nat): (r: seq<Spot>)
    requires f < |fragments|
    ensures |r| == |spots|
    ensures forall k {:trigger r[k]} | 0 <= k < |spots| :: r[k] == Revised(near, fragments, f, spots[k], reason)
  {
    if spots == [] then []
    else
      var n := |spots| - 1;
      ReviseAll(near, fragments, f, spots[..n], reason) + [Revised(near, fragments, f, spots[n], reason)]
  }

  /** The spots a concrete claim resolves: open, automatic, of its key and at its place. */
  predicate Answers(near: Near, x: Fragment, s: Spot) {
    && x.v.key == Some(s.key) && x.v.claim.Known?
    && s.status != Resolved && s.automatic && SameLocation(near, x.v.place, s.place)
  }

  function ResolveAll(near: Near, fragments: seq<Fragment>, f: nat, spots: seq<Spot>, conflict: bool): (r: seq<Spot>)
    requires f < |fragments|
    ensures |r| == |spots|
    ensures forall k {:trigger r[k]} | 0 <= k < |spots| ::
              r[k] == if Answers(near, fragments[f], spots[k])
                      then ResolvedBy(spots[k], if conflict then Conflicting else Claimed(fragments[f].v.claim.value), f)
                      else spots[k]
  {
    if spots == [] then []
    else
      var n := |spots| - 1;
      ResolveAll(near, fragments, f, spots[..n], conflict) +
      [if Answers(near, fragments[f], spots[n])
       then ResolvedBy(spots[n], if conflict then Conflicting else Claimed(fragments[f].v.claim.value), f)
       else spots[n]]
  }

  // ---------------------------------------------------------------- detection

  /** A concrete report of the place, no older than the uncertain one. */
  predicate Informs(near: Near, fragments: seq<Fragment>, f: nat, g: nat)
    requires f < |fragments|
  {
    && g < |fragments| && g != f
    && fragments[f].v.key.Some? && fragments[g].v.key == fragments[f].v.key && fragments[g].v.claim.Known?
    && Active(fragments[g]) && fragments[f].v.received <= fragments[g].v.received
    && SameLocation(near, fragments[f].v.place, fragments[g].v.place)
  }

  /** Detection for this revision of fragment `f` is due and finds a gap. */
  predicate FindsGap(near: Near, db: Db, f: nat, revision: nat, due: int, now: int) {
    && db.incidentActive && f < |db.fragments|
    && db.fragments[f].source.FromReport? && db.fragments[f].revision == revision
    && db.fragments[f].v.key.Some? && IsUnknown(db.fragments[f])
    && (db.fragments[f].status == Conflicts.Normal || db.fragments[f].status == Conflicts.InConflict)
    && Active(db.fragments[f]) && due <= now
    && forall g: nat | g < |db.fragments| :: !Informs(near, db.fragments, f, g)
  }

  predicate Covers(near: Near, x: Fragment, s: Spot) {
    x.v.key == Some(s.key) && SameLocation(near, x.v.place, s.place)
  }

  function FirstCovering(near: Near, x: Fragment, spots: seq<Spot>): (r: Option<nat>)
    ensures r.Some? ==> r.value < |spots| && Covers(near, x, spots[r.value])
    ensures r.Some? ==> forall k | 0 <= k < r.value :: !Covers(near, x, spots[k])
    ensures r.None? ==> forall k | 0 <= k < |spots| :: !Covers(near, x, spots[k])
  {
    if spots == [] then None
    else
      var n := |spots| - 1;
      var before := FirstCovering(near, x, spots[..n]);
      if before.Some? then before else if Covers(near, x, spots[n]) then Some(n) else None
  }

  /** The spot already there is left alone, or reopened if it is automatic and resolved; a
      reopened spot keeps its old resolver. */
  function Detect(near: Near, db: Db, f: nat, revision: nat, due: int, now: int): Db {
    if !FindsGap(near, db, f, revision, due, now) then db
    else
      var x := db.fragments[f];
      match FirstCovering(near, x, db.spots)
      case Some(k) =>
        var s := db.spots[k];
        if !s.automatic || s.status != Resolved then db
        else db.(spots := db.spots[k := s.(status := Reopened, outcome := NoOutcome, origin := f, revision := s.revision + 1)])
      case None =>
        db.(spots := db.spots + [Spot(true, x.v.key.value, x.v.place, Open, NoOutcome, f, None, 1)])
  }

  // ---------------------------------------------------------------- transactions

  /** Reasons recorded when a spot ends without an answer. */
  const UPDATED: nat := 0
  const REMOVED: nat := 1

  function Edited(x: Fragment, v: Fields): Fragment {
    x.(status :=
         if x.status == Conflicts.Withdrawn || v.key != x.v.key || v.claim != x.v.claim || v.place != x.v.place
         then Conflicts.Normal else x.status,
       revision := x.revision + 1,
       v := v)
  }

  predicate Unchanged(x: Fragment, v: Fields) {
    x.status != Conflicts.Withdrawn && v == x.v
  }

  /** `certain` is false when the text asks a question outright: detection then runs in the
      same transaction. `Judge` is what conflicts do to a fragment: marked, released, or
      settled by a decision, withdrawn or not. `PutAnswer` writes the fragment of an answer,
      new or `answer`, and settles spot `k`, which its question serves: `consensus` is what
      the question's answers agree on, None when they disagree or are too few. */
  datatype Op =
    | CreateReport(v: Fields, certain: bool, conflict: bool, now: int)
    | EditReport(f: nat, restore: bool, v: Fields, certain: bool, conflict: bool, now: int)
    | RemoveReport(f: nat, deleted: bool)
    | RunJob(f: nat, revision: nat, due: int, now: int)
    | AddFragment(v: Fields)
    | Judge(f: nat, status: Conflicts.FragmentStatus, moves: bool)
    | CreateSpot(key: nat, place: Place)
    | SetIncident(active: bool)
    | PutAnswer(answer: Option<nat>, claim: Conflicts.Claim, at: Place, now: int, k: nat, consensus: Option<nat>)

  function SetFragment(db: Db, f: nat, x: Fragment): Db
    requires f < |db.fragments|
  {
    db.(fragments := db.fragments[f := x])
  }

  /** A first answer gets a fragment at the question's address; a later one keeps its address.
      Coordinates not given are the spot's, or the earlier ones. */
  function AnsweredFragments(fragments: seq<Fragment>, s: Spot, answer: Option<nat>, claim: Conflicts.Claim, at: Place, now: int,
                             agreed: bool): seq<Fragment>
    requires answer.Some? ==> answer.value < |fragments|
  {
    if answer.None? then
      var place := at.(position := if at.position.Some? then at.position else s.place.position);
      fragments + [Fragment(Other, if agreed then Conflicts.Accepted else Conflicts.Normal, 1, Fields(Some(s.key), claim, place, now, 0))]
    else
      var x := fragments[answer.value];
      var place := x.v.place.(position := if at.position.Some? then at.position else x.v.place.position);
      fragments[answer.value := x.(v := x.v.(claim := claim, place := place), revision := x.revision + 1,
                                   status := if agreed then Conflicts.Accepted else x.status)]
  }

  /** Resolved by a consensus; without one, a resolved spot is open again. */
  function AnsweredSpot(s: Spot, consensus: Option<nat>): Spot {
    if consensus.Some? then
      if s.status != Resolved || s.outcome != Claimed(consensus.value)
      then s.(status := Resolved, outcome := Claimed(consensus.value), revision := s.revision + 1) else s
    else if s.status == Resolved then s.(status := Open, outcome := NoOutcome, revision := s.revision + 1)
    else s
  }

  predicate MayAnswer(db: Db, answer: Option<nat>, k: nat) {
    k < |db.spots| && (answer.Some? ==> answer.value < |db.fragments| && db.fragments[answer.value].source.Other?)
  }

  function DetectNow(near: Near, db: Db, f: nat, certain: bool, now: int): Db
    requires f < |db.fragments|
  {
    if IsUnknown(db.fragments[f]) && !certain
    then Detect(near, db, f, db.fragments[f].revision, db.fragments[f].v.received, now)
    else db
  }

  function ResolveGaps(near: Near, db: Db, f: nat, conflict: bool): Db
    requires f < |db.fragments|
  {
    db.(spots := ResolveAll(near, db.fragments, f, db.spots, conflict))
  }

  /** A report was written again: fragment `f` becomes `x`. */
  function Rewritten(near: Near, db: Db, f: nat, x: Fragment, certain: bool, conflict: bool, now: int): Db
    requires f < |db.fragments|
  {
    var db1 := SetFragment(db, f, x);
    var db2 := db1.(spots := ReviseAll(near, db1.fragments, f, db1.spots, UPDATED));
    ResolveGaps(near, DetectNow(near, db2, f, certain, now), f, conflict)
  }

  function Pulled(x: Fragment, deleted: bool): Fragment
    requires x.source.FromReport?
  {
    x.(source := if deleted then x.source.(deleted := true) else x.source.(invalid := true),
       status := Conflicts.Withdrawn,
       revision := if x.status == Conflicts.Withdrawn then x.revision else x.revision + 1)
  }

  function Removed(near: Near, db: Db, f: nat, x: Fragment): Db
    requires f < |db.fragments|
  {
    var db1 := SetFragment(db, f, x);
    db1.(spots := ReviseAll(near, db1.fragments, f, db1.spots, REMOVED))
  }

  predicate Reachable(db: Db, f: nat) {
    f < |db.fragments| && db.fragments[f].source.FromReport? && !db.fragments[f].source.deleted
  }

  function Apply(near: Near, db: Db, op: Op): Db {
    match op
    case CreateReport(v, certain, conflict, now) =>
      var f := |db.fragments|;
      var db1 := db.(fragments := db.fragments + [Fragment(FromReport(false, false), Conflicts.Normal, 1, v)]);
      ResolveGaps(near, DetectNow(near, db1, f, certain, now), f, conflict)
    case EditReport(f, restore, v, certain, conflict, now) =>
      if !Reachable(db, f) then db
      else
        var x := if restore then db.fragments[f].(source := FromReport(false, false)) else db.fragments[f];
        if Unchanged(x, v) then DetectNow(near, SetFragment(db, f, x), f, certain, now)
        else Rewritten(near, db, f, Edited(x, v), certain, conflict, now)
    case RemoveReport(f, deleted) => if Reachable(db, f) then Removed(near, db, f, Pulled(db.fragments[f], deleted)) else db
    case RunJob(f, revision, due, now) => Detect(near, db, f, revision, due, now)
    case AddFragment(v) => db.(fragments := db.fragments + [Fragment(Other, Conflicts.Normal, 1, v)])
    case Judge(f, status, moves) =>
      if f < |db.fragments| && status != Conflicts.Withdrawn then
        var x := db.fragments[f];
        SetFragment(db, f, x.(status := status, revision := if moves then x.revision + 1 else x.revision))
      else db
    case CreateSpot(key, place) => db.(spots := db.spots + [Spot(false, key, place, Open, NoOutcome, 0, None, 1)])
    case SetIncident(active) => db.(incidentActive := active)
    case PutAnswer(answer, claim, at, now, k, consensus) =>
      if MayAnswer(db, answer, k) then
        db.(fragments := AnsweredFragments(db.fragments, db.spots[k], answer, claim, at, now, consensus.Some?),
            spots := db.spots[k := AnsweredSpot(db.spots[k], consensus)])
      else db
  }

  // ---------------------------------------------------------------- origins stay live

  /** An open automatic spot names an active fragment that still says "unknown". */
  predicate SpotLive(fragments: seq<Fragment>, s: Spot) {
    s.automatic && s.status != Resolved ==> OriginStands(fragments, s)
  }

  ghost predicate OriginsLive(db: Db) {
    forall k | 0 <= k < |db.spots| :: SpotLive(db.fragments, db.spots[k])
  }

  /** An open automatic spot other than `k` rests on the fragment. */
  predicate RestsElsewhere(db: Db, f: nat, k: nat) {
    exists j | 0 <= j < |db.spots| :: j != k && RestsOn(db.spots[j], f)
  }

  predicate RestsOn(s: Spot, f: nat) {
    s.automatic && s.status != Resolved && s.origin == f
  }

  /** What an answer write would have to check: an answer that is no longer "unknown" leaves
      no other open spot resting on its fragment, and an automatic spot it leaves open, or
      opens, has a standing origin. Every other step is harmless. */
  predicate Harmless(db: Db, op: Op) {
    op.PutAnswer? && MayAnswer(db, op.answer, op.k) ==>
      && (op.answer.Some? && op.claim != Conflicts.Unknown ==> !RestsElsewhere(db, op.answer.value, op.k))
      && (db.spots[op.k].automatic && op.consensus.None? ==>
            OriginStands(AnsweredFragments(db.fragments, db.spots[op.k], op.answer, op.claim, op.at, op.now, false), db.spots[op.k]))
  }

  lemma RevisedLive(near: Near, fragments: seq<Fragment>, f: nat, x: Fragment, s: Spot, reason: nat)
    requires f < |fragments| && SpotLive(fragments, s)
    ensures SpotLive(fragments[f := x], Revised(near, fragments[f := x], f, s, reason))
  {
  }

  lemma RevisedAllLive(near: Near, db: Db, f: nat, x: Fragment, reason: nat)
    requires f < |db.fragments| && OriginsLive(db)
    ensures var db1 := SetFragment(db, f, x);
            OriginsLive(db1.(spots := ReviseAll(near, db1.fragments, f, db1.spots, reason)))
  {
    var fragments := db.fragments[f := x];
    var spots := ReviseAll(near, fragments, f, db.spots, reason);
    forall k | 0 <= k < |spots| ensures SpotLive(fragments, spots[k]) {
      RevisedLive(near, db.fragments, f, x, db.spots[k], reason);
    }
  }

  lemma DetectLive(near: Near, db: Db, f: nat, revision: nat, due: int, now: int)
    requires OriginsLive(db)
    ensures OriginsLive(Detect(near, db, f, revision, due, now))
  {
    var db' := Detect(near, db, f, revision, due, now);
    forall k | 0 <= k < |db'.spots| ensures SpotLive(db'.fragments, db'.spots[k]) {
      if k < |db.spots| {
        assert SpotLive(db.fragments, db.spots[k]);
      }
    }
  }

  lemma ResolveLive(near: Near, db: Db, f: nat, conflict: bool)
    requires f < |db.fragments| && OriginsLive(db)
    ensures OriginsLive(ResolveGaps(near, db, f, conflict))
  {
    var db' := ResolveGaps(near, db, f, conflict);
    forall k | 0 <= k < |db'.spots| ensures SpotLive(db'.fragments, db'.spots[k]) {
      assert SpotLive(db.fragments, db.spots[k]);
    }
  }

  lemma FinishLive(near: Near, db: Db, f: nat, certain: bool, conflict: bool, now: int)
    requires f < |db.fragments| && OriginsLive(db)
    ensures OriginsLive(DetectNow(near, db, f, certain, now))
    ensures OriginsLive(ResolveGaps(near, DetectNow(near, db, f, certain, now), f, conflict))
  {
    DetectLive(near, db, f, db.fragments[f].revision, db.fragments[f].v.received, now);
    ResolveLive(near, DetectNow(near, db, f, certain, now), f, conflict);
  }

  lemma CreateReportLive(near: Near, db: Db, op: Op)
    requires OriginsLive(db) && op.CreateReport?
    ensures OriginsLive(Apply(near, db, op))
  {
    var db1 := db.(fragments := db.fragments + [Fragment(FromReport(false, false), Conflicts.Normal, 1, op.v)]);
    assert OriginsLive(db1) by {
      forall k | 0 <= k < |db1.spots| ensures SpotLive(db1.fragments, db1.spots[k]) {
        assert SpotLive(db.fragments, db.spots[k]);
      }
    }
    FinishLive(near, db1, |db.fragments|, op.certain, op.conflict, op.now);
  }

  lemma EditReportLive(near: Near, db: Db, op: Op)
    requires OriginsLive(db) && op.EditReport? && Reachable(db, op.f)
    ensures OriginsLive(Apply(near, db, op))
  {
    var x := if op.restore then db.fragments[op.f].(source := FromReport(false, false)) else db.fragments[op.f];
    if Unchanged(x, op.v) {
      var db1 := SetFragment(db, op.f, x);
      assert OriginsLive(db1) by {
        forall k | 0 <= k < |db1.spots| ensures SpotLive(db1.fragments, db1.spots[k]) {
          assert SpotLive(db.fragments, db.spots[k]);
        }
      }
      FinishLive(near, db1, op.f, op.certain, op.conflict, op.now);
    } else {
      var db1 := SetFragment(db, op.f, Edited(x, op.v));
      var db2 := db1.(spots := ReviseAll(near, db1.fragments, op.f, db1.spots, UPDATED));
      RevisedAllLive(near, db, op.f, Edited(x, op.v), UPDATED);
      FinishLive(near, db2, op.f, op.certain, op.conflict, op.now);
    }
  }

  lemma RemoveReportLive(near: Near, db: Db, op: Op)
    requires OriginsLive(db) && op.RemoveReport?
    ensures OriginsLive(Apply(near, db, op))
  {
    if Reachable(db, op.f) {
      RevisedAllLive(near, db, op.f, Pulled(db.fragments[op.f], op.deleted), REMOVED);
    }
  }

  lemma SmallStepLive(near: Near, db: Db, op: Op)
    requires OriginsLive(db)
    requires op.AddFragment? || op.Judge? || op.CreateSpot? || op.SetIncident?
    ensures OriginsLive(Apply(near, db, op))
  {
    var db' := Apply(near, db, op);
    forall k | 0 <= k < |db'.spots| ensures SpotLive(db'.fragments, db'.spots[k]) {
      if k < |db.spots| {
        assert SpotLive(db.fragments, db.spots[k]);
      }
    }
  }

  lemma OtherSpotLiveIff(db: Db, op: Op, j: nat)
    requires OriginsLive(db) && op.PutAnswer? && MayAnswer(db, op.answer, op.k) && j < |db.spots|
    ensures SpotLive(AnsweredFragments(db.fragments, db.spots[op.k], op.answer, op.claim, op.at, op.now, op.consensus.Some?), db.spots[j])
            <==> !(op.answer.Some? && op.claim != Conflicts.Unknown && RestsOn(db.spots[j], op.answer.value))
  {
    assert SpotLive(db.fragments, db.spots[j]);
  }

  /** The whole write, the answer's fragment and the spot its question serves, keeps every
      origin live exactly when it is harmless. */
  lemma PutAnswerLiveIff(near: Near, db: Db, op: Op)
    requires OriginsLive(db) && op.PutAnswer?
    ensures OriginsLive(Apply(near, db, op)) <==> Harmless(db, op)
  {
    if MayAnswer(db, op.answer, op.k) {
      var db', k := Apply(near, db, op), op.k;
      AnsweredSpotLiveIff(db, op);
      assert SpotLive(db'.fragments, db'.spots[k]) || !Harmless(db, op);
      if Harmless(db, op) {
        forall j | 0 <= j < |db'.spots| ensures SpotLive(db'.fragments, db'.spots[j]) {
          OtherSpotLiveIff(db, op, j);
          assert j != k && op.answer.Some? && op.claim != Conflicts.Unknown ==> !RestsOn(db.spots[j], op.answer.value);
        }
      } else if op.answer.Some? && op.claim != Conflicts.Unknown && RestsElsewhere(db, op.answer.value, k) {
        var j :| 0 <= j < |db.spots| && j != k && RestsOn(db.spots[j], op.answer.value);
        OtherSpotLiveIff(db, op, j);
        assert !SpotLive(db'.fragments, db'.spots[j]);
      }
    }
  }

  lemma AnsweredSpotLiveIff(db: Db, op: Op)
    requires op.PutAnswer? && MayAnswer(db, op.answer, op.k)
    ensures SpotLive(AnsweredFragments(db.fragments, db.spots[op.k], op.answer, op.claim, op.at, op.now, op.consensus.Some?),
                     AnsweredSpot(db.spots[op.k], op.consensus))
            <==> (db.spots[op.k].automatic && op.consensus.None? ==>
                    OriginStands(AnsweredFragments(db.fragments, db.spots[op.k], op.answer, op.claim, op.at, op.now, false),
                                 db.spots[op.k]))
  {
  }

  /** One step keeps the origins live if and only if it is harmless. */
  lemma StepLiveIff(near: Near, db: Db, op: Op)
    requires OriginsLive(db)
    ensures OriginsLive(Apply(near, db, op)) <==> Harmless(db, op)
  {
    match op
    case CreateReport(_, _, _, _) => CreateReportLive(near, db, op);
    case EditReport(f, _, _, _, _, _) => if Reachable(db, f) { EditReportLive(near, db, op); }
    case RemoveReport(_, _) => RemoveReportLive(near, db, op);
    case RunJob(f, revision, due, now) => DetectLive(near, db, f, revision, due, now);
    case PutAnswer(_, _, _, _, _, _) => PutAnswerLiveIff(near, db, op);
    case _ => SmallStepLive(near, db, op);
  }

  function Run(near: Near, db: Db, ops: seq<Op>): Db
    decreases |ops|
  {
    if ops == [] then db else Run(near, Apply(near, db, ops[0]), ops[1..])
  }

  /** Every step of the run is harmless where it is taken. */
  predicate HarmlessRun(near: Near, db: Db, ops: seq<Op>)
    decreases |ops|
  {
    ops != [] ==> Harmless(db, ops[0]) && HarmlessRun(near, Apply(near, db, ops[0]), ops[1..])
  }

  const EMPTY := Db(true, [], [])

  /** In every run the origin of every open automatic spot is live. */
  lemma {:induction false} OriginsStayLive(near: Near, db: Db, ops: seq<Op>)
    requires OriginsLive(db) && HarmlessRun(near, db, ops)
    ensures OriginsLive(Run(near, db, ops))
    decreases |ops|
  {
    if ops != [] {
      StepLiveIff(near, db, ops[0]);
      OriginsStayLive(near, Apply(near, db, ops[0]), ops[1..]);
    }
  }

  // ---------------------------------------------------------------- an answer that breaks it

  function Saying(claim: Conflicts.Claim): Fields {
    Fields(Some(0), claim, Place(None, 1), 0, 0)
  }

  /** A spot opened for a report is handed over to an answer's fragment when the report is
      deleted; written again as "known", where one answer is too few, the answer leaves the
      spot open and its origin gone. */
  lemma AnswerStrandsSpot()
    ensures var ops := [CreateReport(Saying(Conflicts.Unknown), false, false, 0),
                        PutAnswer(None, Conflicts.Unknown, Place(None, 1), 0, 0, None), RemoveReport(0, true),
                        PutAnswer(Some(1), Conflicts.Known(5), Place(None, 1), 0, 0, None)];
            && OriginsLive(Run({}, EMPTY, ops[..3])) && !OriginsLive(Run({}, EMPTY, ops))
  {
    var v := Saying(Conflicts.Unknown);
    var ops := [CreateReport(v, false, false, 0), PutAnswer(None, Conflicts.Unknown, Place(None, 1), 0, 0, None), RemoveReport(0, true)];
    var op := PutAnswer(Some(1), Conflicts.Known(5), Place(None, 1), 0, 0, None);
    var x, y := Fragment(FromReport(false, false), Conflicts.Normal, 1, v), Fragment(Other, Conflicts.Normal, 1, v);
    var gone := Fragment(FromReport(true, false), Conflicts.Withdrawn, 2, v);
    var s := Spot(true, 0, Place(None, 1), Open, NoOutcome, 0, None, 1);
    var s3 := Db(true, [gone, y], [s.(origin := 1, revision := 2)]);
    ThreeSteps(x, y, gone, s, [op]);
    ThreeSteps(x, y, gone, s, []);
    RunBegins({}, s3, op, []);
    assert [op] + [] == [op] && ops + [] == ops;
    assert ops + [op] == [ops[0]] + ([ops[1]] + ([ops[2]] + [op])) && ops == [ops[0]] + ([ops[1]] + ([ops[2]] + []));
    var all := [CreateReport(v, false, false, 0), PutAnswer(None, Conflicts.Unknown, Place(None, 1), 0, 0, None),
                RemoveReport(0, true), op];
    assert all == ops + [op] && all[..3] == ops;
    Stranded(s3, op);
  }

  lemma Added(s1: Db, y: Fragment)
    requires y == Fragment(Other, Conflicts.Normal, 1, Saying(Conflicts.Unknown)) && |s1.fragments| == 1
    requires |s1.spots| == 1 && s1.spots[0].key == 0 && s1.spots[0].place == Place(None, 1) && s1.spots[0].status == Open
    ensures Apply({}, s1, PutAnswer(None, Conflicts.Unknown, Place(None, 1), 0, 0, None)) == s1.(fragments := [s1.fragments[0], y])
  {
    assert s1.fragments + [y] == [s1.fragments[0], y];
    assert s1.spots[0 := s1.spots[0]] == s1.spots;
  }

  lemma Stranded(s3: Db, op: Op)
    requires op == PutAnswer(Some(1), Conflicts.Known(5), Place(None, 1), 0, 0, None)
    requires |s3.fragments| == 2 && s3.fragments[1] == Fragment(Other, Conflicts.Normal, 1, Saying(Conflicts.Unknown))
    requires |s3.spots| == 1 && s3.spots[0].automatic && s3.spots[0].status == Open && s3.spots[0].origin == 1
    ensures OriginsLive(s3) && !OriginsLive(Apply({}, s3, op))
  {
    assert SpotLive(s3.fragments, s3.spots[0]);
    assert !SpotLive(Apply({}, s3, op).fragments, Apply({}, s3, op).spots[0]);
  }

  lemma RunBegins(near: Near, db: Db, op: Op, rest: seq<Op>)
    ensures Run(near, db, [op] + rest) == Run(near, Apply(near, db, op), rest)
  {
    assert ([op] + rest)[1..] == rest;
  }

  lemma ThreeSteps(x: Fragment, y: Fragment, gone: Fragment, s: Spot, rest: seq<Op>)
    requires x == Fragment(FromReport(false, false), Conflicts.Normal, 1, Saying(Conflicts.Unknown))
    requires y == Fragment(Other, Conflicts.Normal, 1, Saying(Conflicts.Unknown))
    requires gone == Fragment(FromReport(true, false), Conflicts.Withdrawn, 2, Saying(Conflicts.Unknown))
    requires s == Spot(true, 0, Place(None, 1), Open, NoOutcome, 0, None, 1)
    ensures Run({}, EMPTY, [CreateReport(Saying(Conflicts.Unknown), false, false, 0)]
                           + ([PutAnswer(None, Conflicts.Unknown, Place(None, 1), 0, 0, None)] + ([RemoveReport(0, true)] + rest)))
            == Run({}, Db(true, [gone, y], [s.(origin := 1, revision := 2)]), rest)
  {
    var two := [RemoveReport(0, true)] + rest;
    var one := [PutAnswer(None, Conflicts.Unknown, Place(None, 1), 0, 0, None)] + two;
    FirstStep(x, s, one);
    SecondStep(Db(true, [x], [s]), y, two);
    ThirdStep(x, y, gone, s, rest);
  }

  lemma FirstStep(x: Fragment, s: Spot, rest: seq<Op>)
    requires x == Fragment(FromReport(false, false), Conflicts.Normal, 1, Saying(Conflicts.Unknown))
    requires s == Spot(true, 0, Place(None, 1), Open, NoOutcome, 0, None, 1)
    ensures Run({}, EMPTY, [CreateReport(Saying(Conflicts.Unknown), false, false, 0)] + rest) == Run({}, Db(true, [x], [s]), rest)
  {
    FirstSpot(x, s);
    RunBegins({}, EMPTY, CreateReport(Saying(Conflicts.Unknown), false, false, 0), rest);
  }

  lemma SecondStep(s1: Db, y: Fragment, rest: seq<Op>)
    requires y == Fragment(Other, Conflicts.Normal, 1, Saying(Conflicts.Unknown)) && |s1.fragments| == 1
    requires |s1.spots| == 1 && s1.spots[0].key == 0 && s1.spots[0].place == Place(None, 1) && s1.spots[0].status == Open
    ensures Run({}, s1, [PutAnswer(None, Conflicts.Unknown, Place(None, 1), 0, 0, None)] + rest)
            == Run({}, s1.(fragments := [s1.fragments[0], y]), rest)
  {
    Added(s1, y);
    RunBegins({}, s1, PutAnswer(None, Conflicts.Unknown, Place(None, 1), 0, 0, None), rest);
  }

  lemma ThirdStep(x: Fragment, y: Fragment, gone: Fragment, s: Spot, rest: seq<Op>)
    requires x == Fragment(FromReport(false, false), Conflicts.Normal, 1, Saying(Conflicts.Unknown))
    requires y == Fragment(Other, Conflicts.Normal, 1, Saying(Conflicts.Unknown))
    requires gone == Fragment(FromReport(true, false), Conflicts.Withdrawn, 2, Saying(Conflicts.Unknown))
    requires s == Spot(true, 0, Place(None, 1), Open, NoOutcome, 0, None, 1)
    ensures Run({}, Db(true, [x, y], [s]), [RemoveReport(0, true)] + rest)
            == Run({}, Db(true, [gone, y], [s.(origin := 1, revision := 2)]), rest)
  {
    HandedOver(x, y, gone, s);
    RunBegins({}, Db(true, [x, y], [s]), RemoveReport(0, true), rest);
  }

  lemma FirstSpot(x: Fragment, s: Spot)
    requires x == Fragment(FromReport(false, false), Conflicts.Normal, 1, Saying(Conflicts.Unknown))
    requires s == Spot(true, 0, Place(None, 1), Open, NoOutcome, 0, None, 1)
    ensures Apply({}, EMPTY, CreateReport(Saying(Conflicts.Unknown), false, false, 0)) == Db(true, [x], [s])
  {
    var db1 := Db(true, [x], []);
    assert [] + [x] == [x];
    assert FindsGap({}, db1, 0, 1, 0, 0);
    assert FirstCovering({}, x, []) == None;
    assert Detect({}, db1, 0, 1, 0, 0) == Db(true, [x], [s]);
    var r := ResolveAll({}, [x], 0, [s], false);
    assert r[0] == s;
    assert r == [s];
  }

  lemma HandedOver(x: Fragment, y: Fragment, gone: Fragment, s: Spot)
    requires x == Fragment(FromReport(false, false), Conflicts.Normal, 1, Saying(Conflicts.Unknown))
    requires y == Fragment(Other, Conflicts.Normal, 1, Saying(Conflicts.Unknown))
    requires gone == Fragment(FromReport(true, false), Conflicts.Withdrawn, 2, Saying(Conflicts.Unknown))
    requires s == Spot(true, 0, Place(None, 1), Open, NoOutcome, 0, None, 1)
    ensures Apply({}, Db(true, [x, y], [s]), RemoveReport(0, true)) == Db(true, [gone, y], [s.(origin := 1, revision := 2)])
  {
    var fragments := [gone, y];
    assert [x, y][0 := gone] == fragments;
    assert Replaces({}, fragments, 0, s, true, 1);
    assert FirstReplacement({}, fragments, 0, s, true, 2) == Some(1);
    var r := ReviseAll({}, fragments, 0, [s], REMOVED);
    assert r[0] == s.(origin := 1, revision := 2);
    assert r == [s.(origin := 1, revision := 2)];
  }

  // ---------------------------------------------------------------- no duplicates

  /** No two automatic spots of one key lie at one place. */
  ghost predicate Apart(near: Near, spots: seq<Spot>) {
    forall i, j | 0 <= i < j < |spots| && spots[i].automatic && spots[j].automatic && spots[i].key == spots[j].key ::
      !SameLocation(near, spots[j].place, spots[i].place)
  }

  /** Spots are never moved, rekeyed or relabelled. */
  ghost predicate SpotsKept(db: Db, db': Db) {
    && |db.spots| <= |db'.spots|
    && forall k | 0 <= k < |db.spots| ::
         db'.spots[k].automatic == db.spots[k].automatic && db'.spots[k].key == db.spots[k].key
         && db'.spots[k].place == db.spots[k].place
  }

  /** A step adds no spot, or one that is not automatic, or one away from all of its key. */
  ghost predicate Fresh(near: Near, db: Db, db': Db) {
    && SpotsKept(db, db')
    && |db'.spots| <= |db.spots| + 1
    && (|db.spots| < |db'.spots| && db'.spots[|db.spots|].automatic ==>
          forall k | 0 <= k < |db.spots| && db.spots[k].key == db'.spots[|db.spots|].key ::
            !SameLocation(near, db'.spots[|db.spots|].place, db.spots[k].place))
  }

  lemma FreshKeepsApart(near: Near, db: Db, db': Db)
    requires Apart(near, db.spots) && Fresh(near, db, db')
    ensures Apart(near, db'.spots)
  {
  }

  lemma DetectFresh(near: Near, db: Db, f: nat, revision: nat, due: int, now: int)
    ensures Fresh(near, db, Detect(near, db, f, revision, due, now))
  {
  }

  lemma ReviseKeepsSpots(near: Near, db: Db, f: nat, reason: nat)
    requires f < |db.fragments|
    ensures SpotsKept(db, db.(spots := ReviseAll(near, db.fragments, f, db.spots, reason)))
  {
    var spots := ReviseAll(near, db.fragments, f, db.spots, reason);
    forall k | 0 <= k < |db.spots|
      ensures spots[k].automatic == db.spots[k].automatic && spots[k].key == db.spots[k].key && spots[k].place == db.spots[k].place
    {
      assert spots[k] == Revised(near, db.fragments, f, db.spots[k], reason);
    }
  }

  lemma ResolveKeepsSpots(near: Near, db: Db, f: nat, conflict: bool)
    requires f < |db.fragments|
    ensures SpotsKept(db, ResolveGaps(near, db, f, conflict))
  {
    var db' := ResolveGaps(near, db, f, conflict);
    forall k | 0 <= k < |db.spots|
      ensures db'.spots[k].automatic == db.spots[k].automatic && db'.spots[k].key == db.spots[k].key
              && db'.spots[k].place == db.spots[k].place
    {
      assert db'.spots[k] == db.spots[k] || Answers(near, db.fragments[f], db.spots[k]);
    }
  }

  lemma KeptThenFresh(near: Near, db1: Db, db2: Db, db3: Db, db4: Db)
    requires SpotsKept(db1, db2) && |db2.spots| == |db1.spots|
    requires Fresh(near, db2, db3)
    requires SpotsKept(db3, db4) && |db4.spots| == |db3.spots|
    ensures Fresh(near, db1, db4)
  {
  }

  lemma FinishFresh(near: Near, db: Db, f: nat, certain: bool, conflict: bool, now: int)
    requires f < |db.fragments|
    ensures Fresh(near, db, DetectNow(near, db, f, certain, now))
    ensures Fresh(near, db, ResolveGaps(near, DetectNow(near, db, f, certain, now), f, conflict))
  {
    var db1 := DetectNow(near, db, f, certain, now);
    DetectFresh(near, db, f, db.fragments[f].revision, db.fragments[f].v.received, now);
    ResolveKeepsSpots(near, db1, f, conflict);
    KeptThenFresh(near, db, db, db1, ResolveGaps(near, db1, f, conflict));
  }

  lemma EditFresh(near: Near, db: Db, op: Op)
    requires op.EditReport? && Reachable(db, op.f)
    ensures Fresh(near, db, Apply(near, db, op))
  {
    var x := if op.restore then db.fragments[op.f].(source := FromReport(false, false)) else db.fragments[op.f];
    if Unchanged(x, op.v) {
      FinishFresh(near, SetFragment(db, op.f, x), op.f, op.certain, op.conflict, op.now);
    } else {
      var db1 := SetFragment(db, op.f, Edited(x, op.v));
      var db2 := db1.(spots := ReviseAll(near, db1.fragments, op.f, db1.spots, UPDATED));
      ReviseKeepsSpots(near, db1, op.f, UPDATED);
      FinishFresh(near, db2, op.f, op.certain, op.conflict, op.now);
      KeptThenFresh(near, db, db2, Apply(near, db, op), Apply(near, db, op));
    }
  }

  lemma StepFresh(near: Near, db: Db, op: Op)
    ensures Fresh(near, db, Apply(near, db, op))
  {
    match op
    case CreateReport(v, certain, conflict, now) =>
      FinishFresh(near, db.(fragments := db.fragments + [Fragment(FromReport(false, false), Conflicts.Normal, 1, v)]),
                  |db.fragments|, certain, conflict, now);
    case EditReport(f, _, _, _, _, _) => if Reachable(db, f) { EditFresh(near, db, op); }
    case RemoveReport(f, deleted) =>
      if Reachable(db, f) {
        ReviseKeepsSpots(near, SetFragment(db, f, Apply(near, db, op).fragments[f]), f, REMOVED);
      }
    case RunJob(f, revision, due, now) => DetectFresh(near, db, f, revision, due, now);
    case _ =>
  }

  lemma SameLocationSymmetric(near: Near, a: Place, b: Place)
    requires Symmetric(near)
    ensures SameLocation(near, a, b) == SameLocation(near, b, a)
  {
    if a.position.Some? && b.position.Some? {
      assert (a.position.value, b.position.value) in near <==> (b.position.value, a.position.value) in near;
    }
  }

  lemma {:induction false} RunApart(near: Near, db: Db, ops: seq<Op>)
    requires Apart(near, db.spots)
    ensures Apart(near, Run(near, db, ops).spots)
    decreases |ops|
  {
    if ops != [] {
      StepFresh(near, db, ops[0]);
      FreshKeepsApart(near, db, Apply(near, db, ops[0]));
      RunApart(near, Apply(near, db, ops[0]), ops[1..]);
    }
  }

  /** Detection never makes two spots of one key at one place, whatever else happens and
      however late or often its jobs run. */
  lemma NoDuplicateSpots(near: Near, ops: seq<Op>, i: nat, j: nat)
    requires Symmetric(near)
    requires var spots := Run(near, EMPTY, ops).spots;
             && i < |spots| && j < |spots| && i != j
             && spots[i].automatic && spots[j].automatic && spots[i].key == spots[j].key
    ensures var spots := Run(near, EMPTY, ops).spots; !SameLocation(near, spots[i].place, spots[j].place)
  {
    RunApart(near, EMPTY, ops);
    var spots := Run(near, EMPTY, ops).spots;
    SameLocationSymmetric(near, spots[i].place, spots[j].place);
  }

  // ---------------------------------------------------------------- running a job twice

  predicate HasLocation(p: Place) {
    p.position.Some? || p.text != BLANK
  }

  /** A second run right after the first changes nothing, unless the first finds a gap for a
      report with neither coordinates nor a written address. */
  lemma RerunChangesNothingIff(near: Near, db: Db, f: nat, revision: nat, due: int, now: int)
    requires Reflexive(near, db.fragments) && f < |db.fragments|
    ensures var once := Detect(near, db, f, revision, due, now);
            Detect(near, once, f, revision, due, now) == once
            <==> !FindsGap(near, db, f, revision, due, now) || HasLocation(db.fragments[f].v.place)
  {
    var once := Detect(near, db, f, revision, due, now);
    var x := db.fragments[f];
    if FindsGap(near, db, f, revision, due, now) {
      FindsGapAgain(near, db, once, f, revision, due, now);
      RerunAfterGap(near, db, f, revision, due, now);
    }
  }

  /** A written address is enough, whatever the coordinates. */
  lemma WrittenAddressNeverDuplicates(near: Near, db: Db, f: nat, revision: nat, due: int, now: int)
    requires Reflexive(near, db.fragments) && f < |db.fragments| && db.fragments[f].v.place.text != BLANK
    ensures var once := Detect(near, db, f, revision, due, now); Detect(near, once, f, revision, due, now) == once
  {
    RerunChangesNothingIff(near, db, f, revision, due, now);
  }

  lemma FindsGapAgain(near: Near, db: Db, once: Db, f: nat, revision: nat, due: int, now: int)
    requires FindsGap(near, db, f, revision, due, now) && once == db.(spots := once.spots)
    ensures FindsGap(near, once, f, revision, due, now)
  {
  }

  lemma RerunAfterGap(near: Near, db: Db, f: nat, revision: nat, due: int, now: int)
    requires Reflexive(near, db.fragments) && FindsGap(near, db, f, revision, due, now)
    requires FindsGap(near, Detect(near, db, f, revision, due, now), f, revision, due, now)
    ensures var once := Detect(near, db, f, revision, due, now);
            Detect(near, once, f, revision, due, now) == once <==> HasLocation(db.fragments[f].v.place)
  {
    if FirstCovering(near, db.fragments[f], db.spots).Some? {
      RerunOfCovered(near, db, f, revision, due, now);
    } else {
      RerunOfNew(near, db, f, revision, due, now);
    }
  }

  lemma CoversItself(near: Near, fragments: seq<Fragment>, f: nat, s: Spot)
    requires Reflexive(near, fragments) && f < |fragments| && s.place == fragments[f].v.place && fragments[f].v.key == Some(s.key)
    ensures Covers(near, fragments[f], s) <==> HasLocation(fragments[f].v.place)
  {
    if fragments[f].v.place.position.Some? {
      assert (fragments[f].v.place.position.value, fragments[f].v.place.position.value) in near;
    }
  }

  lemma RerunOfCovered(near: Near, db: Db, f: nat, revision: nat, due: int, now: int)
    requires Reflexive(near, db.fragments) && FindsGap(near, db, f, revision, due, now)
    requires FirstCovering(near, db.fragments[f], db.spots).Some?
    ensures var once := Detect(near, db, f, revision, due, now);
            Detect(near, once, f, revision, due, now) == once && HasLocation(db.fragments[f].v.place)
  {
    var once, k := Detect(near, db, f, revision, due, now), FirstCovering(near, db.fragments[f], db.spots).value;
    assert Covers(near, db.fragments[f], once.spots[k]);
    SameFirst(near, db.fragments[f], db.spots, once.spots, k);
  }

  lemma RerunOfNew(near: Near, db: Db, f: nat, revision: nat, due: int, now: int)
    requires Reflexive(near, db.fragments) && FindsGap(near, db, f, revision, due, now)
    requires FindsGap(near, Detect(near, db, f, revision, due, now), f, revision, due, now)
    requires FirstCovering(near, db.fragments[f], db.spots).None?
    ensures var once := Detect(near, db, f, revision, due, now);
            Detect(near, once, f, revision, due, now) == once <==> HasLocation(db.fragments[f].v.place)
  {
    var once, x, n := Detect(near, db, f, revision, due, now), db.fragments[f], |db.spots|;
    CoversItself(near, db.fragments, f, once.spots[n]);
    if HasLocation(x.v.place) {
      SameFirst(near, x, once.spots, once.spots, n);
    } else {
      assert FirstCovering(near, x, once.spots).None?;
    }
  }

  lemma SameFirst(near: Near, x: Fragment, spots: seq<Spot>, spots': seq<Spot>, k: nat)
    requires k < |spots'| && Covers(near, x, spots'[k])
    requires |spots| == |spots'|
    requires forall i | 0 <= i < k :: !Covers(near, x, spots[i]) && spots'[i] == spots[i]
    ensures FirstCovering(near, x, spots') == Some(k)
  {
  }

  /** The family is not empty: every run of a job for such a report makes another spot. */
  lemma BlankAddressDuplicates(near: Near, db: Db, f: nat, revision: nat, due: int, now: int)
    requires FindsGap(near, db, f, revision, due, now) && !HasLocation(db.fragments[f].v.place)
    ensures var twice := Detect(near, Detect(near, db, f, revision, due, now), f, revision, due, now);
            && |twice.spots| == |db.spots| + 2
            && twice.spots[|db.spots|] == twice.spots[|db.spots| + 1]
  {
    var once := Detect(near, db, f, revision, due, now);
    assert forall s: Spot :: !Covers(near, db.fragments[f], s);
    FindsGapAgain(near, db, once, f, revision, due, now);
  }

  // ---------------------------------------------------------------- gaps and answers

  /** A spot is handed on only to an active fragment of its key at its place, with the claim
      it is resolved by; it ends, or keeps a resolver that no longer says so, only when no
      such fragment is left. */
  lemma HandoverIsSound(near: Near, fragments: seq<Fragment>, f: nat, s: Spot, reason: nat)
    requires f < |fragments| && s.automatic
    ensures var s' := Revised(near, fragments, f, s, reason);
            && (s'.origin != s.origin ==> s.origin == f && Replaces(near, fragments, f, s, true, s'.origin))
            && (s.status == Resolved == s'.status && s'.resolver != s.resolver ==>
                  && s'.resolver.Some? && Replaces(near, fragments, f, s, false, s'.resolver.value)
                  && s'.outcome == Claimed(fragments[s'.resolver.value].v.claim.value))
            && (s.status == Resolved == s'.status && s'.resolver == s.resolver == Some(f) ==>
                  StillResolves(near, fragments[f], s)
                  || (!OriginStands(fragments, s)
                      && forall g: nat | g < |fragments| :: !Replaces(near, fragments, f, s, false, g)))
            && (s.status != Resolved && s'.outcome == Ended(reason) && s'.status == Resolved ==>
                  !StillUnknownHere(near, fragments[f], s)
                  && forall g: nat | g < |fragments| :: !Replaces(near, fragments, f, s, true, g))
  {
  }

  /** A concrete report leaves no open automatic spot of its key at its place. */
  lemma ConcreteReportClosesGaps(near: Near, db: Db, f: nat, x: Fragment, certain: bool, conflict: bool, now: int, k: nat)
    requires f < |db.fragments| && x.v.claim.Known?
    requires k < |Rewritten(near, db, f, x, certain, conflict, now).spots|
    ensures var s := Rewritten(near, db, f, x, certain, conflict, now).spots[k];
            s.automatic && Covers(near, x, s) ==> s.status == Resolved
  {
  }

  /** The report, new or edited: its fragment and the value it takes. */
  predicate WritesReport(db: Db, op: Op, f: nat, x: Fragment) {
    || (op.CreateReport? && f == |db.fragments| && x == Fragment(FromReport(false, false), Conflicts.Normal, 1, op.v))
    || (op.EditReport? && f == op.f && Reachable(db, f)
        && var y := if op.restore then db.fragments[f].(source := FromReport(false, false)) else db.fragments[f];
           !Unchanged(y, op.v) && x == Edited(y, op.v))
  }

  lemma WrittenSpots(near: Near, db: Db, op: Op, f: nat, x: Fragment, k: nat)
    requires WritesReport(db, op, f, x) && x.v.claim.Known? && k < |db.spots|
    ensures var r := Apply(near, db, op);
            && |r.spots| == |db.spots| && f < |r.fragments| && r.fragments[f] == x
            && var s := if op.EditReport? then Revised(near, r.fragments, f, db.spots[k], UPDATED) else db.spots[k];
               r.spots[k] == if Answers(near, x, s)
                             then ResolvedBy(s, if op.conflict then Conflicting else Claimed(x.v.claim.value), f) else s
  {
    if op.EditReport? {
      EditWrites(near, db, op);
    }
  }

  /** A concrete report, new or edited, leaves alone what is not its own: a spot that no
      detection made, of another key or at another place, that it neither opened nor
      resolved. */
  lemma ConcreteReportSparesOthers(near: Near, db: Db, op: Op, f: nat, x: Fragment, k: nat)
    requires WritesReport(db, op, f, x) && x.v.claim.Known? && k < |db.spots|
    requires !db.spots[k].automatic || !Covers(near, x, db.spots[k])
    requires db.spots[k].origin != f && db.spots[k].resolver != Some(f)
    ensures |Apply(near, db, op).spots| == |db.spots| && Apply(near, db, op).spots[k] == db.spots[k]
  {
    WrittenSpots(near, db, op, f, x, k);
  }

  /** It resolves every open spot of detection at its place, with itself as resolver: as
      conflicting if it contradicts others, else with its claim. One it had opened itself
      takes its claim, if the report stands. */
  lemma ConcreteReportResolves(near: Near, db: Db, op: Op, f: nat, x: Fragment, k: nat)
    requires WritesReport(db, op, f, x) && x.v.claim.Known? && k < |db.spots|
    requires db.spots[k].automatic && db.spots[k].status != Resolved && Covers(near, x, db.spots[k])
    requires db.spots[k].origin != f || Active(x) || op.CreateReport?
    ensures |Apply(near, db, op).spots| == |db.spots|
    ensures var s := Apply(near, db, op).spots[k];
            && s.status == Resolved && s.resolver == Some(f) && s.revision == db.spots[k].revision + 1
            && s.outcome == (if op.conflict && (db.spots[k].origin != f || op.CreateReport?) then Conflicting else Claimed(x.v.claim.value))
            && s.key == db.spots[k].key && s.place == db.spots[k].place && s.origin == db.spots[k].origin
  {
    WrittenSpots(near, db, op, f, x, k);
  }

  /** A job that is due and finds a gap leaves a spot there: open, or one that detection
      may not touch because an operator made it. */
  lemma DetectionLeavesASpot(near: Near, db: Db, f: nat, revision: nat, due: int, now: int)
    requires FindsGap(near, db, f, revision, due, now) && Reflexive(near, db.fragments) && HasLocation(db.fragments[f].v.place)
    ensures exists k | 0 <= k < |Detect(near, db, f, revision, due, now).spots| ::
              var s := Detect(near, db, f, revision, due, now).spots[k];
              Covers(near, db.fragments[f], s) && (s.automatic ==> s.status != Resolved)
  {
    var x, db' := db.fragments[f], Detect(near, db, f, revision, due, now);
    match FirstCovering(near, x, db.spots)
    case Some(k) =>
      assert Covers(near, x, db'.spots[k]);
    case None =>
      if x.v.place.position.Some? {
        assert (x.v.place.position.value, x.v.place.position.value) in near;
      }
      assert Covers(near, x, db'.spots[|db.spots|]);
  }

  // ---------------------------------------------------------------- invalid reports

  /** The fragment of a report that is deleted or invalid is withdrawn. */
  predicate OutOk(x: Fragment) {
    x.source.FromReport? && (x.source.deleted || x.source.invalid) ==> x.status == Conflicts.Withdrawn
  }

  ghost predicate AllOut(db: Db) {
    forall f | 0 <= f < |db.fragments| :: OutOk(db.fragments[f])
  }

  /** An invalid report is edited but not restored, or a decision settles the fragment of a
      report that does not stand. */
  predicate BringsBack(db: Db, op: Op) {
    || (op.EditReport? && !op.restore && Reachable(db, op.f) && db.fragments[op.f].source.invalid)
    || (op.Judge? && op.f < |db.fragments| && op.status != Conflicts.Withdrawn
        && db.fragments[op.f].source.FromReport? && (db.fragments[op.f].source.deleted || db.fragments[op.f].source.invalid))
  }

  lemma OneFragmentOut(db: Db, f: nat, x: Fragment)
    requires AllOut(db) && f < |db.fragments|
    ensures AllOut(SetFragment(db, f, x)) <==> OutOk(x)
  {
    assert SetFragment(db, f, x).fragments[f] == x;
  }

  lemma EditWrites(near: Near, db: Db, op: Op)
    requires op.EditReport? && Reachable(db, op.f)
    ensures var x := if op.restore then db.fragments[op.f].(source := FromReport(false, false)) else db.fragments[op.f];
            Apply(near, db, op).fragments == db.fragments[op.f := if Unchanged(x, op.v) then x else Edited(x, op.v)]
  {
  }

  /** A step leaves the fragment of every deleted or invalid report withdrawn if and only if
      it brings none back. Brought back, it stays inactive for blind spots. */
  lemma StaysOutIff(near: Near, db: Db, op: Op)
    requires AllOut(db)
    ensures AllOut(Apply(near, db, op)) <==> !BringsBack(db, op)
    ensures BringsBack(db, op) ==> !Active(Apply(near, db, op).fragments[op.f])
  {
    if op.EditReport? && Reachable(db, op.f) {
      var x := if op.restore then db.fragments[op.f].(source := FromReport(false, false)) else db.fragments[op.f];
      assert OutOk(db.fragments[op.f]);
      EditWrites(near, db, op);
      OneFragmentOut(db, op.f, if Unchanged(x, op.v) then x else Edited(x, op.v));
    } else if op.Judge? && op.f < |db.fragments| && op.status != Conflicts.Withdrawn {
      OneFragmentOut(db, op.f, Apply(near, db, op).fragments[op.f]);
    } else {
      OtherStepsOut(near, db, op);
    }
  }

  lemma OtherStepsOut(near: Near, db: Db, op: Op)
    requires AllOut(db)
    requires !(op.EditReport? && Reachable(db, op.f)) && !(op.Judge? && op.f < |db.fragments| && op.status != Conflicts.Withdrawn)
    ensures AllOut(Apply(near, db, op))
  {
    var db' := Apply(near, db, op);
    forall f | 0 <= f < |db'.fragments| ensures OutOk(db'.fragments[f]) {
      assert f < |db.fragments| ==> OutOk(db.fragments[f]);
    }
  }

  /** A job for a revision the report has left behind does nothing. */
  lemma OutdatedJobDoesNothing(near: Near, db: Db, op: Op, job: Op)
    requires op.EditReport? && Reachable(db, op.f) && job.RunJob? && job.f == op.f
    requires job.revision <= db.fragments[op.f].revision
    requires var x := if op.restore then db.fragments[op.f].(source := FromReport(false, false)) else db.fragments[op.f];
             !Unchanged(x, op.v)
    ensures Apply(near, Apply(near, db, op), job) == Apply(near, db, op)
  {
    var db' := Apply(near, db, op);
    EditWrites(near, db, op);
    assert job.revision < db'.fragments[op.f].revision;
    OutdatedFindsNothing(near, db', op.f, job.revision, job.due, job.now);
  }

  lemma OutdatedFindsNothing(near: Near, db: Db, f: nat, revision: nat, due: int, now: int)
    requires f < |db.fragments| && revision != db.fragments[f].revision
    ensures Detect(near, db, f, revision, due, now) == db
  {
  }
}
