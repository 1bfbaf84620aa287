/** What each step does to a spot or a fragment, in terms of what they say: which spots a
    changed report moves and where to, when a gap is found, what a write stores. */
module BlindSpotSteps {
  import opened Options
  import opened BlindSpots
  import Conflicts

  /** The fragment counts: it is not withdrawn, nor its report deleted or invalid. */
  predicate Counts(x: Fragment) {
    x.status != Conflicts.Withdrawn && (x.source.FromReport? ==> !x.source.deleted && !x.source.invalid)
  }

  /** It counts, and is about the spot's key at its place. */
  predicate SpeaksOf(near: Near, x: Fragment, s: Spot) {
    Counts(x) && x.v.key == Some(s.key) && SameLocation(near, s.place, x.v.place)
  }

  /** Another fragment that speaks of the spot, and says "unknown" or something definite. */
  predicate Alternative(near: Near, fragments: seq<Fragment>, f: nat, s: Spot, unknown: bool, g: nat) {
    && g < |fragments| && g != f && SpeaksOf(near, fragments[g], s)
    && (if unknown then fragments[g].v.claim == Conflicts.Unknown else fragments[g].v.claim.Known?)
  }

  ghost predicate HasAlternative(near: Near, fragments: seq<Fragment>, f: nat, s: Spot, unknown: bool) {
    exists g: nat :: Alternative(near, fragments, f, s, unknown, g)
  }

  /** Two places are one if their coordinates lie within the radius, or, when one has none, if
      their addresses are written and the same. */
  lemma SamePlace(near: Near, a: Place, b: Place)
    ensures a.position.Some? && b.position.Some? ==>
              (SameLocation(near, a, b) <==> (a.position.value, b.position.value) in near)
    ensures a.position.None? || b.position.None? ==> (SameLocation(near, a, b) <==> a.text == b.text && a.text != BLANK)
  {
  }

  lemma ReplacementIsAlternative(near: Near, fragments: seq<Fragment>, f: nat, s: Spot, unknown: bool, g: nat)
    ensures Replaces(near, fragments, f, s, unknown, g) <==> Alternative(near, fragments, f, s, unknown, g)
  {
  }

  /** The first replacement is the first alternative, and there is one exactly when there is
      an alternative. */
  lemma FirstIsAlternative(near: Near, fragments: seq<Fragment>, f: nat, s: Spot, unknown: bool)
    ensures var g := FirstReplacement(near, fragments, f, s, unknown, |fragments|);
            && (g.Some? <==> HasAlternative(near, fragments, f, s, unknown))
            && (g.Some? ==> Alternative(near, fragments, f, s, unknown, g.value))
  {
    var g := FirstReplacement(near, fragments, f, s, unknown, |fragments|);
    if h: nat :| Alternative(near, fragments, f, s, unknown, h) {
      ReplacementIsAlternative(near, fragments, f, s, unknown, h);
    }
    if g.Some? {
      ReplacementIsAlternative(near, fragments, f, s, unknown, g.value);
    }
  }

  // ---------------------------------------------------------------- what a changed report does to a spot

  /** A spot keeps as it is if no detection made it, or the changed report neither resolves it
      while it is resolved nor opened it while it is open. */
  lemma SpotLeftAlone(near: Near, fragments: seq<Fragment>, f: nat, s: Spot, reason: nat)
    requires f < |fragments|
    requires !s.automatic || (if s.status == Resolved then s.resolver != Some(f) else s.origin != f)
    ensures Revised(near, fragments, f, s, reason) == s
  {
  }

  /** An open spot whose origin changed: it stays while the origin still says "unknown" there;
      takes the origin's claim if that is definite now; is handed to another fragment that
      says "unknown" there; and ends for the reason given only if there is none. */
  lemma OpenSpotRevised(near: Near, fragments: seq<Fragment>, f: nat, s: Spot, reason: nat)
    requires f < |fragments| && s.automatic && s.status != Resolved && s.origin == f
    ensures var x, s' := fragments[f], Revised(near, fragments, f, s, reason);
            if x.v.claim == Conflicts.Unknown && SpeaksOf(near, x, s) then s' == s
            else if x.v.claim.Known? && Counts(x) && x.v.key == Some(s.key) then
              s' == s.(status := Resolved, outcome := Claimed(x.v.claim.value), resolver := Some(f), revision := s.revision + 1)
            else if HasAlternative(near, fragments, f, s, true) then
              Alternative(near, fragments, f, s, true, s'.origin) && s' == s.(origin := s'.origin, revision := s.revision + 1)
            else s' == s.(status := Resolved, outcome := Ended(reason), revision := s.revision + 1)
  {
    FirstIsAlternative(near, fragments, f, s, true);
  }

  /** A resolved spot whose resolver changed: it stays while the resolver still says so there;
      takes the claim of another fragment that is definite there; opens again if there is
      none and its origin still says "unknown"; and else stays. */
  lemma ResolvedSpotRevised(near: Near, fragments: seq<Fragment>, f: nat, s: Spot, reason: nat)
    requires f < |fragments| && s.automatic && s.status == Resolved && s.resolver == Some(f)
    ensures var x, s' := fragments[f], Revised(near, fragments, f, s, reason);
            if x.v.claim.Known? && s.outcome == Claimed(x.v.claim.value) && SpeaksOf(near, x, s) then s' == s
            else if HasAlternative(near, fragments, f, s, false) then
              && s'.resolver.Some? && Alternative(near, fragments, f, s, false, s'.resolver.value)
              && s' == s.(outcome := Claimed(fragments[s'.resolver.value].v.claim.value), resolver := s'.resolver,
                          revision := s.revision + 1)
            else if s.origin < |fragments| && fragments[s.origin].v.claim == Conflicts.Unknown && Counts(fragments[s.origin]) then
              s' == s.(status := Reopened, outcome := NoOutcome, resolver := None, revision := s.revision + 1)
            else s' == s
  {
    FirstIsAlternative(near, fragments, f, s, false);
  }

  // ---------------------------------------------------------------- when a gap is found

  /** Another fragment that counts tells the key's value there, no earlier than this one. */
  predicate Answered(near: Near, fragments: seq<Fragment>, f: nat, g: nat)
    requires f < |fragments|
  {
    && g < |fragments| && g != f && Counts(fragments[g]) && fragments[g].v.claim.Known?
    && fragments[f].v.key.Some? && fragments[g].v.key == fragments[f].v.key
    && fragments[g].v.received >= fragments[f].v.received
    && SameLocation(near, fragments[f].v.place, fragments[g].v.place)
  }

  /** Detection is called for: the incident is active, the report stands and says "unknown" of
      a key in this revision, its time has come, and nobody has told since. */
  ghost predicate Gap(near: Near, db: Db, f: nat, revision: nat, due: int, now: int) {
    && db.incidentActive && due <= now && f < |db.fragments|
    && db.fragments[f].source.FromReport? && Counts(db.fragments[f])
    && db.fragments[f].status in {Conflicts.Normal, Conflicts.InConflict}
    && db.fragments[f].revision == revision && db.fragments[f].v.key.Some? && db.fragments[f].v.claim == Conflicts.Unknown
    && forall g: nat {:trigger Answered(near, db.fragments, f, g)} :: !Answered(near, db.fragments, f, g)
  }

  lemma GapIsFound(near: Near, db: Db, f: nat, revision: nat, due: int, now: int)
    ensures FindsGap(near, db, f, revision, due, now) <==> Gap(near, db, f, revision, due, now)
  {
    if f < |db.fragments| && db.fragments[f].v.key.Some? {
      forall g: nat ensures Informs(near, db.fragments, f, g) == Answered(near, db.fragments, f, g) {
      }
    }
  }

  /** A gap that no spot of its key covers gets a new one, which names the report; one that a
      resolved spot of detection covers opens the first such spot again, for the report. */
  lemma DetectionIs(near: Near, db: Db, f: nat, revision: nat, due: int, now: int, k: nat)
    ensures var r := Detect(near, db, f, revision, due, now);
            && r.fragments == db.fragments && r.incidentActive == db.incidentActive
            && (!Gap(near, db, f, revision, due, now) ==> r == db)
    ensures Gap(near, db, f, revision, due, now) && (forall i | 0 <= i < |db.spots| :: !Covers(near, db.fragments[f], db.spots[i])) ==>
              Detect(near, db, f, revision, due, now).spots
              == db.spots + [Spot(true, db.fragments[f].v.key.value, db.fragments[f].v.place, Open, NoOutcome, f, None, 1)]
    ensures Gap(near, db, f, revision, due, now) && k < |db.spots| && Covers(near, db.fragments[f], db.spots[k])
              && (forall i | 0 <= i < k :: !Covers(near, db.fragments[f], db.spots[i])) ==>
              Detect(near, db, f, revision, due, now).spots
              == db.spots[k := if db.spots[k].automatic && db.spots[k].status == Resolved
                               then db.spots[k].(status := Reopened, outcome := NoOutcome, origin := f,
                                                 revision := db.spots[k].revision + 1)
                               else db.spots[k]]
  {
    GapIsFound(near, db, f, revision, due, now);
    if Gap(near, db, f, revision, due, now) && k < |db.spots| {
      assert db.spots[k := db.spots[k]] == db.spots;
    }
  }

  // ---------------------------------------------------------------- what a write stores

  /** An edit stores the new value at the next revision; an edit of a live report that says
      nothing new stores nothing. The fragment goes back to "normal" if it was withdrawn or
      its key, claim or place changed, and keeps its status else. */
  lemma EditStores(near: Near, db: Db, op: Op)
    requires op.EditReport? && Reachable(db, op.f)
    ensures var x, r := db.fragments[op.f], Apply(near, db, op);
            && |r.fragments| == |db.fragments| && (forall g | 0 <= g < |db.fragments| && g != op.f :: r.fragments[g] == db.fragments[g])
            && r.fragments[op.f].source == (if op.restore then FromReport(false, false) else x.source)
            && r.fragments[op.f].v == op.v
            && (x.v == op.v && x.status != Conflicts.Withdrawn ==>
                  r.fragments[op.f].revision == x.revision && r.fragments[op.f].status == x.status)
            && (x.v != op.v || x.status == Conflicts.Withdrawn ==>
                  && r.fragments[op.f].revision == x.revision + 1
                  && (x.status == Conflicts.Withdrawn || x.v.key != op.v.key || x.v.claim != op.v.claim || x.v.place != op.v.place ==>
                        r.fragments[op.f].status == Conflicts.Normal)
                  && (x.status != Conflicts.Withdrawn && x.v.key == op.v.key && x.v.claim == op.v.claim && x.v.place == op.v.place ==>
                        r.fragments[op.f].status == x.status))
  {
    EditWrites(near, db, op);
  }

  /** Deleting a report, or marking it invalid, withdraws its fragment, which then counts no
      more. */
  lemma RemovalStores(near: Near, db: Db, f: nat, deleted: bool)
    requires Reachable(db, f)
    ensures var x, r := db.fragments[f], Apply(near, db, RemoveReport(f, deleted));
            && |r.fragments| == |db.fragments| && (forall g | 0 <= g < |db.fragments| && g != f :: r.fragments[g] == db.fragments[g])
            && r.fragments[f].source == (if deleted then FromReport(true, x.source.invalid) else FromReport(false, true))
            && r.fragments[f].status == Conflicts.Withdrawn && r.fragments[f].v == x.v && !Counts(r.fragments[f])
            && r.fragments[f].revision == (if x.status == Conflicts.Withdrawn then x.revision else x.revision + 1)
  {
  }

  /** An answer stores its claim: the first one in a new fragment of the spot's key at the
      question's address, a later one over the earlier, which keeps its address. Coordinates
      given count; else the spot's, or the earlier ones, stay. A consensus resolves the spot
      with its value, and without one a resolved spot is open again. */
  lemma AnswerStores(near: Near, db: Db, op: Op)
    requires op.PutAnswer? && MayAnswer(db, op.answer, op.k)
    ensures var r, s, f := Apply(near, db, op), db.spots[op.k], op.answer.GetOr(|db.fragments|);
            && |r.spots| == |db.spots| && (forall i | 0 <= i < |db.spots| && i != op.k :: r.spots[i] == db.spots[i])
            && (forall g | 0 <= g < |db.fragments| && g != f :: g < |r.fragments| && r.fragments[g] == db.fragments[g])
            && f < |r.fragments| && r.fragments[f].v.claim == op.claim && r.fragments[f].source.Other?
            && (op.at.position.Some? ==> r.fragments[f].v.place.position == op.at.position)
            && (op.answer.None? ==>
                  && |r.fragments| == |db.fragments| + 1 && r.fragments[f].revision == 1 && r.fragments[f].v.key == Some(s.key)
                  && r.fragments[f].v.place.text == op.at.text && r.fragments[f].v.received == op.now
                  && (op.at.position.None? ==> r.fragments[f].v.place.position == s.place.position)
                  && r.fragments[f].status == (if op.consensus.Some? then Conflicts.Accepted else Conflicts.Normal))
            && (op.answer.Some? ==>
                  && |r.fragments| == |db.fragments| && r.fragments[f].revision == db.fragments[f].revision + 1
                  && r.fragments[f].v.key == db.fragments[f].v.key && r.fragments[f].v.place.text == db.fragments[f].v.place.text
                  && (op.at.position.None? ==> r.fragments[f].v.place.position == db.fragments[f].v.place.position)
                  && r.fragments[f].status == (if op.consensus.Some? then Conflicts.Accepted else db.fragments[f].status))
    ensures var s, s' := db.spots[op.k], Apply(near, db, op).spots[op.k];
            && (op.consensus.Some? && (s.status != Resolved || s.outcome != Claimed(op.consensus.value)) ==>
                  s' == s.(status := Resolved, outcome := Claimed(op.consensus.value), revision := s.revision + 1))
            && (op.consensus.None? && s.status == Resolved ==>
                  s' == s.(status := Open, outcome := NoOutcome, revision := s.revision + 1))
            && (op.consensus.Some? && s.status == Resolved && s.outcome == Claimed(op.consensus.value) ==> s' == s)
            && (op.consensus.None? && s.status != Resolved ==> s' == s)
  {
  }

  /** A new report is detected at once exactly if it says "unknown" and asks outright: then as
      by a job that is due, and else its spots stay, or are those a definite claim resolves. */
  lemma AskingDetectsAtOnce(near: Near, db: Db, op: Op, k: nat)
    requires op.CreateReport? && !op.v.claim.Known?
    ensures var f, r := |db.fragments|, Apply(near, db, op);
            var db1 := db.(fragments := db.fragments + [Fragment(FromReport(false, false), Conflicts.Normal, 1, op.v)]);
            if op.v.claim == Conflicts.Unknown && !op.certain then r == Detect(near, db1, f, 1, op.v.received, op.now) else r == db1
  {
    var db1 := db.(fragments := db.fragments + [Fragment(FromReport(false, false), Conflicts.Normal, 1, op.v)]);
    var db2 := DetectNow(near, db1, |db.fragments|, op.certain, op.now);
    var spots := ResolveAll(near, db2.fragments, |db.fragments|, db2.spots, op.conflict);
    assert spots == db2.spots;
  }
}
