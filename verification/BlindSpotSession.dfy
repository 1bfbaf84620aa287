/** The blind-spot loops as they update rows in place. Each method is proved to compute the
    function of the same purpose in module BlindSpots. */
module BlindSpotSession {
  import opened Options
  import opened BlindSpots
  import Conflicts

  class Session {
    const near: Near
    var incidentActive: bool
    var fragments: seq<Fragment>
    var spots: seq<Spot>

    ghost function View(): Db
      reads this
    {
      Db(incidentActive, fragments, spots)
    }

    constructor (near: Near, db: Db)
      ensures this.near == near && View() == db
    {
      this.near := near;
      incidentActive, fragments, spots := db.incidentActive, db.fragments, db.spots;
    }

    /** The first active replacement of fragment `f` for a spot. */
    method FindReplacement(f: nat, s: Spot, unknown: bool) returns (found: Option<nat>)
      ensures found == FirstReplacement(near, fragments, f, s, unknown, |fragments|)
    {
      var g := 0;
      while g < |fragments|
        invariant g <= |fragments|
        invariant FirstReplacement(near, fragments, f, s, unknown, g) == None
      {
        if Replaces(near, fragments, f, s, unknown, g) {
          assert FirstReplacement(near, fragments, f, s, unknown, g + 1) == Some(g);
          FirstStays(near, fragments, f, s, unknown, g, |fragments|);
          return Some(g);
        }
        g := g + 1;
      }
      return None;
    }

    method ReviseSpot(f: nat, k: nat, reason: nat)
      requires f < |fragments| && k < |spots|
      modifies this`spots
      ensures spots == old(spots)[k := Revised(near, fragments, f, old(spots)[k], reason)]
    {
      var s := spots[k];
      var isOrigin, isResolver := s.origin == f, s.resolver == Some(f);
      if !s.automatic || (!isOrigin && !isResolver) {
        return;
      }
      if isResolver && s.status == Resolved {
        if StillResolves(near, fragments[f], s) {
          return;
        }
        var concrete := FindReplacement(f, s, false);
        if concrete.Some? {
          spots := spots[k := ResolvedBy(s, Claimed(fragments[concrete.value].v.claim.value), concrete.value)];
          return;
        }
        if OriginStands(fragments, s) {
          spots := spots[k := s.(status := Reopened, outcome := NoOutcome, resolver := None, revision := s.revision + 1)];
          return;
        }
      }
      if !isOrigin || s.status == Resolved {
        return;
      }
      ReviseOrigin(f, k, reason);
    }

    method ReviseOrigin(f: nat, k: nat, reason: nat)
      requires f < |fragments| && k < |spots|
      modifies this`spots
      ensures spots == old(spots)[k := OriginChanged(near, fragments, f, old(spots)[k], reason)]
    {
      var s, x := spots[k], fragments[f];
      if StillUnknownHere(near, x, s) {
        return;
      }
      if x.v.key == Some(s.key) && x.v.claim.Known? && Active(x) {
        spots := spots[k := ResolvedBy(s, Claimed(x.v.claim.value), f)];
        return;
      }
      var other := FindReplacement(f, s, true);
      if other.Some? {
        spots := spots[k := s.(origin := other.value, revision := s.revision + 1)];
      } else {
        spots := spots[k := s.(status := Resolved, outcome := Ended(reason), revision := s.revision + 1)];
      }
    }

    method DeactivateAutomaticSpots(f: nat, reason: nat)
      requires f < |fragments|
      modifies this`spots
      ensures View() == old(View()).(spots := ReviseAll(near, fragments, f, old(spots), reason))
    {
      ghost var prior, target := spots, ReviseAll(near, fragments, f, spots, reason);
      var k := 0;
      while k < |spots|
        invariant k <= |spots| == |prior|
        invariant |target| == |spots|
        invariant forall j {:trigger spots[j]} | 0 <= j < |spots| ::
                    spots[j] == if j < k then target[j] else prior[j]
      {
        assert spots[k] == prior[k] && target[k] == Revised(near, fragments, f, prior[k], reason);
        ReviseSpot(f, k, reason);
        k := k + 1;
      }
    }

    method ResolveAutomaticSpots(f: nat, conflict: bool)
      requires f < |fragments|
      modifies this`spots
      ensures View() == ResolveGaps(near, old(View()), f, conflict)
    {
      ghost var prior, target := spots, ResolveAll(near, fragments, f, spots, conflict);
      var x := fragments[f];
      var k := 0;
      while k < |spots|
        invariant k <= |spots| == |prior|
        invariant |target| == |spots|
        invariant forall j {:trigger spots[j]} | 0 <= j < |spots| ::
                    spots[j] == if j < k then target[j] else prior[j]
      {
        assert spots[k] == prior[k];
        if Answers(near, x, spots[k]) {
          spots := spots[k := ResolvedBy(spots[k], if conflict then Conflicting else Claimed(x.v.claim.value), f)];
        }
        k := k + 1;
      }
    }

    /** Whether a concrete report at least as recent already covers the place. */
    method FindInforming(f: nat) returns (found: bool)
      requires f < |fragments|
      ensures found <==> exists g: nat | g < |fragments| :: Informs(near, fragments, f, g)
    {
      var g := 0;
      while g < |fragments|
        invariant g <= |fragments|
        invariant forall h: nat | h < g :: !Informs(near, fragments, f, h)
      {
        if Informs(near, fragments, f, g) {
          return true;
        }
        g := g + 1;
      }
      return false;
    }

    method RunDetection(f: nat, revision: nat, due: int, now: int)
      modifies this`spots
      ensures View() == Detect(near, old(View()), f, revision, due, now)
    {
      if !incidentActive || f >= |fragments| {
        return;
      }
      var x := fragments[f];
      if !x.source.FromReport? || x.revision != revision || x.v.key.None? || x.v.claim != Conflicts.Unknown
         || (x.status != Conflicts.Normal && x.status != Conflicts.InConflict) || x.source.deleted || x.source.invalid || now < due {
        return;
      }
      var informed := FindInforming(f);
      if informed {
        return;
      }
      var matching := FirstCovering(near, x, spots);
      if matching.Some? {
        var s := spots[matching.value];
        if s.automatic && s.status == Resolved {
          spots := spots[matching.value :=
            s.(status := Reopened, outcome := NoOutcome, origin := f, revision := s.revision + 1)];
        }
      } else {
        spots := spots + [Spot(true, x.v.key.value, x.v.place, Open, NoOutcome, f, None, 1)];
      }
    }
  }

  lemma {:induction false} FirstStays(near: Near, fragments: seq<Fragment>, f: nat, s: Spot, unknown: bool, g: nat, n: nat)
    requires g < n && FirstReplacement(near, fragments, f, s, unknown, g + 1) == Some(g)
    ensures FirstReplacement(near, fragments, f, s, unknown, n) == Some(g)
  {
    if n > g + 1 {
      FirstStays(near, fragments, f, s, unknown, g, n - 1);
    }
  }
}
