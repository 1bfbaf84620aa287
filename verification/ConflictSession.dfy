/** The conflict tables as one write session changes them, row by row. Each method is
    proved to compute the function of the same purpose in module Conflicts. */
module ConflictSession {
  import opened Options
  import opened Conflicts
  import Facts

  class Session {
    var cases: seq<Case>
    var evidence: seq<Evidence>
    var fragments: seq<Fragment>
    var others: map<(Kind, nat), nat>
    var analyses: seq<Analysis>
    var facts: Facts.Store

    ghost function View(): Db
      reads this
    {
      Db(cases, evidence, fragments, others, analyses, facts)
    }

    constructor (db: Db)
      ensures View() == db
    {
      cases, evidence, fragments := db.cases, db.evidence, db.fragments;
      others, analyses, facts := db.others, db.analyses, db.facts;
    }

    method ClearPrevious(c: nat, kind: Kind, source: nat)
      modifies this`evidence
      ensures View() == old(View()).(evidence := ClearRows(old(evidence), c, kind, source))
    {
      ghost var prior, target := evidence, ClearRows(evidence, c, kind, source);
      var i := 0;
      while i < |evidence|
        invariant i <= |evidence| == |prior|
        invariant |target| == |evidence|
        invariant forall j {:trigger evidence[j]} | 0 <= j < |evidence| ::
                    evidence[j] == if j < i then target[j] else prior[j]
      {
        if IsRow(evidence[i], c, kind, source) && evidence[i].current {
          evidence := evidence[i := evidence[i].(current := false)];
        }
        i := i + 1;
      }
    }

    method Find(c: nat, kind: Kind, source: nat, revision: nat) returns (found: Option<nat>)
      ensures found == FindRow(evidence, c, kind, source, revision)
    {
      var i := |evidence|;
      assert evidence[..i] == evidence;
      while i > 0
        invariant 0 <= i <= |evidence|
        invariant FindRow(evidence, c, kind, source, revision) == FindRow(evidence[..i], c, kind, source, revision)
      {
        i := i - 1;
        assert evidence[..i + 1][..i] == evidence[..i];
        if IsRow(evidence[i], c, kind, source) && evidence[i].revision == revision {
          return Some(i);
        }
      }
      return None;
    }

    method AddReference(c: nat, kind: Kind, source: nat)
      requires SourceRevision(View(), kind, source).Some?
      modifies this`evidence
      ensures View() == AddOne(old(View()), c, kind, source)
    {
      ghost var db := View();
      var revision := if kind == FragmentKind then fragments[source].revision else others[(kind, source)];
      var existing := Find(c, kind, source, revision);
      if existing.Some? {
        evidence := evidence[existing.value := evidence[existing.value].(current := true)];
      } else {
        var item := NewRow(Db(cases, evidence, fragments, others, analyses, facts), c, kind, source);
        ClearPrevious(c, kind, source);
        evidence := evidence + [item];
      }
    }

    method AddAll(c: nat, refs: seq<Ref>)
      requires RefsOk(View(), refs)
      modifies this`evidence
      ensures View() == AddEvidence(old(View()), c, refs)
    {
      ghost var all := AddEvidence(View(), c, refs);
      var k := 0;
      while k < |refs|
        invariant k <= |refs|
        invariant RefsOk(View(), refs[k..]) && AddEvidence(View(), c, refs[k..]) == all
      {
        ghost var db := View();
        assert RefOk(View(), refs[k..][0]);
        AddReference(c, refs[k].kind, refs[k].source);
        AddStep(db, c, refs[k..]);
        assert refs[k..][1..] == refs[k + 1..];
        k := k + 1;
      }
    }

    method MarkAnalysesStale(c: nat)
      modifies this`analyses
      ensures View() == old(View()).(analyses := MarkStale(old(analyses), c))
    {
      ghost var prior, target := analyses, MarkStale(analyses, c);
      var i := 0;
      while i < |analyses|
        invariant i <= |analyses| == |prior|
        invariant |target| == |analyses|
        invariant forall j {:trigger analyses[j]} | 0 <= j < |analyses| ::
                    analyses[j] == if j < i then target[j] else prior[j]
      {
        if analyses[i].caseId == c && !analyses[i].stale {
          analyses := analyses[i := analyses[i].(stale := true)];
        }
        i := i + 1;
      }
    }

    /** A changed fragment's rows stop being current; says which cases lost any. */
    method InvalidateFragmentEvidence(f: nat) returns (affected: set<nat>)
      modifies this`evidence
      ensures View() == old(View()).(evidence := ClearFragment(old(evidence), f))
      ensures forall c: nat :: c in affected <==> WithdrawnIds(old(evidence), c, f) != {}
    {
      ghost var prior, target := evidence, ClearFragment(evidence, f);
      affected := {};
      var i := 0;
      while i < |evidence|
        invariant i <= |evidence| == |prior|
        invariant |target| == |evidence|
        invariant forall j {:trigger evidence[j]} | 0 <= j < |evidence| ::
                    evidence[j] == if j < i then target[j] else prior[j]
        invariant forall c {:trigger c in affected} :: c in affected <==> WithdrawnBefore(prior, c, f, i)
      {
        var e := evidence[i];
        assert e == prior[i];
        if e.kind == FragmentKind && e.source == f && e.current {
          evidence := evidence[i := e.(current := false)];
          affected := affected + {e.caseId};
        }
        i := i + 1;
      }
      WithdrawnBeforeAll(prior, f);
    }

    /** The release loop of an automatic resolution. */
    method ReleaseFragments(c: nat)
      modifies this`fragments
      ensures View() == old(View()).(fragments := Release(old(View()), c, |old(fragments)|))
    {
      ghost var db, target := View(), Release(View(), c, |fragments|);
      var f := 0;
      while f < |fragments|
        invariant f <= |fragments| == |db.fragments|
        invariant |target| == |fragments|
        invariant forall j {:trigger fragments[j]} | 0 <= j < |fragments| ::
                    fragments[j] == if j < f then target[j] else db.fragments[j]
      {
        var x := fragments[f];
        assert target[f] == ReleasedFragment(db, c, f);
        assert x == db.fragments[f];
        if Cites(evidence, c, f) {
          if !Held(cases, evidence, f) && x.status == InConflict {
            fragments := fragments[f := x.(status := Normal, revision := x.revision + 1)];
          }
        }
        f := f + 1;
      }
    }

    method NoteLostRows(c: nat, lost: set<nat>, before: nat)
      requires c < |cases|
      modifies this`cases, this`analyses, this`facts
      ensures View() == NoteWithdrawal(old(View()), c, lost, before)
    {
      if lost != {} {
        if cases[c].revision == before {
          cases := cases[c := cases[c].(revision := before + 1)];
        }
        assert cases == old(cases)[c := cases[c]];
        MarkAnalysesStale(c);
        var version := Facts.CurrentVersion(facts, cases[c].key);
        if version.Some? && facts.records[cases[c].key].status != Facts.UnderReview && lost * version.value.accepted != {} {
          facts := Facts.MarkUnderReview(facts, cases[c].key, c);
        }
      }
    }

    method ResolveAutomatically(c: nat, bump: bool)
      requires c < |cases|
      modifies this`cases, this`analyses, this`fragments
      ensures View() == AutoResolve(old(View()), c, bump)
    {
      cases := cases[c := cases[c].(status := Resolved, resolution := Automatic)];
      if bump {
        cases := cases[c := cases[c].(revision := cases[c].revision + 1)];
        MarkAnalysesStale(c);
      }
      ReleaseFragments(c);
    }

    method ReconcileCase(c: nat, lost: set<nat>, before: nat)
      requires c < |cases|
      modifies this`cases, this`analyses, this`facts, this`fragments
      ensures View() == ReconcileOne(old(View()), c, lost, before)
    {
      NoteLostRows(c, lost, before);
      assert |cases| == |old(cases)|;
      if HasOtherEvidence(evidence, c) {
        return;
      }
      if HasContradiction(evidence, c) {
        return;
      }
      if cases[c].status == Resolved || cases[c].status == Closed {
        return;
      }
      ResolveAutomatically(c, lost == {});
    }

    /** The reconcile loop: every listed case once. */
    method ReconcileConflicts(list: seq<nat>, w: Withdrawal)
      requires forall k | 0 <= k < |list| :: list[k] < |cases|
      modifies this`cases, this`analyses, this`facts, this`fragments
      ensures View() == Reconcile(old(View()), list, {}, w)
    {
      ghost var all := Reconcile(View(), list, {}, w);
      var seen: set<nat> := {};
      var k := 0;
      while k < |list|
        invariant k <= |list| && forall j | 0 <= j < |list| :: list[j] < |cases|
        invariant Reconcile(View(), list[k..], seen, w) == all
      {
        var c := list[k];
        assert list[k..][1..] == list[k + 1..];
        if c !in seen {
          var before := if c in w.before then w.before[c] else cases[c].revision;
          seen := seen + {c};
          ReconcileCase(c, if c in w.lost then w.lost[c] else {}, before);
        }
        k := k + 1;
      }
    }

    method MarkFragments(frags: seq<nat>)
      requires InRange(View(), frags)
      modifies this`fragments
      ensures View() == old(View()).(fragments := MarkInConflict(old(fragments), frags))
    {
      ghost var prior := fragments;
      var k := 0;
      while k < |frags|
        invariant k <= |frags| && |fragments| == |prior|
        invariant fragments == MarkInConflict(prior, frags[..k])
      {
        var f := frags[k];
        assert frags[..k + 1] == frags[..k] + [f];
        fragments := fragments[f := fragments[f].(status := InConflict)];
        assert fragments == MarkInConflict(prior, frags[..k + 1]);
        k := k + 1;
      }
      assert frags[..k] == frags;
    }

    method ReopenCase(c: nat)
      requires c < |cases|
      modifies this`cases, this`analyses, this`facts
      ensures View() == Reopen(old(View()), c)
    {
      cases := cases[c := cases[c].(status := Reopened, resolution := Unresolved, revision := cases[c].revision + 1)];
      assert cases[c].key == old(cases)[c].key;
      MarkAnalysesStale(c);
      facts := Facts.MarkUnderReview(facts, cases[c].key, c);
    }

    /** The case chosen by key, place and time, or a new one. */
    method FindCase(target: Option<nat>, key: Name) returns (c: nat, hasOpened: bool)
      requires target.Some? ==> target.value < |cases|
      modifies this`cases, this`analyses, this`facts
      ensures View() == Target(old(View()), target, key)
      ensures c == TargetCase(old(View()), target) && hasOpened == Opens(old(View()), target) && c < |cases|
    {
      hasOpened := false;
      if target.None? {
        c := |cases|;
        cases := cases + [Case(key, Open, 1, Unresolved)];
        hasOpened := true;
      } else {
        c := target.value;
        if cases[c].status == Resolved {
          ReopenCase(c);
          assert |cases| == |old(cases)|;
          hasOpened := true;
        }
      }
    }

    method TouchCase(c: nat)
      requires c < |cases|
      modifies this`cases, this`analyses
      ensures View() == Touch(old(View()), c)
    {
      cases := cases[c := cases[c].(revision := cases[c].revision + 1)];
      MarkAnalysesStale(c);
    }

    /** The case takes the fragments as evidence. */
    method TakeFragments(c: nat, frags: seq<nat>, mayTouch: bool)
      requires InRange(View(), frags) && c < |cases|
      modifies this`cases, this`evidence, this`fragments, this`analyses
      ensures View() == Took(old(View()), c, frags, mayTouch)
    {
      var db := Db(cases, evidence, fragments, others, analyses, facts);
      var isNew := HasNewSnapshot(db, c, frags);
      AddAll(c, FragmentRefs(db, frags));
      if isNew && mayTouch {
        TouchCase(c);
      }
      MarkFragments(frags);
    }

    method FindOrOpenConflict(target: Option<nat>, key: Name, frags: seq<nat>) returns (c: nat, hasOpened: bool)
      requires InRange(View(), frags) && (target.Some? ==> target.value < |cases|)
      modifies this`cases, this`evidence, this`fragments, this`analyses, this`facts
      ensures View() == FindOrOpen(old(View()), target, key, frags)
      ensures c == TargetCase(old(View()), target) && hasOpened == Opens(old(View()), target)
    {
      ghost var db := View();
      c, hasOpened := FindCase(target, key);
      TookTarget(db, target, key, frags);
      TakeFragments(c, frags, !hasOpened);
    }

    /** Every current fragment row of a decided case settles its fragment. */
    method DisposeFragments(c: nat, accepted: set<nat>)
      modifies this`fragments
      ensures View() == old(View()).(fragments := Dispose(old(fragments), old(evidence), accepted, c, |old(evidence)|))
    {
      var i := 0;
      while i < |evidence|
        invariant i <= |evidence| && |fragments| == |old(fragments)|
        invariant fragments == Dispose(old(fragments), evidence, accepted, c, i)
      {
        var e := evidence[i];
        if IsCurrent(evidence, c, i) && e.kind == FragmentKind && e.source < |fragments| {
          var x := fragments[e.source];
          fragments := fragments[e.source := x.(status := if i in accepted then Accepted else Normal, revision := x.revision + 1)];
        }
        i := i + 1;
      }
    }

    method DecideConflict(c: nat, d: Decision) returns (ok: bool)
      modifies this`cases, this`fragments, this`facts
      ensures ok <==> old(Admits(View(), c, d))
      ensures View() == Apply(old(View()), Decide(c, d))
    {
      var db := Db(cases, evidence, fragments, others, analyses, facts);
      ok := Admits(db, c, d);
      if ok {
        facts := Facts.RecordVerdict(facts, cases[c].key, VerdictOf(d), c);
        cases := cases[c := cases[c].(status := Resolved, resolution := ByOperator(AcceptedIds(d)), revision := cases[c].revision + 1)];
        DisposeFragments(c, AcceptedIds(d));
      }
    }
  }

  function Took(db: Db, c: nat, frags: seq<nat>, mayTouch: bool): Db
    requires InRange(db, frags) && c < |db.cases|
  {
    var db2 := AddEvidence(db, c, FragmentRefs(db, frags));
    var db3 := if HasNewSnapshot(db, c, frags) && mayTouch then Touch(db2, c) else db2;
    db3.(fragments := MarkInConflict(db3.fragments, frags))
  }

  lemma TookTarget(db: Db, target: Option<nat>, key: Name, frags: seq<nat>)
    requires InRange(db, frags) && (target.Some? ==> target.value < |db.cases|)
    ensures InRange(Target(db, target, key), frags) && TargetCase(db, target) < |Target(db, target, key).cases|
    ensures FindOrOpen(db, target, key, frags) == Took(Target(db, target, key), TargetCase(db, target), frags, !Opens(db, target))
  {
    assert HasNewSnapshot(db, TargetCase(db, target), frags)
           <==> HasNewSnapshot(Target(db, target, key), TargetCase(db, target), frags);
  }

  /** The case has lost a row among the first `n`. */
  predicate WithdrawnBefore(rows: seq<Evidence>, c: nat, f: nat, n: nat)
    requires n <= |rows|
  {
    exists i | 0 <= i < n :: IsCurrent(rows, c, i) && rows[i].kind == FragmentKind && rows[i].source == f
  }

  lemma WithdrawnBeforeAll(rows: seq<Evidence>, f: nat)
    ensures forall c: nat :: WithdrawnBefore(rows, c, f, |rows|) <==> WithdrawnIds(rows, c, f) != {}
  {
    forall c: nat ensures WithdrawnBefore(rows, c, f, |rows|) <==> WithdrawnIds(rows, c, f) != {} {
      if WithdrawnBefore(rows, c, f, |rows|) {
        var i :| 0 <= i < |rows| && IsCurrent(rows, c, i) && rows[i].kind == FragmentKind && rows[i].source == f;
        assert i in WithdrawnIds(rows, c, f);
      }
    }
  }
}
