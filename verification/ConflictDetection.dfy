/** What detection achieves: the contradiction it found is on record in the case's current
    evidence, and re-judging the case in the same transaction does not undo it. */
module ConflictDetection {
  import opened Options
  import opened Conflicts
  import opened ConflictInvariants
  import opened ConflictRuns
  import ConflictCases

  // ---------------------------------------------------------------- snapshots are faithful

  function IdentityOf(x: Fragment, f: nat): Identity {
    if x.cluster.Some? then Cluster(x.cluster.value)
    else if x.sourceRef.Some? then Origin(x.sourceType, x.sourceRef.value)
    else Itself(FragmentKind, f)
  }

  /** A fragment's row cites a revision it has reached; of the present one, it carries the
      fragment's claim and identity. */
  predicate SnapshotOk(db: Db, i: nat) {
    i < |db.evidence| && db.evidence[i].kind == FragmentKind ==>
      var e := db.evidence[i];
      && e.source < |db.fragments|
      && var x := db.fragments[e.source];
         && e.revision <= x.revision
         && (e.revision == x.revision ==> e.claim == x.claim && e.identity == IdentityOf(x, e.source))
  }

  ghost predicate Snapshots(db: Db) {
    forall i: nat {:trigger SnapshotOk(db, i)} :: SnapshotOk(db, i)
  }

  /** What a row records of a fragment changes only with its revision. */
  predicate Revised(x: Fragment, x': Fragment) {
    && x.revision <= x'.revision
    && (x.revision == x'.revision ==>
          x'.claim == x.claim && x'.cluster == x.cluster && x'.sourceType == x.sourceType && x'.sourceRef == x.sourceRef)
  }

  ghost predicate AllRevised(db: Db, db': Db) {
    && |db.fragments| <= |db'.fragments|
    && forall f: nat {:trigger Revised(db.fragments[f], db'.fragments[f])} | f < |db.fragments| ::
         Revised(db.fragments[f], db'.fragments[f])
  }

  /** Rows may be cleared, not rewritten. */
  ghost predicate OnlyCleared(rows: seq<Evidence>, rows': seq<Evidence>) {
    |rows'| == |rows| && forall i {:trigger rows'[i]} | 0 <= i < |rows| :: rows'[i] == rows[i].(current := rows'[i].current)
  }

  lemma RevisedKeepsSnapshots(db: Db, db': Db)
    requires Snapshots(db) && AllRevised(db, db') && OnlyCleared(db.evidence, db'.evidence)
    ensures Snapshots(db')
  {
    forall i: nat ensures SnapshotOk(db', i) {
      assert SnapshotOk(db, i);
      if i < |db.evidence| && db.evidence[i].kind == FragmentKind {
        var f := db.evidence[i].source;
        assert Revised(db.fragments[f], db'.fragments[f]);
      }
    }
  }

  lemma AddOneKeepsSnapshots(db: Db, c: nat, kind: Kind, source: nat)
    requires Snapshots(db) && SourceRevision(db, kind, source).Some?
    ensures Snapshots(AddOne(db, c, kind, source))
  {
    var db' := AddOne(db, c, kind, source);
    forall i: nat ensures SnapshotOk(db', i) {
      assert SnapshotOk(db, i);
      assert i < |db.evidence| ==> db'.evidence[i] == db.evidence[i].(current := db'.evidence[i].current);
    }
  }

  lemma {:induction false} AddEvidenceKeepsSnapshots(db: Db, c: nat, refs: seq<Ref>)
    requires Snapshots(db) && RefsOk(db, refs)
    ensures Snapshots(AddEvidence(db, c, refs))
    decreases |refs|
  {
    if refs != [] {
      assert RefOk(db, refs[0]);
      AddOneKeepsSnapshots(db, c, refs[0].kind, refs[0].source);
      assert forall k | 0 <= k < |refs[1..]| :: RefOk(db, refs[k + 1]) && refs[1..][k] == refs[k + 1];
      AddEvidenceKeepsSnapshots(AddOne(db, c, refs[0].kind, refs[0].source), c, refs[1..]);
    }
  }

  // ---------------------------------------------------------------- every transaction keeps them

  lemma SameFragments(db: Db, db': Db)
    requires Snapshots(db) && db'.fragments == db.fragments && db'.evidence == db.evidence
    ensures Snapshots(db')
  {
    RevisedKeepsSnapshots(db, db');
  }

  lemma FindOrOpenKeepsSnapshots(db: Db, target: Option<nat>, key: Name, frags: seq<nat>)
    requires Snapshots(db) && InRange(db, frags) && (target.Some? ==> target.value < |db.cases|)
    ensures Snapshots(FindOrOpen(db, target, key, frags))
  {
    var c, db1 := TargetCase(db, target), Target(db, target, key);
    SameFragments(db, db1);
    var db2 := AddEvidence(db1, c, FragmentRefs(db1, frags));
    AddEvidenceKeepsSnapshots(db1, c, FragmentRefs(db1, frags));
    RevisedKeepsSnapshots(db2, FindOrOpen(db, target, key, frags));
  }

  lemma DetectKeepsSnapshots(db: Db, f: nat, matching: seq<nat>, target: Option<nat>)
    requires Snapshots(db)
    ensures Snapshots(Detect(db, f, matching, target))
  {
    if Detects(db, f, matching, target) {
      FindOrOpenKeepsSnapshots(db, target, db.fragments[f].key.value, matching + [f]);
    }
  }

  lemma RevisedTransitive(db1: Db, db2: Db, db3: Db)
    requires AllRevised(db1, db2) && AllRevised(db2, db3)
    ensures AllRevised(db1, db3)
  {
    forall f: nat | f < |db1.fragments| ensures Revised(db1.fragments[f], db3.fragments[f]) {
      assert Revised(db1.fragments[f], db2.fragments[f]) && Revised(db2.fragments[f], db3.fragments[f]);
    }
  }

  lemma ReconcileOneRevised(db: Db, c: nat, lost: set<nat>, before: nat)
    requires c < |db.cases|
    ensures AllRevised(db, ReconcileOne(db, c, lost, before))
  {
    var r := ReconcileOne(db, c, lost, before);
    var db1 := NoteWithdrawal(db, c, lost, before);
    assert db1.fragments == db.fragments;
    if !(StillDisputed(db1.evidence, c) || Finished(db1.cases[c].status)) {
      ReleaseRevised(db1, c, lost == {});
    }
  }

  lemma ReleaseRevised(db: Db, c: nat, bump: bool)
    requires c < |db.cases|
    ensures AllRevised(db, AutoResolve(db, c, bump))
  {
    var db1 := SetCase(db, c, db.cases[c].(status := Resolved, resolution := Automatic));
    var db2 := if bump then Touch(db1, c) else db1;
    var r := AutoResolve(db, c, bump);
    forall f: nat | f < |db.fragments| ensures Revised(db.fragments[f], r.fragments[f]) {
      assert r.fragments[f] == ReleasedFragment(db2, c, f);
    }
  }

  lemma {:induction false} ReconcileRevised(db: Db, list: seq<nat>, seen: set<nat>, w: Withdrawal)
    requires forall k | 0 <= k < |list| :: list[k] < |db.cases|
    ensures AllRevised(db, Reconcile(db, list, seen, w))
    decreases |list|
  {
    if list == [] {
    } else if list[0] in seen {
      ReconcileRevised(db, list[1..], seen, w);
    } else {
      var c := list[0];
      var db1 := ReconcileOne(db, c, Lost(w, c), Before(db, w, c));
      ReconcileOneRevised(db, c, Lost(w, c), Before(db, w, c));
      ReconcileRevised(db1, list[1..], seen + {c}, w);
      RevisedTransitive(db, db1, Reconcile(db1, list[1..], seen + {c}, w));
    }
  }

  lemma ReconcileKeepsSnapshots(db: Db, list: seq<nat>, w: Withdrawal)
    requires Snapshots(db) && forall k | 0 <= k < |list| :: list[k] < |db.cases|
    ensures Snapshots(Reconcile(db, list, {}, w))
  {
    ReconcileRevised(db, list, {}, w);
    RevisedKeepsSnapshots(db, Reconcile(db, list, {}, w));
  }

  lemma DetectAndReconcileKeepsSnapshots(db: Db, f: nat, matching: seq<nat>, target: Option<nat>, list: seq<nat>, w: Withdrawal)
    requires Snapshots(db) && forall k | 0 <= k < |list| :: list[k] < |db.cases|
    ensures Snapshots(DetectAndReconcile(db, f, matching, target, list, w))
  {
    if Detects(db, f, matching, target) {
      DetectKeepsSnapshots(db, f, matching, target);
      ReconcileKeepsSnapshots(Detect(db, f, matching, target), list + [TargetCase(db, target)], w);
    } else {
      ReconcileKeepsSnapshots(db, list, w);
    }
  }

  lemma NewFragmentKeepsSnapshots(db: Db, x: Fragment)
    requires Snapshots(db)
    ensures Snapshots(db.(fragments := db.fragments + [x]))
  {
    RevisedKeepsSnapshots(db, db.(fragments := db.fragments + [x]));
  }

  lemma OneFragmentKeepsSnapshots(db: Db, f: nat, x: Fragment)
    requires Snapshots(db) && f < |db.fragments| && Revised(db.fragments[f], x)
    ensures Snapshots(db.(fragments := db.fragments[f := x]))
  {
    RevisedKeepsSnapshots(db, db.(fragments := db.fragments[f := x]));
  }

  lemma SupersedeKeepsSnapshots(db: Db, f: nat, x: Fragment)
    requires Snapshots(db) && f < |db.fragments| && Revised(db.fragments[f], x)
    ensures Snapshots(Supersede(db, f, x))
  {
    var db' := Supersede(db, f, x);
    forall g: nat | g < |db.fragments| ensures Revised(db.fragments[g], db'.fragments[g]) {
    }
    RevisedKeepsSnapshots(db, db');
  }

  lemma FollowedKeepsSnapshots(db: Db, f: nat, created: bool, settles: bool, route: Route)
    requires Snapshots(db) && f < |db.fragments|
    ensures Snapshots(Followed(db, f, created, settles, route))
  {
    var db1 := RouteAnswer(db, f, created, route);
    if db1 != db {
      match route {
        case Quiet =>
        case Updates(c) =>
          AddOneKeepsSnapshots(db, c, FragmentKind, f);
          SameFragments(AddOne(db, c, FragmentKind, f), db1);
        case Disagree(target, frags) => FindOrOpenKeepsSnapshots(db, target, db.fragments[f].key.value, frags);
      }
    }
    if settles && !route.Disagree? && f < |db1.fragments| {
      OneFragmentKeepsSnapshots(db1, f, db1.fragments[f].(status := Accepted));
    }
  }

  lemma AnswerKeepsSnapshots(db: Db, answer: Option<nat>, v: Fields, settles: bool, route: Route)
    requires Snapshots(db)
    ensures Snapshots(Answered(db, answer, v, settles, route))
  {
    if answer.None? {
      var x := NewFragment(DirectedAnswer, Some(|db.fragments|), v);
      NewFragmentKeepsSnapshots(db, x);
      FollowedKeepsSnapshots(db.(fragments := db.fragments + [x]), |db.fragments|, true, settles, route);
    } else if answer.value < |db.fragments| && db.fragments[answer.value].sourceType == DirectedAnswer {
      var f := answer.value;
      var x := RewrittenAnswer(db.fragments[f], v);
      OneFragmentKeepsSnapshots(db, f, x);
      FollowedKeepsSnapshots(db.(fragments := db.fragments[f := x]), f, false, settles, route);
    }
  }

  lemma {:induction false} DisposeRevised(fragments: seq<Fragment>, rows: seq<Evidence>, accepted: set<nat>, c: nat, n: nat)
    requires n <= |rows|
    ensures forall f | 0 <= f < |fragments| :: Revised(fragments[f], Dispose(fragments, rows, accepted, c, n)[f])
  {
    if n != 0 {
      DisposeRevised(fragments, rows, accepted, c, n - 1);
      var rest, r := Dispose(fragments, rows, accepted, c, n - 1), Dispose(fragments, rows, accepted, c, n);
      forall f | 0 <= f < |fragments| ensures Revised(fragments[f], r[f]) {
        assert Revised(fragments[f], rest[f]);
      }
    }
  }

  lemma ReportKeepsSnapshots(db: Db, op: Op)
    requires Snapshots(db) && (op.CreateReport? || op.EditReport? || op.WithdrawReport? || op.EnterFragment?)
    ensures Snapshots(Apply(db, op))
  {
    if Apply(db, op) != db {
      match op {
        case CreateReport(ref, v, matching, target) =>
          var x := NewFragment(ResidentReport, Some(ref), v);
          NewFragmentKeepsSnapshots(db, x);
          DetectAndReconcileKeepsSnapshots(db.(fragments := db.fragments + [x]), |db.fragments|, matching, target, [], NOTHING);
        case EditReport(f, restore, v, matching, target) =>
          var x := Restored(db.fragments[f], restore);
          if Unchanged(x, v) {
            OneFragmentKeepsSnapshots(db, f, x);
          } else {
            AffectedInRange(db.evidence, f, |db.cases|);
            SupersedeKeepsSnapshots(db, f, Edited(x, v));
            DetectAndReconcileKeepsSnapshots(Supersede(db, f, Edited(x, v)), f, matching, target,
                                             AffectedCases(db.evidence, f, |db.cases|), WithdrawalOf(db, f));
          }
        case WithdrawReport(f, deleted) =>
          var x := Pulled(db.fragments[f], deleted);
          AffectedInRange(db.evidence, f, |db.cases|);
          SupersedeKeepsSnapshots(db, f, x);
          ReconcileKeepsSnapshots(Supersede(db, f, x), AffectedCases(db.evidence, f, |db.cases|), WithdrawalOf(db, f));
        case EnterFragment(ref, v, matching, target) =>
          var x := NewFragment(OperatorEntry, Some(ref), v);
          NewFragmentKeepsSnapshots(db, x);
          DetectKeepsSnapshots(db.(fragments := db.fragments + [x]), |db.fragments|, matching, target);
      }
    }
  }

  lemma ApplyKeepsSnapshots(db: Db, op: Op)
    requires Snapshots(db)
    ensures Snapshots(Apply(db, op))
  {
    if op.CreateReport? || op.EditReport? || op.WithdrawReport? || op.EnterFragment? {
      ReportKeepsSnapshots(db, op);
    } else if Apply(db, op) != db {
      match op {
        case PutAnswer(answer, v, settles, route) => AnswerKeepsSnapshots(db, answer, v, settles, route);
        case CreateCase(key, refs) =>
          var db1 := db.(cases := db.cases + [Case(key, Open, 1, Unresolved)]);
          SameFragments(db, db1);
          assert RefsOk(db1, refs) by {
            forall k | 0 <= k < |refs| ensures RefOk(db1, refs[k]) {
              assert RefOk(db, refs[k]);
            }
          }
          AddEvidenceKeepsSnapshots(db1, |db.cases|, refs);
        case AppendEvidence(c, revision, refs) =>
          AddEvidenceKeepsSnapshots(db, c, refs);
          SameFragments(AddEvidence(db, c, refs), Apply(db, op));
        case Decide(c, d) =>
          DisposeRevised(db.fragments, db.evidence, AcceptedIds(d), c, |db.evidence|);
          RevisedKeepsSnapshots(db, Apply(db, op));
        case _ => SameFragments(db, Apply(db, op));
      }
    }
  }

  lemma {:induction false} RunKeepsSnapshots(db: Db, ops: seq<Op>)
    requires Snapshots(db)
    ensures Snapshots(Run(db, ops))
    decreases |ops|
  {
    if ops != [] {
      ApplyKeepsSnapshots(db, ops[0]);
      RunKeepsSnapshots(Apply(db, ops[0]), ops[1..]);
    }
  }

  // ---------------------------------------------------------------- what is added is there

  /** Row `i` is current evidence of the source at its present revision. */
  predicate CitesNow(db: Db, c: nat, kind: Kind, source: nat, i: nat) {
    && i < |db.evidence| && IsRow(db.evidence[i], c, kind, source) && db.evidence[i].current
    && SourceRevision(db, kind, source) == Some(db.evidence[i].revision)
  }

  ghost predicate CitedNow(db: Db, c: nat, kind: Kind, source: nat) {
    exists i: nat :: CitesNow(db, c, kind, source, i)
  }

  lemma AddOneCites(db: Db, c: nat, kind: Kind, source: nat)
    requires SourceRevision(db, kind, source).Some?
    ensures CitedNow(AddOne(db, c, kind, source), c, kind, source)
  {
    var db' := AddOne(db, c, kind, source);
    match FindRow(db.evidence, c, kind, source, SourceRevision(db, kind, source).value)
    case Some(i) => assert CitesNow(db', c, kind, source, i);
    case None => assert CitesNow(db', c, kind, source, |db.evidence|);
  }

  lemma AddOneKeepsCited(db: Db, c: nat, kind: Kind, source: nat, kind': Kind, source': nat)
    requires SourceRevision(db, kind, source).Some? && CitedNow(db, c, kind', source')
    ensures CitedNow(AddOne(db, c, kind, source), c, kind', source')
  {
    if kind == kind' && source == source' {
      AddOneCites(db, c, kind, source);
    } else {
      var i: nat :| CitesNow(db, c, kind', source', i);
      assert CitesNow(AddOne(db, c, kind, source), c, kind', source', i);
    }
  }

  lemma {:induction false} AddEvidenceKeepsCited(db: Db, c: nat, refs: seq<Ref>, kind: Kind, source: nat)
    requires RefsOk(db, refs) && CitedNow(db, c, kind, source)
    ensures CitedNow(AddEvidence(db, c, refs), c, kind, source)
    decreases |refs|
  {
    if refs != [] {
      AddStep(db, c, refs);
      AddOneKeepsCited(db, c, refs[0].kind, refs[0].source, kind, source);
      AddEvidenceKeepsCited(AddOne(db, c, refs[0].kind, refs[0].source), c, refs[1..], kind, source);
    }
  }

  lemma FirstIsCited(db: Db, c: nat, refs: seq<Ref>)
    requires RefsOk(db, refs) && refs != []
    ensures CitedNow(AddEvidence(db, c, refs), c, refs[0].kind, refs[0].source)
  {
    AddStep(db, c, refs);
    AddOneCites(db, c, refs[0].kind, refs[0].source);
    AddEvidenceKeepsCited(AddOne(db, c, refs[0].kind, refs[0].source), c, refs[1..], refs[0].kind, refs[0].source);
  }

  lemma {:induction false} AddedIsCited(db: Db, c: nat, refs: seq<Ref>, k: nat, kind: Kind, source: nat, r: Db)
    requires RefsOk(db, refs) && k < |refs| && kind == refs[k].kind && source == refs[k].source && r == AddEvidence(db, c, refs)
    ensures CitedNow(r, c, kind, source)
    decreases k
  {
    if k == 0 {
      FirstAdded(db, c, refs, kind, source, r);
    } else {
      var db1, rest := AddedFirst(db, c, refs, k, r);
      AddedIsCited(db1, c, rest, k - 1, kind, source, r);
    }
  }

  lemma FirstAdded(db: Db, c: nat, refs: seq<Ref>, kind: Kind, source: nat, r: Db)
    requires RefsOk(db, refs) && refs != [] && kind == refs[0].kind && source == refs[0].source && r == AddEvidence(db, c, refs)
    ensures CitedNow(r, c, kind, source)
  {
    FirstIsCited(db, c, refs);
  }

  lemma AddedFirst(db: Db, c: nat, refs: seq<Ref>, k: nat, r: Db) returns (db1: Db, rest: seq<Ref>)
    requires RefsOk(db, refs) && 0 < k < |refs| && r == AddEvidence(db, c, refs)
    ensures RefsOk(db1, rest) && |rest| == |refs| - 1 && rest[k - 1] == refs[k] && r == AddEvidence(db1, c, rest)
  {
    AddStep(db, c, refs);
    db1, rest := AddOne(db, c, refs[0].kind, refs[0].source), refs[1..];
  }

  /** Every reference added ends as current evidence of its source's present revision. */
  lemma AddEvidenceCites(db: Db, c: nat, refs: seq<Ref>, k: nat)
    requires RefsOk(db, refs) && k < |refs|
    ensures CitedNow(AddEvidence(db, c, refs), c, refs[k].kind, refs[k].source)
  {
    AddedIsCited(db, c, refs, k, refs[k].kind, refs[k].source, AddEvidence(db, c, refs));
  }

  // ---------------------------------------------------------------- detection

  lemma FindOrOpenCites(db: Db, target: Option<nat>, key: Name, frags: seq<nat>, k: nat)
    requires InRange(db, frags) && (target.Some? ==> target.value < |db.cases|) && k < |frags|
    ensures var r := FindOrOpen(db, target, key, frags);
            && CitedNow(r, TargetCase(db, target), FragmentKind, frags[k])
            && |r.fragments| == |db.fragments| && r.fragments[frags[k]].status == InConflict
  {
    var c, db1 := TargetCase(db, target), Target(db, target, key);
    var refs := FragmentRefs(db1, frags);
    var db2, r := AddEvidence(db1, c, refs), FindOrOpen(db, target, key, frags);
    AddEvidenceCites(db1, c, refs, k);
    assert refs[k] == Ref(FragmentKind, frags[k], Some(db1.fragments[frags[k]].revision));
    var i: nat :| CitesNow(db2, c, FragmentKind, frags[k], i);
    assert CitesNow(r, c, FragmentKind, frags[k], i);
    assert frags[k] in frags;
  }

  /** Fragments of different sources have different identities. */
  lemma ApartIdentities(x: Fragment, y: Fragment, f: nat, g: nat)
    requires !ShareSource(x, y) && f != g
    ensures IdentityOf(x, f) != IdentityOf(y, g)
  {
  }

  lemma CitedContradiction(db: Db, c: nat, f: nat, g: nat)
    requires Snapshots(db) && f < |db.fragments| && g < |db.fragments| && f != g
    requires CitedNow(db, c, FragmentKind, f) && CitedNow(db, c, FragmentKind, g)
    requires !ShareSource(db.fragments[f], db.fragments[g])
    requires db.fragments[f].claim.Known? && db.fragments[g].claim.Known? && db.fragments[f].claim != db.fragments[g].claim
    ensures HasContradiction(db.evidence, c)
  {
    var i: nat :| CitesNow(db, c, FragmentKind, f, i);
    var j: nat :| CitesNow(db, c, FragmentKind, g, j);
    assert SnapshotOk(db, i) && SnapshotOk(db, j);
    ApartIdentities(db.fragments[f], db.fragments[g], f, g);
    var lo, hi := if i < j then i else j, if i < j then j else i;
    assert Contradicts(db.evidence[lo], db.evidence[hi]);
    assert IsCurrent(db.evidence, c, lo) && IsCurrent(db.evidence, c, hi);
  }

  /** A detected conflict is on record: every fragment of it is in conflict and cited at its
      present revision, the evidence contradicts itself, and the case is not resolved. */
  lemma DetectionRecords(db: Db, f: nat, matching: seq<nat>, target: Option<nat>, k: nat)
    requires Snapshots(db) && Detects(db, f, matching, target) && k < |matching|
    ensures var r, c := Detect(db, f, matching, target), TargetCase(db, target);
            && |r.fragments| == |db.fragments| && c < |r.cases|
            && r.fragments[f].status == InConflict && r.fragments[matching[k]].status == InConflict
            && CitedNow(r, c, FragmentKind, f) && CitedNow(r, c, FragmentKind, matching[k])
            && HasContradiction(r.evidence, c)
            && r.cases[c].status != Resolved
  {
    var r, c, g := Detect(db, f, matching, target), TargetCase(db, target), matching[k];
    DetectionCites(db, f, matching, target, k);
    DetectKeepsSnapshots(db, f, matching, target);
    CitedContradiction(r, c, f, g);
  }

  lemma DetectionCites(db: Db, f: nat, matching: seq<nat>, target: Option<nat>, k: nat)
    requires Detects(db, f, matching, target) && k < |matching|
    ensures var r, c, g := Detect(db, f, matching, target), TargetCase(db, target), matching[k];
            && |r.fragments| == |db.fragments| && c < |r.cases| && r.cases[c].status != Resolved
            && CitedNow(r, c, FragmentKind, f) && CitedNow(r, c, FragmentKind, g)
            && r.fragments[f] == db.fragments[f].(status := InConflict)
            && r.fragments[g] == db.fragments[g].(status := InConflict)
  {
    var frags, key := matching + [f], db.fragments[f].key.value;
    FindOrOpenCites(db, target, key, frags, |matching|);
    FindOrOpenCites(db, target, key, frags, k);
    assert frags[k] == matching[k] && frags[|matching|] == f;
    assert f in frags && matching[k] in frags;
    FindOrOpenShape(db, target, key, frags);
  }

  lemma FindOrOpenShape(db: Db, target: Option<nat>, key: Name, frags: seq<nat>)
    requires InRange(db, frags) && (target.Some? ==> target.value < |db.cases|)
    ensures var r, c := FindOrOpen(db, target, key, frags), TargetCase(db, target);
            && r.fragments == MarkInConflict(db.fragments, frags)
            && c < |r.cases| && r.cases[c].status != Resolved
  {
  }

  /** A case whose evidence contradicts itself is not resolved by reconciling, and keeps the
      fragments it holds in conflict. */
  lemma {:induction false} ReconcileSpares(db: Db, list: seq<nat>, seen: set<nat>, w: Withdrawal, c: nat, i: nat)
    requires forall k | 0 <= k < |list| :: list[k] < |db.cases|
    requires i < |db.evidence| && c == db.evidence[i].caseId && db.evidence[i].source < |db.fragments|
    requires HeldBy(db.cases, db.evidence, db.evidence[i].source, i) && HasContradiction(db.evidence, c)
    ensures Reconcile(db, list, seen, w).cases[c].status == db.cases[c].status
    ensures Reconcile(db, list, seen, w).fragments[db.evidence[i].source] == db.fragments[db.evidence[i].source]
    decreases |list|
  {
    if list == [] {
    } else if list[0] in seen {
      ReconcileSpares(db, list[1..], seen, w, c, i);
    } else {
      var d := list[0];
      var db1 := ReconcileOne(db, d, Lost(w, d), Before(db, w, d));
      ReconcileOneSpares(db, d, Lost(w, d), Before(db, w, d), c, i);
      ReconcileSpares(db1, list[1..], seen + {d}, w, c, i);
    }
  }

  lemma ReconcileOneSpares(db: Db, d: nat, lost: set<nat>, before: nat, c: nat, i: nat)
    requires d < |db.cases| && i < |db.evidence| && c == db.evidence[i].caseId && db.evidence[i].source < |db.fragments|
    requires HeldBy(db.cases, db.evidence, db.evidence[i].source, i) && HasContradiction(db.evidence, c)
    ensures var r := ReconcileOne(db, d, lost, before);
            && |r.cases| == |db.cases| && r.cases[c].status == db.cases[c].status
            && r.fragments[db.evidence[i].source] == db.fragments[db.evidence[i].source]
  {
    var f := db.evidence[i].source;
    var db1 := NoteWithdrawal(db, d, lost, before);
    NoteQuietly(db, d, lost, before);
    assert db1.fragments == db.fragments;
    assert db1.cases[c].status == db.cases[c].status;
    if !(StillDisputed(db1.evidence, d) || Finished(db1.cases[d].status)) {
      ReleaseSpares(db1, d, lost == {}, f, i);
    }
  }

  /** Resolving another case releases no fragment this one holds. */
  lemma ReleaseSpares(db: Db, d: nat, bump: bool, f: nat, i: nat)
    requires d < |db.cases| && f < |db.fragments| && HeldBy(db.cases, db.evidence, f, i) && db.evidence[i].caseId != d
    ensures var r := AutoResolve(db, d, bump);
            r.fragments[f] == db.fragments[f] && r.cases[db.evidence[i].caseId] == db.cases[db.evidence[i].caseId]
  {
    var db1 := SetCase(db, d, db.cases[d].(status := Resolved, resolution := Automatic));
    var db2 := if bump then Touch(db1, d) else db1;
    assert HeldBy(db2.cases, db2.evidence, f, i);
    assert AutoResolve(db, d, bump).fragments[f] == ReleasedFragment(db2, d, f);
  }

  /** Fragment `f` is in conflict and current evidence of a disputed, unresolved case. */
  ghost predicate InDispute(db: Db, c: nat, f: nat) {
    && c < |db.cases| && !Finished(db.cases[c].status)
    && HasContradiction(db.evidence, c)
    && f < |db.fragments| && db.fragments[f].status == InConflict
    && CitedNow(db, c, FragmentKind, f)
  }

  lemma SparedInDispute(db: Db, list: seq<nat>, w: Withdrawal, c: nat, f: nat)
    requires InDispute(db, c, f) && forall k | 0 <= k < |list| :: list[k] < |db.cases|
    ensures InDispute(Reconcile(db, list, {}, w), c, f)
  {
    var i: nat :| CitesNow(db, c, FragmentKind, f, i);
    var r := Reconcile(db, list, {}, w);
    ReconcileSpares(db, list, {}, w, c, i);
    assert CitesNow(r, c, FragmentKind, f, i);
  }

  /** Judging every affected case again in the same transaction leaves it so: each fragment
      of the contradiction is still in dispute. */
  lemma DetectionStands(db: Db, f: nat, matching: seq<nat>, target: Option<nat>, list: seq<nat>, w: Withdrawal, k: nat)
    requires Snapshots(db) && Detects(db, f, matching, target) && k < |matching|
    requires target.Some? ==> db.cases[target.value].status != Closed
    requires forall k | 0 <= k < |list| :: list[k] < |db.cases|
    ensures var r, c := DetectAndReconcile(db, f, matching, target, list, w), TargetCase(db, target);
            InDispute(r, c, f) && InDispute(r, c, matching[k])
  {
    DetectedInDispute(db, f, matching, target, k);
    SparedInDispute(Detect(db, f, matching, target), list + [TargetCase(db, target)], w, TargetCase(db, target), f);
    SparedInDispute(Detect(db, f, matching, target), list + [TargetCase(db, target)], w, TargetCase(db, target), matching[k]);
  }

  lemma DetectedInDispute(db: Db, f: nat, matching: seq<nat>, target: Option<nat>, k: nat)
    requires Snapshots(db) && Detects(db, f, matching, target) && k < |matching|
    requires target.Some? ==> db.cases[target.value].status != Closed
    ensures var r, c := Detect(db, f, matching, target), TargetCase(db, target);
            |db.cases| <= |r.cases| && InDispute(r, c, f) && InDispute(r, c, matching[k])
  {
    DetectionRecords(db, f, matching, target, k);
    NotClosed(db, target, db.fragments[f].key.value, matching + [f]);
  }

  lemma NotClosed(db: Db, target: Option<nat>, key: Name, frags: seq<nat>)
    requires InRange(db, frags) && (target.Some? ==> target.value < |db.cases| && db.cases[target.value].status != Closed)
    ensures var r, c := FindOrOpen(db, target, key, frags), TargetCase(db, target);
            |db.cases| <= |r.cases| && c < |r.cases| && r.cases[c].status != Closed
  {
  }

  // ---------------------------------------------------------------- whole runs

  /** A report written with a new value, before detection looks at it. */
  predicate Writes(db: Db, op: Op) {
    op.CreateReport?
    || (op.EditReport? && Writable(db, op.f) && !Unchanged(Restored(db.fragments[op.f], op.restore), op.v))
  }

  function WrittenId(db: Db, op: Op): nat
    requires Writes(db, op)
  {
    if op.CreateReport? then |db.fragments| else op.f
  }

  function Written(db: Db, op: Op): Db
    requires Writes(db, op)
  {
    if op.CreateReport? then db.(fragments := db.fragments + [NewFragment(ResidentReport, Some(op.ref), op.v)])
    else Supersede(db, op.f, Edited(Restored(db.fragments[op.f], op.restore), op.v))
  }

  /** The cases judged again after the write. */
  function Rejudged(db: Db, op: Op): seq<nat>
    requires Writes(db, op)
  {
    if op.CreateReport? then [] else AffectedCases(db.evidence, op.f, |db.cases|)
  }

  lemma WriteDetects(db: Db, op: Op)
    requires Writes(db, op)
    ensures forall k | 0 <= k < |Rejudged(db, op)| :: Rejudged(db, op)[k] < |Written(db, op).cases|
    ensures var w := if op.CreateReport? then NOTHING else WithdrawalOf(db, op.f);
            Apply(db, op) == DetectAndReconcile(Written(db, op), WrittenId(db, op), op.matching, op.target, Rejudged(db, op), w)
  {
    if op.EditReport? {
      AffectedInRange(db.evidence, op.f, |db.cases|);
    }
  }

  lemma WriteKeepsSnapshots(db: Db, op: Op)
    requires Snapshots(db) && Writes(db, op)
    ensures Snapshots(Written(db, op))
  {
    if op.CreateReport? {
      NewFragmentKeepsSnapshots(db, NewFragment(ResidentReport, Some(op.ref), op.v));
    } else {
      SupersedeKeepsSnapshots(db, op.f, Edited(Restored(db.fragments[op.f], op.restore), op.v));
    }
  }

  /** In every run: a report written, new or edited, with a value that contradicts others
      ends in conflict, with each of the others, as current evidence of an unresolved case
      whose evidence contradicts itself. */
  lemma ContradictionIsOpened(ops: seq<Op>, op: Op, k: nat)
    requires Writes(Run(EMPTY, ops), op) && k < |op.matching|
    requires Detects(Written(Run(EMPTY, ops), op), WrittenId(Run(EMPTY, ops), op), op.matching, op.target)
    ensures var r, c := Apply(Run(EMPTY, ops), op), TargetCase(Run(EMPTY, ops), op.target);
            InDispute(r, c, WrittenId(Run(EMPTY, ops), op)) && InDispute(r, c, op.matching[k])
  {
    var db := Run(EMPTY, ops);
    EmptyInv();
    ConflictCases.RunKeepsOpen(EMPTY, ops);
    RunKeepsSnapshots(EMPTY, ops);
    WriteKeepsSnapshots(db, op);
    WriteDetects(db, op);
    var w := if op.CreateReport? then NOTHING else WithdrawalOf(db, op.f);
    DetectionStands(Written(db, op), WrittenId(db, op), op.matching, op.target, Rejudged(db, op), w, k);
  }
}
