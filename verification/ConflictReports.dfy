/** The fragment of a report that is invalid or deleted stays out of conflict detection, but
    for two kinds of step: an edit that does not restore the report, and a decision citing it. */
module ConflictReports {
  import opened Options
  import opened Conflicts
  import opened ConflictInvariants
  import opened ConflictRuns
  import opened ConflictDetection
  import ConflictCases

  /** A report that does not stand has its fragment withdrawn. */
  predicate OutOk(x: Fragment) {
    x.report != Standing ==> x.sourceType == ResidentReport && x.status == Withdrawn
  }

  ghost predicate AllOut(db: Db) {
    forall f | 0 <= f < |db.fragments| :: OutOk(db.fragments[f])
  }

  // ---------------------------------------------------------------- what leaves it so

  /** Neither the report nor its being withdrawn changed. */
  predicate Alike(x: Fragment, x': Fragment) {
    && x'.report == x.report && x'.sourceType == x.sourceType
    && (x.sourceType == ResidentReport ==> (x'.status == Withdrawn <==> x.status == Withdrawn))
  }

  ghost predicate AllAlike(xs: seq<Fragment>, xs': seq<Fragment>) {
    |xs'| == |xs| && forall f {:trigger xs'[f]} | 0 <= f < |xs| :: Alike(xs[f], xs'[f])
  }

  lemma AlikeTransitive(xs1: seq<Fragment>, xs2: seq<Fragment>, xs3: seq<Fragment>)
    requires AllAlike(xs1, xs2) && AllAlike(xs2, xs3)
    ensures AllAlike(xs1, xs3)
  {
    forall f | 0 <= f < |xs1| ensures Alike(xs1[f], xs3[f]) {
      assert Alike(xs1[f], xs2[f]) && Alike(xs2[f], xs3[f]);
    }
  }

  lemma MarkAlike(db: Db, frags: seq<nat>)
    requires InRange(db, frags)
    requires forall k | 0 <= k < |frags| ::
               db.fragments[frags[k]].sourceType != ResidentReport || db.fragments[frags[k]].status != Withdrawn
    ensures AllAlike(db.fragments, MarkInConflict(db.fragments, frags))
  {
  }

  lemma DetectAlike(db: Db, f: nat, matching: seq<nat>, target: Option<nat>)
    requires f < |db.fragments| && db.fragments[f].status != Withdrawn
    ensures AllAlike(db.fragments, Detect(db, f, matching, target).fragments)
  {
    if Detects(db, f, matching, target) {
      MatchingLive(db, f, matching, target);
      MarkAlike(db, matching + [f]);
      FindOrOpenShape(db, target, db.fragments[f].key.value, matching + [f]);
    }
  }

  lemma MatchingLive(db: Db, f: nat, matching: seq<nat>, target: Option<nat>)
    requires Detects(db, f, matching, target) && db.fragments[f].status != Withdrawn
    ensures var frags := matching + [f];
            forall k | 0 <= k < |frags| :: frags[k] < |db.fragments| && db.fragments[frags[k]].status != Withdrawn
  {
  }

  lemma ReleaseAlike(db: Db, c: nat)
    ensures AllAlike(db.fragments, Release(db, c, |db.fragments|))
  {
    forall f | 0 <= f < |db.fragments| ensures Alike(db.fragments[f], Release(db, c, |db.fragments|)[f]) {
      assert Release(db, c, |db.fragments|)[f] == ReleasedFragment(db, c, f);
    }
  }

  lemma ReconcileOneAlike(db: Db, c: nat, lost: set<nat>, before: nat)
    requires c < |db.cases|
    ensures AllAlike(db.fragments, ReconcileOne(db, c, lost, before).fragments)
  {
    var db1 := NoteWithdrawal(db, c, lost, before);
    assert db1.fragments == db.fragments;
    if !(StillDisputed(db1.evidence, c) || Finished(db1.cases[c].status)) {
      var db2 := SetCase(db1, c, db1.cases[c].(status := Resolved, resolution := Automatic));
      ReleaseAlike(if lost == {} then Touch(db2, c) else db2, c);
    }
  }

  lemma {:induction false} ReconcileAlike(db: Db, list: seq<nat>, seen: set<nat>, w: Withdrawal)
    requires forall k | 0 <= k < |list| :: list[k] < |db.cases|
    ensures AllAlike(db.fragments, Reconcile(db, list, seen, w).fragments)
    decreases |list|
  {
    if list == [] {
    } else if list[0] in seen {
      ReconcileAlike(db, list[1..], seen, w);
    } else {
      var c := list[0];
      var db1 := ReconcileOne(db, c, Lost(w, c), Before(db, w, c));
      ReconcileOneAlike(db, c, Lost(w, c), Before(db, w, c));
      ReconcileAlike(db1, list[1..], seen + {c}, w);
      AlikeTransitive(db.fragments, db1.fragments, Reconcile(db1, list[1..], seen + {c}, w).fragments);
    }
  }

  lemma DetectAndReconcileAlike(db: Db, f: nat, matching: seq<nat>, target: Option<nat>, list: seq<nat>, w: Withdrawal)
    requires forall k | 0 <= k < |list| :: list[k] < |db.cases|
    requires f < |db.fragments| && db.fragments[f].status != Withdrawn
    ensures AllAlike(db.fragments, DetectAndReconcile(db, f, matching, target, list, w).fragments)
  {
    if Detects(db, f, matching, target) {
      var db1 := Detect(db, f, matching, target);
      DetectAlike(db, f, matching, target);
      ReconcileAlike(db1, list + [TargetCase(db, target)], {}, w);
      AlikeTransitive(db.fragments, db1.fragments, DetectAndReconcile(db, f, matching, target, list, w).fragments);
    } else {
      ReconcileAlike(db, list, {}, w);
    }
  }

  lemma FollowedAlike(db: Db, f: nat, created: bool, settles: bool, route: Route)
    requires f < |db.fragments| && db.fragments[f].sourceType == DirectedAnswer
    ensures AllAlike(db.fragments, Followed(db, f, created, settles, route).fragments)
  {
    if route.Disagree? && RouteAnswer(db, f, created, route) != db {
      MarkAlike(db, route.frags);
      FindOrOpenShape(db, route.target, db.fragments[f].key.value, route.frags);
    }
  }

  // ---------------------------------------------------------------- one step

  /** A current row of the case cites the fragment of a report that does not stand. */
  predicate CitesOut(db: Db, c: nat, i: nat) {
    && IsCurrent(db.evidence, c, i) && db.evidence[i].kind == FragmentKind
    && db.evidence[i].source < |db.fragments| && db.fragments[db.evidence[i].source].report != Standing
  }

  /** The steps that bring such a fragment back: writing an invalid report again without
      restoring it, and deciding a case whose evidence cites it. */
  predicate BringsBack(db: Db, op: Op) {
    || (op.EditReport? && !op.restore && Writable(db, op.f) && db.fragments[op.f].report == Invalid)
    || (op.Decide? && Admits(db, op.c, op.d) && exists i | 0 <= i < |db.evidence| :: CitesOut(db, op.c, i))
  }

  lemma AlikeOut(xs: seq<Fragment>, xs': seq<Fragment>)
    requires AllAlike(xs, xs')
    ensures (forall f | 0 <= f < |xs| :: OutOk(xs[f])) <==> (forall f | 0 <= f < |xs'| :: OutOk(xs'[f]))
  {
    forall f | 0 <= f < |xs| ensures OutOk(xs[f]) <==> OutOk(xs'[f]) {
      assert Alike(xs[f], xs'[f]);
    }
  }

  lemma NewFragmentOut(db: Db, x: Fragment)
    requires AllOut(db) && x.report == Standing
    ensures AllOut(db.(fragments := db.fragments + [x]))
  {
  }

  lemma OneFragmentOut(db: Db, f: nat, x: Fragment)
    requires AllOut(db) && f < |db.fragments|
    ensures AllOut(db.(fragments := db.fragments[f := x])) <==> OutOk(x)
  {
    assert db.fragments[f := x][f] == x;
  }

  lemma EditOutIff(db: Db, op: Op)
    requires AllOut(db) && op.EditReport?
    ensures AllOut(Apply(db, op)) <==> !BringsBack(db, op)
  {
    if Writable(db, op.f) {
      assert OutOk(db.fragments[op.f]);
      var x := Restored(db.fragments[op.f], op.restore);
      if Unchanged(x, op.v) {
        OneFragmentOut(db, op.f, x);
      } else {
        OneFragmentOut(db, op.f, Edited(x, op.v));
        var db1 := Supersede(db, op.f, Edited(x, op.v));
        AffectedInRange(db.evidence, op.f, |db.cases|);
        DetectAndReconcileAlike(db1, op.f, op.matching, op.target, AffectedCases(db.evidence, op.f, |db.cases|),
                                WithdrawalOf(db, op.f));
        AlikeOut(db1.fragments, Apply(db, op).fragments);
      }
    }
  }

  lemma WithdrawOut(db: Db, op: Op)
    requires AllOut(db) && op.WithdrawReport?
    ensures AllOut(Apply(db, op))
  {
    if MayWithdraw(db, op.f, op.deleted) {
      var x := Pulled(db.fragments[op.f], op.deleted);
      OneFragmentOut(db, op.f, x);
      AffectedInRange(db.evidence, op.f, |db.cases|);
      ReconcileAlike(Supersede(db, op.f, x), AffectedCases(db.evidence, op.f, |db.cases|), {}, WithdrawalOf(db, op.f));
      AlikeOut(Supersede(db, op.f, x).fragments, Apply(db, op).fragments);
    }
  }

  lemma CreateOut(db: Db, op: Op)
    requires AllOut(db) && (op.CreateReport? || op.EnterFragment?)
    ensures AllOut(Apply(db, op))
  {
    var x := NewFragment(if op.CreateReport? then ResidentReport else OperatorEntry, Some(op.ref), op.v);
    var db1 := db.(fragments := db.fragments + [x]);
    NewFragmentOut(db, x);
    if op.CreateReport? {
      DetectAndReconcileAlike(db1, |db.fragments|, op.matching, op.target, [], NOTHING);
    } else {
      DetectAlike(db1, |db.fragments|, op.matching, op.target);
    }
    AlikeOut(db1.fragments, Apply(db, op).fragments);
  }

  lemma AnswerOut(db: Db, answer: Option<nat>, v: Fields, settles: bool, route: Route)
    requires AllOut(db)
    ensures AllOut(Answered(db, answer, v, settles, route))
  {
    var r := Answered(db, answer, v, settles, route);
    if answer.None? {
      var x := NewFragment(DirectedAnswer, Some(|db.fragments|), v);
      NewFragmentOut(db, x);
      FollowedAlike(db.(fragments := db.fragments + [x]), |db.fragments|, true, settles, route);
      AlikeOut(db.fragments + [x], r.fragments);
    } else if answer.value < |db.fragments| && db.fragments[answer.value].sourceType == DirectedAnswer {
      var f := answer.value;
      var x := RewrittenAnswer(db.fragments[f], v);
      assert OutOk(db.fragments[f]);
      OneFragmentOut(db, f, x);
      FollowedAlike(db.(fragments := db.fragments[f := x]), f, false, settles, route);
      AlikeOut(db.fragments[f := x], r.fragments);
    }
  }

  /** Row `i` settles fragment `f` when case `c` is decided. */
  predicate Disposes(rows: seq<Evidence>, c: nat, f: nat, i: nat) {
    IsCurrent(rows, c, i) && rows[i].kind == FragmentKind && rows[i].source == f
  }

  /** A decision takes every fragment its case cites out of "withdrawn", and no other. */
  lemma {:induction false} DisposeRevives(fragments: seq<Fragment>, rows: seq<Evidence>, accepted: set<nat>, c: nat, n: nat, f: nat)
    requires n <= |rows| && f < |fragments|
    ensures var x := Dispose(fragments, rows, accepted, c, n)[f];
            && x.report == fragments[f].report && x.sourceType == fragments[f].sourceType
            && ((exists i | 0 <= i < n :: Disposes(rows, c, f, i)) ==> x.status != Withdrawn)
            && (!(exists i | 0 <= i < n :: Disposes(rows, c, f, i)) ==> x == fragments[f])
  {
    if n != 0 {
      DisposeRevives(fragments, rows, accepted, c, n - 1, f);
      if i :| 0 <= i < n && Disposes(rows, c, f, i) {
        assert i < n - 1 || Disposes(rows, c, f, n - 1);
      } else {
        assert !Disposes(rows, c, f, n - 1);
        assert !(exists i | 0 <= i < n - 1 :: Disposes(rows, c, f, i));
      }
    }
  }

  lemma DecideOutIff(db: Db, op: Op)
    requires AllOut(db) && op.Decide?
    ensures AllOut(Apply(db, op)) <==> !BringsBack(db, op)
  {
    if Admits(db, op.c, op.d) {
      var xs := Dispose(db.fragments, db.evidence, AcceptedIds(op.d), op.c, |db.evidence|);
      assert Apply(db, op).fragments == xs;
      forall f | 0 <= f < |db.fragments|
        ensures OutOk(xs[f]) <==> db.fragments[f].report == Standing
                                  || !(exists i | 0 <= i < |db.evidence| :: Disposes(db.evidence, op.c, f, i))
      {
        assert OutOk(db.fragments[f]);
        DisposeRevives(db.fragments, db.evidence, AcceptedIds(op.d), op.c, |db.evidence|, f);
      }
      DecideBrings(db, op.c, xs);
    }
  }

  lemma DecideBrings(db: Db, c: nat, xs: seq<Fragment>)
    requires |xs| == |db.fragments|
    requires forall f {:trigger xs[f]} | 0 <= f < |xs| ::
               OutOk(xs[f]) <==> db.fragments[f].report == Standing
                                 || !(exists i | 0 <= i < |db.evidence| :: Disposes(db.evidence, c, f, i))
    ensures (forall f | 0 <= f < |xs| :: OutOk(xs[f])) <==> !(exists i | 0 <= i < |db.evidence| :: CitesOut(db, c, i))
  {
    if i :| 0 <= i < |db.evidence| && CitesOut(db, c, i) {
      assert Disposes(db.evidence, c, db.evidence[i].source, i);
      assert !OutOk(xs[db.evidence[i].source]);
    } else {
      forall f | 0 <= f < |xs| ensures OutOk(xs[f]) {
        if db.fragments[f].report != Standing {
          forall i | 0 <= i < |db.evidence| ensures !Disposes(db.evidence, c, f, i) {
            assert !CitesOut(db, c, i);
          }
        }
      }
    }
  }

  lemma OtherStepsOut(db: Db, op: Op)
    requires op.TouchSource? || op.CreateCase? || op.AppendEvidence? || op.ReopenCase? || op.EnqueueAnalysis?
             || op.StartAnalysis? || op.CompleteAnalysis? || op.FailAnalysis? || op.RetryAnalysis?
    ensures Apply(db, op).fragments == db.fragments
  {
  }

  /** A step leaves the fragment of every invalid or deleted report withdrawn, if and only if
      it is none of those that bring one back. */
  lemma StaysOutIff(db: Db, op: Op)
    requires AllOut(db)
    ensures AllOut(Apply(db, op)) <==> !BringsBack(db, op)
  {
    match op
    case CreateReport(_, _, _, _) => CreateOut(db, op);
    case EditReport(_, _, _, _, _) => EditOutIff(db, op);
    case WithdrawReport(_, _) => WithdrawOut(db, op);
    case EnterFragment(_, _, _, _) => CreateOut(db, op);
    case PutAnswer(answer, v, settles, route) => AnswerOut(db, answer, v, settles, route);
    case Decide(_, _) => DecideOutIff(db, op);
    case _ => OtherStepsOut(db, op);
  }

  /** No step of the run brings a fragment back. */
  predicate KeepsOut(db: Db, ops: seq<Op>)
    decreases |ops|
  {
    ops != [] ==> !BringsBack(db, ops[0]) && KeepsOut(Apply(db, ops[0]), ops[1..])
  }

  lemma {:induction false} RunStaysOut(db: Db, ops: seq<Op>)
    requires AllOut(db) && KeepsOut(db, ops)
    ensures AllOut(Run(db, ops))
    decreases |ops|
  {
    if ops != [] {
      StaysOutIff(db, ops[0]);
      RunStaysOut(Apply(db, ops[0]), ops[1..]);
    }
  }

  // ---------------------------------------------------------------- back in conflict

  /** In every run: an invalid report written again, not restored, with a value that
      contradicts others is still invalid and in dispute with each of them. */
  lemma InvalidReportDisputes(ops: seq<Op>, op: Op, k: nat)
    requires op.EditReport? && !op.restore && Writes(Run(EMPTY, ops), op) && Run(EMPTY, ops).fragments[op.f].report == Invalid
    requires k < |op.matching| && Detects(Written(Run(EMPTY, ops), op), op.f, op.matching, op.target)
    ensures var r, c := Apply(Run(EMPTY, ops), op), TargetCase(Run(EMPTY, ops), op.target);
            InDispute(r, c, op.f) && InDispute(r, c, op.matching[k]) && r.fragments[op.f].report == Invalid
  {
    var db := Run(EMPTY, ops);
    ContradictionIsOpened(ops, op, k);
    AffectedInRange(db.evidence, op.f, |db.cases|);
    DetectAndReconcileAlike(Written(db, op), op.f, op.matching, op.target, AffectedCases(db.evidence, op.f, |db.cases|),
                            WithdrawalOf(db, op.f));
    assert Alike(Written(db, op).fragments[op.f], Apply(db, op).fragments[op.f]);
  }

  // ---------------------------------------------------------------- what an edit leaves behind

  /** The case is among those the new value puts in conflict. */
  predicate TakenUp(db: Db, f: nat, matching: seq<nat>, target: Option<nat>, c: nat) {
    Detects(db, f, matching, target) && target == Some(c)
  }

  /** What follows for case `c`, which lost rows of fragment `f`, when the report is written
      again; `taken` says that its new value puts the case in conflict. */
  ghost predicate EditFollowedUp(db: Db, r: Db, f: nat, c: nat, taken: bool) {
    && c < |db.cases| <= |r.cases|
    && (forall i | i in WithdrawnIds(db.evidence, c, f) :: i < |r.evidence| && !r.evidence[i].current)
    && (Finished(r.cases[c].status) <==>
          (Finished(db.cases[c].status) && !taken) || !StillDisputed(r.evidence, c))
    && (ResolvedNow(db, r, c) ==> r.cases[c].resolution == Automatic && Freed(r, c))
    && (Relies(db.facts, db.cases[c].key, WithdrawnIds(db.evidence, c, f)) ==> UnderReviewNow(r.facts, db.cases[c].key))
  }

  /** The row is of an earlier revision of its source, and not current. */
  predicate Outlived(db: Db, i: nat) {
    && i < |db.evidence| && !db.evidence[i].current
    && var revision := SourceRevision(db, db.evidence[i].kind, db.evidence[i].source);
       revision.Some? && db.evidence[i].revision != revision.value
  }

  lemma {:induction false} AddEvidenceKeepsOutlived(db: Db, c: nat, refs: seq<Ref>, i: nat)
    requires RefsOk(db, refs) && Outlived(db, i)
    ensures Outlived(AddEvidence(db, c, refs), i)
    decreases |refs|
  {
    if refs != [] {
      AddStep(db, c, refs);
      AddEvidenceKeepsOutlived(AddOne(db, c, refs[0].kind, refs[0].source), c, refs[1..], i);
    }
  }

  lemma FindOrOpenKeepsOutlived(db: Db, target: Option<nat>, key: Name, frags: seq<nat>, i: nat)
    requires InRange(db, frags) && (target.Some? ==> target.value < |db.cases|) && Outlived(db, i)
    ensures var r := FindOrOpen(db, target, key, frags); i < |r.evidence| && !r.evidence[i].current
  {
    var db1 := Target(db, target, key);
    assert Outlived(db1, i);
    AddEvidenceKeepsOutlived(db1, TargetCase(db, target), FragmentRefs(db1, frags), i);
  }

  lemma DetectKeepsOutlived(db: Db, f: nat, matching: seq<nat>, target: Option<nat>, i: nat)
    requires Outlived(db, i)
    ensures var r := Detect(db, f, matching, target); i < |r.evidence| && !r.evidence[i].current
  {
    if Detects(db, f, matching, target) {
      FindOrOpenKeepsOutlived(db, target, db.fragments[f].key.value, matching + [f], i);
    }
  }

  /** A case before and after detection: its key stays, it is finished unless taken up, and a
      fact that relies on the rows still does or is under review. */
  ghost predicate Carried(db: Db, r: Db, c: nat, taken: bool, rows: set<nat>) {
    && c < |db.cases| <= |r.cases| && r.cases[c].key == db.cases[c].key
    && (Finished(r.cases[c].status) <==> Finished(db.cases[c].status) && !taken)
    && (Relies(db.facts, db.cases[c].key, rows) ==>
          UnderReviewNow(r.facts, db.cases[c].key) || Relies(r.facts, db.cases[c].key, rows))
  }

  lemma DetectCarries(db: Db, f: nat, matching: seq<nat>, target: Option<nat>, c: nat, rows: set<nat>)
    requires c < |db.cases| && db.cases[c].status != Closed
    ensures Carried(db, Detect(db, f, matching, target), c, TakenUp(db, f, matching, target, c), rows)
  {
    if Detects(db, f, matching, target) {
      FindOrOpenCarries(db, target, db.fragments[f].key.value, matching + [f], c, rows);
    }
  }

  lemma FindOrOpenCarries(db: Db, target: Option<nat>, key: Name, frags: seq<nat>, c: nat, rows: set<nat>)
    requires InRange(db, frags) && (target.Some? ==> target.value < |db.cases|)
    requires c < |db.cases| && db.cases[c].status != Closed
    ensures Carried(db, FindOrOpen(db, target, key, frags), c, target == Some(c), rows)
  {
    var db1, r := Target(db, target, key), FindOrOpen(db, target, key, frags);
    if target.Some? && Relies(db.facts, db.cases[c].key, rows) {
      ReviewKeepsRelies(db.facts, db.cases[target.value].key, target.value, db.cases[c].key, rows);
    }
    assert r.facts == db1.facts;
    assert r.cases[c].status == db1.cases[c].status && r.cases[c].key == db1.cases[c].key;
  }

  lemma SupersededIsReconciled(db: Db, f: nat, x: Fragment, matching: seq<nat>, target: Option<nat>, c: nat) returns (again: seq<nat>)
    requires f < |db.fragments| && c < |db.cases| && WithdrawnIds(db.evidence, c, f) != {}
    ensures c in again && forall k | 0 <= k < |again| :: again[k] < |Detect(Supersede(db, f, x), f, matching, target).cases|
    ensures Superseded(db, f, x, matching, target)
            == Reconcile(Detect(Supersede(db, f, x), f, matching, target), again, {}, WithdrawalOf(db, f))
  {
    var db1, list := Supersede(db, f, x), AffectedCases(db.evidence, f, |db.cases|);
    AffectedInRange(db.evidence, f, |db.cases|);
    assert c in list;
    again := if Detects(db1, f, matching, target) then list + [TargetCase(db1, target)] else list;
  }

  lemma JudgedAgain(db: Db, db2: Db, list: seq<nat>, w: Withdrawal, f: nat, c: nat, taken: bool)
    requires c in list && forall k | 0 <= k < |list| :: list[k] < |db2.cases|
    requires Carried(db, db2, c, taken, WithdrawnIds(db.evidence, c, f)) && Lost(w, c) == WithdrawnIds(db.evidence, c, f)
    requires forall i | i in WithdrawnIds(db.evidence, c, f) :: i < |db2.evidence| && !db2.evidence[i].current
    ensures EditFollowedUp(db, Reconcile(db2, list, {}, w), f, c, taken)
  {
    ReconcileSound(db2, list, {}, w, c);
    if Relies(db.facts, db.cases[c].key, WithdrawnIds(db.evidence, c, f)) {
      AcceptedLossIsReviewed(db2, list, {}, w, c);
    }
  }

  lemma SupersededFollowed(db: Db, f: nat, x: Fragment, matching: seq<nat>, target: Option<nat>, c: nat)
    requires RowsInv(db) && f < |db.fragments| && db.fragments[f].revision < x.revision
    requires c < |db.cases| && WithdrawnIds(db.evidence, c, f) != {} && db.cases[c].status != Closed
    ensures EditFollowedUp(db, Superseded(db, f, x, matching, target), f, c,
                           TakenUp(Supersede(db, f, x), f, matching, target, c))
  {
    var db1, rows := Supersede(db, f, x), WithdrawnIds(db.evidence, c, f);
    var db2, taken := Detect(db1, f, matching, target), TakenUp(db1, f, matching, target, c);
    DetectCarries(db1, f, matching, target, c, rows);
    assert Carried(db, db2, c, taken, rows);
    RowsAreCleared(db, f, x, matching, target, c);
    var again := SupersededIsReconciled(db, f, x, matching, target, c);
    LostRows(db, f, c);
    JudgedAgain(db, db2, again, WithdrawalOf(db, f), f, c, taken);
  }

  lemma LostRows(db: Db, f: nat, c: nat)
    requires c < |db.cases| && WithdrawnIds(db.evidence, c, f) != {}
    ensures Lost(WithdrawalOf(db, f), c) == WithdrawnIds(db.evidence, c, f)
  {
  }

  lemma RowsAreCleared(db: Db, f: nat, x: Fragment, matching: seq<nat>, target: Option<nat>, c: nat)
    requires RowsInv(db) && f < |db.fragments| && db.fragments[f].revision < x.revision
    ensures var r := Detect(Supersede(db, f, x), f, matching, target);
            forall i | i in WithdrawnIds(db.evidence, c, f) :: i < |r.evidence| && !r.evidence[i].current
  {
    var db1 := Supersede(db, f, x);
    var r := Detect(db1, f, matching, target);
    forall i | i in WithdrawnIds(db.evidence, c, f) ensures i < |r.evidence| && !r.evidence[i].current {
      assert RowOk(db, i);
      assert Outlived(db1, i);
      DetectKeepsOutlived(db1, f, matching, target, i);
    }
  }

  /** Writing a report again, in any reachable state: the rows of its earlier revisions stay
      out, every case that lost one is judged again, and a fact that accepted one is under
      review. */
  lemma EditIsFollowedUp(ops: seq<Op>, op: Op, c: nat)
    requires op.EditReport? && Writes(Run(EMPTY, ops), op)
    requires c < |Run(EMPTY, ops).cases| && WithdrawnIds(Run(EMPTY, ops).evidence, c, op.f) != {}
    ensures EditFollowedUp(Run(EMPTY, ops), Apply(Run(EMPTY, ops), op), op.f, c,
                           TakenUp(Written(Run(EMPTY, ops), op), op.f, op.matching, op.target, c))
  {
    var db := Run(EMPTY, ops);
    EmptyInv();
    RunKeeps(EMPTY, ops);
    ConflictCases.RunKeepsOpen(EMPTY, ops);
    SupersededFollowed(db, op.f, Edited(Restored(db.fragments[op.f], op.restore), op.v), op.matching, op.target, c);
  }
}
