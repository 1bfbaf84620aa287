/** What the staleness mark on an analysis is worth: every change of a case marks its
    analyses, but for an operator's decision. */
module ConflictFreshness {
  import opened Options
  import opened Conflicts
  import ConflictRuns

  /** A succeeded analysis without the mark is of the case's present revision, or the case
      stands decided by an operator. */
  predicate Fresh(db: Db, a: nat) {
    && a < |db.analyses|
    && var x := db.analyses[a];
       && x.caseId < |db.cases|
       && x.inputVersion <= db.cases[x.caseId].revision
       && (x.status == Succeeded && !x.stale && x.inputVersion < db.cases[x.caseId].revision ==>
             db.cases[x.caseId].resolution.ByOperator?)
  }

  ghost predicate AllFresh(db: Db) {
    forall a: nat {:trigger Fresh(db, a)} | a < |db.analyses| :: Fresh(db, a)
  }

  /** The case stays at its revision. */
  predicate Stays(k: Case, k': Case) {
    k'.revision == k.revision && (k.resolution.ByOperator? ==> k'.resolution.ByOperator?)
  }

  predicate Marked(db: Db, db': Db, a: nat) {
    && a < |db.analyses| && a < |db'.analyses|
    && var x, x' := db.analyses[a], db'.analyses[a];
       && x' == x.(stale := x'.stale) && (x.stale ==> x'.stale)
       && (x.caseId < |db.cases| && x.caseId < |db'.cases| ==>
             && db.cases[x.caseId].revision <= db'.cases[x.caseId].revision
             && (x'.stale || Stays(db.cases[x.caseId], db'.cases[x.caseId])))
  }

  /** Between the two states every analysis kept its place, and was marked if its case moved on. */
  ghost predicate Marks(db: Db, db': Db) {
    && |db.cases| <= |db'.cases|
    && |db.analyses| == |db'.analyses|
    && forall a: nat {:trigger Marked(db, db', a)} | a < |db.analyses| :: Marked(db, db', a)
  }

  lemma MarksTransitive(db1: Db, db2: Db, db3: Db)
    requires Marks(db1, db2) && Marks(db2, db3)
    ensures Marks(db1, db3)
  {
    forall a: nat | a < |db1.analyses| ensures Marked(db1, db3, a) {
      assert Marked(db1, db2, a) && Marked(db2, db3, a);
    }
  }

  lemma MarksKeepFresh(db: Db, db': Db)
    requires Marks(db, db') && AllFresh(db)
    ensures AllFresh(db')
  {
    forall a: nat | a < |db'.analyses| ensures Fresh(db', a) {
      assert Fresh(db, a) && Marked(db, db', a);
    }
  }

  lemma SameMarks(db: Db, db': Db)
    requires db'.cases == db.cases && db'.analyses == db.analyses
    ensures Marks(db, db')
  {
  }

  ghost predicate AllStale(db: Db, c: nat) {
    forall a | 0 <= a < |db.analyses| && db.analyses[a].caseId == c :: db.analyses[a].stale
  }

  /** A case row replaced: its analyses are marked, were marked, or the case stays. */
  lemma SetCaseMarks(db: Db, c: nat, k: Case, mark: bool)
    requires c < |db.cases| && db.cases[c].revision <= k.revision
    requires mark || AllStale(db, c) || Stays(db.cases[c], k)
    ensures Marks(db, SetCase(db, c, k).(analyses := if mark then MarkStale(db.analyses, c) else db.analyses))
    ensures mark ==> AllStale(SetCase(db, c, k).(analyses := MarkStale(db.analyses, c)), c)
  {
    var db' := SetCase(db, c, k).(analyses := if mark then MarkStale(db.analyses, c) else db.analyses);
    forall a: nat | a < |db.analyses| ensures Marked(db, db', a) {
      assert mark ==> db'.analyses[a] == if db.analyses[a].caseId == c then db.analyses[a].(stale := true) else db.analyses[a];
    }
  }

  lemma TouchMarks(db: Db, c: nat)
    requires c < |db.cases|
    ensures Marks(db, Touch(db, c))
  {
    SetCaseMarks(db, c, db.cases[c].(revision := db.cases[c].revision + 1), true);
  }

  lemma ReopenMarks(db: Db, c: nat)
    requires c < |db.cases|
    ensures Marks(db, Reopen(db, c))
  {
    var k := db.cases[c].(status := Reopened, resolution := Unresolved, revision := db.cases[c].revision + 1);
    SetCaseMarks(db, c, k, true);
    var db1 := SetCase(db, c, k).(analyses := MarkStale(db.analyses, c));
    SameMarks(db1, Reopen(db, c));
    MarksTransitive(db, db1, Reopen(db, c));
  }

  lemma NoteMarks(db: Db, c: nat, lost: set<nat>, before: nat)
    requires c < |db.cases|
    ensures Marks(db, NoteWithdrawal(db, c, lost, before))
    ensures lost != {} ==> AllStale(NoteWithdrawal(db, c, lost, before), c)
    ensures |NoteWithdrawal(db, c, lost, before).cases| == |db.cases|
  {
    if lost == {} {
      SameMarks(db, db);
    } else {
      var k := db.cases[c];
      var k' := k.(revision := if k.revision == before then k.revision + 1 else k.revision);
      SetCaseMarks(db, c, k', true);
      var db1 := SetCase(db, c, k').(analyses := MarkStale(db.analyses, c));
      SameMarks(db1, NoteWithdrawal(db, c, lost, before));
      MarksTransitive(db, db1, NoteWithdrawal(db, c, lost, before));
    }
  }

  lemma AutoResolveMarks(db: Db, c: nat, bump: bool)
    requires c < |db.cases| && (bump || AllStale(db, c))
    ensures Marks(db, AutoResolve(db, c, bump))
  {
    var k := db.cases[c].(status := Resolved, resolution := Automatic);
    var k' := if bump then k.(revision := k.revision + 1) else k;
    SetCaseMarks(db, c, k', bump);
    var db1 := SetCase(db, c, k').(analyses := if bump then MarkStale(db.analyses, c) else db.analyses);
    assert AutoResolve(db, c, bump).cases == db1.cases;
    SameMarks(db1, AutoResolve(db, c, bump));
    MarksTransitive(db, db1, AutoResolve(db, c, bump));
  }

  lemma ReconcileOneMarks(db: Db, c: nat, lost: set<nat>, before: nat)
    requires c < |db.cases|
    ensures Marks(db, ReconcileOne(db, c, lost, before))
  {
    NoteMarks(db, c, lost, before);
    var db1 := NoteWithdrawal(db, c, lost, before);
    if !(StillDisputed(db1.evidence, c) || Finished(db1.cases[c].status)) {
      AutoResolveMarks(db1, c, lost == {});
      MarksTransitive(db, db1, AutoResolve(db1, c, lost == {}));
    }
  }

  lemma {:induction false} ReconcileMarks(db: Db, list: seq<nat>, seen: set<nat>, w: Withdrawal)
    requires forall k | 0 <= k < |list| :: list[k] < |db.cases|
    ensures Marks(db, Reconcile(db, list, seen, w))
    decreases |list|
  {
    if list == [] {
      SameMarks(db, db);
    } else if list[0] in seen {
      ReconcileMarks(db, list[1..], seen, w);
    } else {
      var c := list[0];
      var db1 := ReconcileOne(db, c, Lost(w, c), Before(db, w, c));
      ReconcileOneMarks(db, c, Lost(w, c), Before(db, w, c));
      ReconcileMarks(db1, list[1..], seen + {c}, w);
      MarksTransitive(db, db1, Reconcile(db1, list[1..], seen + {c}, w));
    }
  }

  lemma TargetMarks(db: Db, target: Option<nat>, key: Name)
    requires target.Some? ==> target.value < |db.cases|
    ensures Marks(db, Target(db, target, key))
  {
    if target.Some? && Opens(db, target) {
      ReopenMarks(db, target.value);
    }
  }

  lemma FindOrOpenMarks(db: Db, target: Option<nat>, key: Name, frags: seq<nat>)
    requires InRange(db, frags) && (target.Some? ==> target.value < |db.cases|)
    ensures Marks(db, FindOrOpen(db, target, key, frags))
  {
    var c, r := TargetCase(db, target), FindOrOpen(db, target, key, frags);
    var db1 := Target(db, target, key);
    TargetMarks(db, target, key);
    var db2 := AddEvidence(db1, c, FragmentRefs(db1, frags));
    SameMarks(db1, db2);
    MarksTransitive(db, db1, db2);
    if HasNewSnapshot(db, c, frags) && !Opens(db, target) {
      TouchMarks(db2, c);
      MarksTransitive(db, db2, Touch(db2, c));
      SameMarks(Touch(db2, c), r);
      MarksTransitive(db, Touch(db2, c), r);
    } else {
      SameMarks(db2, r);
      MarksTransitive(db, db2, r);
    }
  }

  lemma DetectMarks(db: Db, f: nat, matching: seq<nat>, target: Option<nat>)
    ensures Marks(db, Detect(db, f, matching, target))
  {
    if Detects(db, f, matching, target) {
      FindOrOpenMarks(db, target, db.fragments[f].key.value, matching + [f]);
    } else {
      SameMarks(db, db);
    }
  }

  lemma DetectAndReconcileMarks(db: Db, f: nat, matching: seq<nat>, target: Option<nat>, list: seq<nat>, w: Withdrawal)
    requires forall k | 0 <= k < |list| :: list[k] < |db.cases|
    ensures Marks(db, DetectAndReconcile(db, f, matching, target, list, w))
  {
    if Detects(db, f, matching, target) {
      var db1 := Detect(db, f, matching, target);
      DetectMarks(db, f, matching, target);
      ReconcileMarks(db1, list + [TargetCase(db, target)], {}, w);
      MarksTransitive(db, db1, DetectAndReconcile(db, f, matching, target, list, w));
    } else {
      ReconcileMarks(db, list, {}, w);
    }
  }

  lemma RouteMarks(db: Db, f: nat, created: bool, route: Route)
    requires f < |db.fragments|
    ensures Marks(db, RouteAnswer(db, f, created, route))
  {
    var r := RouteAnswer(db, f, created, route);
    if r == db {
      SameMarks(db, db);
    } else {
      match route
      case Quiet => SameMarks(db, db);
      case Updates(c) =>
        var db1 := AddOne(db, c, FragmentKind, f);
        SameMarks(db, db1);
        TouchMarks(db1, c);
        MarksTransitive(db, db1, r);
      case Disagree(target, frags) =>
        FindOrOpenMarks(db, target, db.fragments[f].key.value, frags);
    }
  }

  lemma FollowedMarks(prior: Db, db: Db, f: nat, created: bool, settles: bool, route: Route)
    requires f < |db.fragments| && db.cases == prior.cases && db.analyses == prior.analyses
    ensures Marks(prior, Followed(db, f, created, settles, route))
  {
    var db1, r := RouteAnswer(db, f, created, route), Followed(db, f, created, settles, route);
    SameMarks(prior, db);
    RouteMarks(db, f, created, route);
    MarksTransitive(prior, db, db1);
    SameMarks(db1, r);
    MarksTransitive(prior, db1, r);
  }

  predicate OnReport(op: Op) {
    op.CreateReport? || op.EditReport? || op.WithdrawReport? || op.EnterFragment?
  }

  lemma ReportMarks(db: Db, op: Op)
    requires OnReport(op)
    ensures Marks(db, Apply(db, op))
  {
    var r := Apply(db, op);
    if r == db {
      SameMarks(db, db);
    } else {
      match op {
        case CreateReport(ref, v, matching, target) =>
          var db1 := db.(fragments := db.fragments + [NewFragment(ResidentReport, Some(ref), v)]);
          SameMarks(db, db1);
          DetectAndReconcileMarks(db1, |db.fragments|, matching, target, [], NOTHING);
          MarksTransitive(db, db1, r);
        case EditReport(f, restore, v, matching, target) =>
          var x := Restored(db.fragments[f], restore);
          if Unchanged(x, v) {
            SameMarks(db, r);
            return;
          }
          var db1 := Supersede(db, f, Edited(x, v));
          AffectedInRange(db.evidence, f, |db.cases|);
          SameMarks(db, db1);
          DetectAndReconcileMarks(db1, f, matching, target, AffectedCases(db.evidence, f, |db.cases|), WithdrawalOf(db, f));
          MarksTransitive(db, db1, r);
        case WithdrawReport(f, deleted) =>
          var db1 := Supersede(db, f, Pulled(db.fragments[f], deleted));
          AffectedInRange(db.evidence, f, |db.cases|);
          SameMarks(db, db1);
          ReconcileMarks(db1, AffectedCases(db.evidence, f, |db.cases|), {}, WithdrawalOf(db, f));
          MarksTransitive(db, db1, r);
        case EnterFragment(ref, v, matching, target) =>
          var db1 := db.(fragments := db.fragments + [NewFragment(OperatorEntry, Some(ref), v)]);
          SameMarks(db, db1);
          DetectMarks(db1, |db.fragments|, matching, target);
          MarksTransitive(db, db1, r);
      }
    }
  }

  predicate OnCase(op: Op) {
    op.PutAnswer? || op.TouchSource? || op.CreateCase? || op.AppendEvidence? || op.ReopenCase?
  }

  lemma CaseMarks(db: Db, op: Op)
    requires OnCase(op)
    ensures Marks(db, Apply(db, op))
  {
    var r := Apply(db, op);
    if r == db {
      SameMarks(db, db);
    } else {
      match op {
        case PutAnswer(answer, v, settles, route) => AnswerMarks(db, answer, v, settles, route);
        case TouchSource(kind, id) => SameMarks(db, r);
        case CreateCase(key, refs) =>
        case AppendEvidence(c, revision, refs) =>
          var db1 := AddEvidence(db, c, refs);
          SameMarks(db, db1);
          TouchMarks(db1, c);
          MarksTransitive(db, db1, r);
        case ReopenCase(c, revision) => ReopenMarks(db, c);
      }
    }
  }

  lemma AnswerMarks(db: Db, answer: Option<nat>, v: Fields, settles: bool, route: Route)
    ensures Marks(db, Answered(db, answer, v, settles, route))
  {
    if answer.None? {
      FollowedMarks(db, db.(fragments := db.fragments + [NewFragment(DirectedAnswer, Some(|db.fragments|), v)]),
                    |db.fragments|, true, settles, route);
    } else {
      var f := answer.value;
      if f < |db.fragments| && db.fragments[f].sourceType == DirectedAnswer {
        FollowedMarks(db, db.(fragments := db.fragments[f := RewrittenAnswer(db.fragments[f], v)]), f, false, settles, route);
      } else {
        SameMarks(db, db);
      }
    }
  }

  /** The steps of an analysis itself: it is marked on completion if its case moved on. A
      decision moves its case on and marks nothing. */
  lemma OwnStepFresh(db: Db, op: Op)
    requires AllFresh(db) && !OnReport(op) && !OnCase(op)
    ensures AllFresh(Apply(db, op))
  {
    var db' := Apply(db, op);
    forall a: nat | a < |db'.analyses| ensures Fresh(db', a) {
      if a < |db.analyses| {
        assert Fresh(db, a);
      }
    }
  }

  lemma ApplyFresh(db: Db, op: Op)
    requires AllFresh(db)
    ensures AllFresh(Apply(db, op))
  {
    if OnReport(op) {
      ReportMarks(db, op);
      MarksKeepFresh(db, Apply(db, op));
    } else if OnCase(op) {
      CaseMarks(db, op);
      MarksKeepFresh(db, Apply(db, op));
    } else {
      OwnStepFresh(db, op);
    }
  }

  // ---------------------------------------------------------------- unmarked and out of date

  /** The analysis has succeeded and is not marked stale. */
  predicate Unmarked(db: Db, a: nat) {
    a < |db.analyses| && db.analyses[a].status == Succeeded && !db.analyses[a].stale
  }

  predicate Outdated(db: Db, a: nat) {
    && a < |db.analyses| && db.analyses[a].caseId < |db.cases|
    && db.analyses[a].inputVersion < db.cases[db.analyses[a].caseId].revision
  }

  /** The request decides the case the analysis is of. */
  predicate DecidesItsCase(db: Db, op: Op, a: nat) {
    a < |db.analyses| && op.Decide? && op.c == db.analyses[a].caseId && Admits(db, op.c, op.d)
  }

  /** The mark is missing on an analysis just gone out of date exactly when its case was
      decided by the step. */
  lemma OutdatedUnmarkedIff(db: Db, op: Op, a: nat)
    requires Unmarked(db, a) && !Outdated(db, a)
    requires Fresh(db, a)
    ensures Unmarked(Apply(db, op), a) && Outdated(Apply(db, op), a) <==> DecidesItsCase(db, op, a)
  {
    if OnReport(op) {
      ReportMarks(db, op);
      assert Marked(db, Apply(db, op), a);
    } else if OnCase(op) {
      CaseMarks(db, op);
      assert Marked(db, Apply(db, op), a);
    }
  }

  // ---------------------------------------------------------------- whole runs

  /** Step `k` of the run decided the case while the analysis was there. */
  predicate DecidedAt(ops: seq<Op>, a: nat, k: nat) {
    k < |ops| && DecidesItsCase(Run(EMPTY, ops[..k]), ops[k], a)
  }

  ghost predicate DecidedSince(ops: seq<Op>, a: nat) {
    exists k: nat :: DecidedAt(ops, a, k)
  }

  lemma LastStep(first: seq<Op>, op: Op)
    ensures Run(EMPTY, first + [op]) == Apply(Run(EMPTY, first), op)
  {
    ConflictRuns.RunSplits(EMPTY, first, [op]);
    assert Run(Run(EMPTY, first), [op]) == Run(Apply(Run(EMPTY, first), op), [op][1..]);
  }

  lemma DecidedOneMore(first: seq<Op>, op: Op, a: nat)
    ensures DecidedSince(first + [op], a) <==> DecidedSince(first, a) || DecidesItsCase(Run(EMPTY, first), op, a)
  {
    var ops := first + [op];
    assert ops[..|first|] == first && ops[|first|] == op;
    forall k: nat | k < |first| ensures DecidedAt(ops, a, k) == DecidedAt(first, a, k) {
      assert ops[..k] == first[..k];
    }
    if DecidesItsCase(Run(EMPTY, first), op, a) {
      assert DecidedAt(ops, a, |first|);
    }
    if DecidedSince(first, a) {
      var k: nat :| DecidedAt(first, a, k);
      assert DecidedAt(ops, a, k);
    }
    if DecidedSince(ops, a) {
      var k: nat :| DecidedAt(ops, a, k);
      assert k < |first| ==> DecidedAt(first, a, k);
    }
  }

  /** What is known of an analysis, and of whether its case was decided, before the step. */
  predicate ExplainedBy(db: Db, a: nat, decided: bool) {
    if a < |db.analyses| then (decided ==> Outdated(db, a)) && (Unmarked(db, a) && Outdated(db, a) ==> decided) else !decided
  }

  lemma StepExplained(db: Db, op: Op, a: nat, decided: bool)
    requires AllFresh(db) && ExplainedBy(db, a, decided)
    ensures ExplainedBy(Apply(db, op), a, decided || DecidesItsCase(db, op, a))
  {
    assert a < |db.analyses| ==> Fresh(db, a);
    if OnReport(op) {
      ReportMarks(db, op);
      MarkedExplained(db, Apply(db, op), a, decided);
    } else if OnCase(op) {
      CaseMarks(db, op);
      MarkedExplained(db, Apply(db, op), a, decided);
    } else {
      OwnStepExplained(db, op, a, decided);
    }
  }

  lemma MarkedExplained(db: Db, db': Db, a: nat, decided: bool)
    requires Marks(db, db') && ExplainedBy(db, a, decided) && (a < |db.analyses| ==> Fresh(db, a))
    ensures ExplainedBy(db', a, decided)
  {
    assert a < |db.analyses| ==> Marked(db, db', a);
  }

  lemma OwnStepExplained(db: Db, op: Op, a: nat, decided: bool)
    requires !OnReport(op) && !OnCase(op) && ExplainedBy(db, a, decided) && (a < |db.analyses| ==> Fresh(db, a))
    ensures ExplainedBy(Apply(db, op), a, decided || DecidesItsCase(db, op, a))
  {
  }

  lemma {:induction false} RunExplained(ops: seq<Op>, a: nat)
    ensures AllFresh(Run(EMPTY, ops)) && ExplainedBy(Run(EMPTY, ops), a, DecidedSince(ops, a))
    decreases |ops|
  {
    if ops != [] {
      var first, op := ops[..|ops| - 1], ops[|ops| - 1];
      assert ops == first + [op];
      LastStep(first, op);
      RunExplained(first, a);
      ApplyFresh(Run(EMPTY, first), op);
      DecidedOneMore(first, op, a);
      StepExplained(Run(EMPTY, first), op, a, DecidedSince(first, a));
    }
  }

  /** In every run, a succeeded analysis that is not marked stale was made for the case as it
      is now, unless its case was decided while it was there; the case then stands decided. */
  lemma UnmarkedIsCurrent(ops: seq<Op>, a: nat)
    requires Unmarked(Run(EMPTY, ops), a)
    ensures var db := Run(EMPTY, ops);
            var x := db.analyses[a];
            && x.caseId < |db.cases|
            && x.inputVersion <= db.cases[x.caseId].revision
            && (x.inputVersion < db.cases[x.caseId].revision <==> DecidedSince(ops, a))
            && (x.inputVersion < db.cases[x.caseId].revision ==> db.cases[x.caseId].resolution.ByOperator?)
  {
    RunExplained(ops, a);
    assert Fresh(Run(EMPTY, ops), a);
  }
}
