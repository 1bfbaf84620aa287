/** How a case enters and leaves "resolved": every way but one moves its revision on. The one
    is enqueueing an analysis, after which a second decision needs no reopening. */
module ConflictCases {
  import opened Options
  import opened Conflicts
  import opened ConflictInvariants
  import opened ConflictRuns
  import ConflictFreshness
  import Facts

  // ---------------------------------------------------------------- what a step does to a case

  /** Revisions grow and nothing closes a case. */
  predicate Grown(k: Case, k': Case) {
    k.revision <= k'.revision && (k'.status == Closed ==> k.status == Closed)
  }

  /** Only a new revision resolves a case or takes it out of "resolved". */
  predicate InStep(k: Case, k': Case) {
    Grown(k, k') && (k.revision == k'.revision ==> (k.status == Resolved <==> k'.status == Resolved))
  }

  /** Every case but the excepted ones moves in step with its revision. */
  ghost predicate StepsBut(db: Db, db': Db, except: set<nat>) {
    && |db.cases| <= |db'.cases|
    && (forall c | 0 <= c < |db.cases| :: Grown(db.cases[c], db'.cases[c]))
    && (forall c | 0 <= c < |db.cases| && c !in except :: InStep(db.cases[c], db'.cases[c]))
    && (forall c | |db.cases| <= c < |db'.cases| :: db'.cases[c].status != Closed)
  }

  lemma StepsTransitive(db1: Db, db2: Db, db3: Db, except: set<nat>)
    requires StepsBut(db1, db2, except) && StepsBut(db2, db3, except)
    ensures StepsBut(db1, db3, except)
  {
    forall c | 0 <= c < |db1.cases| ensures Grown(db1.cases[c], db3.cases[c]) {
      assert Grown(db1.cases[c], db2.cases[c]) && Grown(db2.cases[c], db3.cases[c]);
    }
    forall c | 0 <= c < |db1.cases| && c !in except ensures InStep(db1.cases[c], db3.cases[c]) {
      assert InStep(db1.cases[c], db2.cases[c]) && InStep(db2.cases[c], db3.cases[c]);
    }
    forall c | |db1.cases| <= c < |db3.cases| ensures db3.cases[c].status != Closed {
      assert c < |db2.cases| ==> Grown(db2.cases[c], db3.cases[c]);
    }
  }

  lemma SameCases(db: Db, db': Db, except: set<nat>)
    requires db'.cases == db.cases
    ensures StepsBut(db, db', except)
  {
  }

  lemma OneCaseSteps(db: Db, c: nat, k: Case, db': Db, except: set<nat>)
    requires c < |db.cases| && db'.cases == db.cases[c := k]
    requires Grown(db.cases[c], k) && (c in except || InStep(db.cases[c], k))
    ensures StepsBut(db, db', except)
  {
  }

  /** A case that lost no rows and is resolved here moves on. */
  lemma ReconcileOneSteps(db: Db, c: nat, lost: set<nat>, before: nat, except: set<nat>)
    requires c < |db.cases| && (lost != {} ==> c in except)
    ensures StepsBut(db, ReconcileOne(db, c, lost, before), except)
  {
    var r := ReconcileOne(db, c, lost, before);
    var db1 := NoteWithdrawal(db, c, lost, before);
    OneCaseSteps(db, c, db1.cases[c], db1, except);
    if !(StillDisputed(db1.evidence, c) || Finished(db1.cases[c].status)) {
      OneCaseSteps(db1, c, r.cases[c], r, except);
      StepsTransitive(db, db1, r, except);
    }
  }

  lemma {:induction false} ReconcileSteps(db: Db, list: seq<nat>, seen: set<nat>, w: Withdrawal, except: set<nat>)
    requires forall k | 0 <= k < |list| :: list[k] < |db.cases|
    requires forall c {:trigger Lost(w, c)} | Lost(w, c) != {} :: c in except
    ensures StepsBut(db, Reconcile(db, list, seen, w), except)
    decreases |list|
  {
    if list == [] {
      SameCases(db, db, except);
    } else if list[0] in seen {
      ReconcileSteps(db, list[1..], seen, w, except);
    } else {
      var c := list[0];
      var db1 := ReconcileOne(db, c, Lost(w, c), Before(db, w, c));
      ReconcileOneSteps(db, c, Lost(w, c), Before(db, w, c), except);
      ReconcileSteps(db1, list[1..], seen + {c}, w, except);
      StepsTransitive(db, db1, Reconcile(db1, list[1..], seen + {c}, w), except);
    }
  }

  lemma TargetSteps(db: Db, target: Option<nat>, key: Name, except: set<nat>)
    requires target.Some? ==> target.value < |db.cases|
    ensures StepsBut(db, Target(db, target, key), except)
  {
  }

  lemma FindOrOpenSteps(db: Db, target: Option<nat>, key: Name, frags: seq<nat>, except: set<nat>)
    requires InRange(db, frags) && (target.Some? ==> target.value < |db.cases|)
    ensures StepsBut(db, FindOrOpen(db, target, key, frags), except)
  {
    var c, db1, r := TargetCase(db, target), Target(db, target, key), FindOrOpen(db, target, key, frags);
    TargetSteps(db, target, key, except);
    assert r.cases == db1.cases[c := r.cases[c]];
    OneCaseSteps(db1, c, r.cases[c], r, except);
    StepsTransitive(db, db1, r, except);
  }

  lemma DetectSteps(db: Db, f: nat, matching: seq<nat>, target: Option<nat>, except: set<nat>)
    ensures StepsBut(db, Detect(db, f, matching, target), except)
  {
    if Detects(db, f, matching, target) {
      FindOrOpenSteps(db, target, db.fragments[f].key.value, matching + [f], except);
    } else {
      SameCases(db, db, except);
    }
  }

  lemma DetectAndReconcileSteps(db: Db, f: nat, matching: seq<nat>, target: Option<nat>, list: seq<nat>, w: Withdrawal, except: set<nat>)
    requires forall k | 0 <= k < |list| :: list[k] < |db.cases|
    requires forall c {:trigger Lost(w, c)} | Lost(w, c) != {} :: c in except
    ensures StepsBut(db, DetectAndReconcile(db, f, matching, target, list, w), except)
  {
    if Detects(db, f, matching, target) {
      var db1 := Detect(db, f, matching, target);
      DetectSteps(db, f, matching, target, except);
      ReconcileSteps(db1, list + [TargetCase(db, target)], {}, w, except);
      StepsTransitive(db, db1, DetectAndReconcile(db, f, matching, target, list, w), except);
    } else {
      ReconcileSteps(db, list, {}, w, except);
    }
  }

  /** The cases a withdrawal takes rows from. */
  function Losing(db: Db, f: nat): set<nat> {
    set c | c in AffectedCases(db.evidence, f, |db.cases|)
  }

  lemma LosingIsLost(db: Db, f: nat)
    ensures forall c {:trigger Lost(WithdrawalOf(db, f), c)} | Lost(WithdrawalOf(db, f), c) != {} :: c in Losing(db, f)
  {
  }

  /** Those cases end on a new revision anyway. */
  lemma LosersMoveOn(db: Db, db': Db, losing: set<nat>)
    requires StepsBut(db, db', losing)
    requires forall c | c in losing && c < |db.cases| :: db.cases[c].revision < db'.cases[c].revision
    ensures StepsBut(db, db', {})
  {
    forall c | 0 <= c < |db.cases| ensures InStep(db.cases[c], db'.cases[c]) {
      assert Grown(db.cases[c], db'.cases[c]);
    }
  }

  lemma SupersededSteps(db: Db, f: nat, x: Fragment, matching: seq<nat>, target: Option<nat>)
    requires RowsInv(db) && f < |db.fragments| && Superseding(db.fragments[f], x) && x.status != Withdrawn
    ensures StepsBut(db, Superseded(db, f, x, matching, target), {})
  {
    var db1, r, list := Supersede(db, f, x), Superseded(db, f, x, matching, target), AffectedCases(db.evidence, f, |db.cases|);
    AffectedInRange(db.evidence, f, |db.cases|);
    LosingIsLost(db, f);
    SameCases(db, db1, Losing(db, f));
    DetectAndReconcileSteps(db1, f, matching, target, list, WithdrawalOf(db, f), Losing(db, f));
    StepsTransitive(db, db1, r, Losing(db, f));
    SupersedeKeepsRows(db, f, x);
    forall c | c in Losing(db, f) && c < |db.cases| ensures db.cases[c].revision < r.cases[c].revision {
      WithdrawalListed(db, f, c);
      WithdrawnMovesOn(db1, f, matching, target, list, WithdrawalOf(db, f), c);
    }
    LosersMoveOn(db, r, Losing(db, f));
  }

  lemma WithdrewSteps(db: Db, f: nat, x: Fragment)
    requires RowsInv(db) && f < |db.fragments| && Superseding(db.fragments[f], x)
    ensures StepsBut(db, Withdrew(db, f, x), {})
  {
    var db1, r, list := Supersede(db, f, x), Withdrew(db, f, x), AffectedCases(db.evidence, f, |db.cases|);
    AffectedInRange(db.evidence, f, |db.cases|);
    LosingIsLost(db, f);
    SameCases(db, db1, Losing(db, f));
    ReconcileSteps(db1, list, {}, WithdrawalOf(db, f), Losing(db, f));
    StepsTransitive(db, db1, r, Losing(db, f));
    ReconcileQuietly(db1, list, {}, WithdrawalOf(db, f));
    forall c | c in Losing(db, f) && c < |db.cases| ensures db.cases[c].revision < r.cases[c].revision {
      WithdrawalListed(db, f, c);
    }
    LosersMoveOn(db, r, Losing(db, f));
  }

  lemma FollowedSteps(prior: Db, db: Db, f: nat, created: bool, settles: bool, route: Route)
    requires f < |db.fragments| && db.cases == prior.cases
    ensures StepsBut(prior, Followed(db, f, created, settles, route), {})
  {
    var db1, r := RouteAnswer(db, f, created, route), Followed(db, f, created, settles, route);
    SameCases(prior, db, {});
    if db1.cases == db.cases {
      SameCases(db, r, {});
    } else {
      match route {
        case Quiet =>
        case Updates(c) => OneCaseSteps(db, c, r.cases[c], r, {});
        case Disagree(target, frags) =>
          FindOrOpenSteps(db, target, db.fragments[f].key.value, frags, {});
          assert r.cases == db1.cases;
          SameCases(db1, r, {});
          StepsTransitive(db, db1, r, {});
      }
    }
    StepsTransitive(prior, db, r, {});
  }

  lemma ReportSteps(db: Db, op: Op)
    requires Inv(db) && ConflictFreshness.OnReport(op)
    ensures StepsBut(db, Apply(db, op), {})
  {
    var r := Apply(db, op);
    if r.cases == db.cases {
      SameCases(db, r, {});
    } else {
      match op {
        case CreateReport(ref, v, matching, target) =>
          var db1 := db.(fragments := db.fragments + [NewFragment(ResidentReport, Some(ref), v)]);
          SameCases(db, db1, {});
          DetectAndReconcileSteps(db1, |db.fragments|, matching, target, [], NOTHING, {});
          StepsTransitive(db, db1, r, {});
        case EditReport(f, restore, v, matching, target) =>
          SupersededSteps(db, f, Edited(Restored(db.fragments[f], restore), v), matching, target);
        case WithdrawReport(f, deleted) => WithdrewSteps(db, f, Pulled(db.fragments[f], deleted));
        case EnterFragment(ref, v, matching, target) =>
          var db1 := db.(fragments := db.fragments + [NewFragment(OperatorEntry, Some(ref), v)]);
          SameCases(db, db1, {});
          DetectSteps(db1, |db.fragments|, matching, target, {});
          StepsTransitive(db, db1, r, {});
      }
    }
  }

  lemma CaseSteps(db: Db, op: Op)
    requires ConflictFreshness.OnCase(op)
    ensures StepsBut(db, Apply(db, op), {})
  {
    var r := Apply(db, op);
    if r.cases == db.cases {
      SameCases(db, r, {});
    } else {
      match op {
        case PutAnswer(answer, v, settles, route) => AnswerSteps(db, answer, v, settles, route);
        case TouchSource(_, _) =>
        case CreateCase(_, _) =>
        case AppendEvidence(c, _, _) => OneCaseSteps(db, c, r.cases[c], r, {});
        case ReopenCase(c, _) => OneCaseSteps(db, c, r.cases[c], r, {});
      }
    }
  }

  lemma AnswerSteps(db: Db, answer: Option<nat>, v: Fields, settles: bool, route: Route)
    ensures StepsBut(db, Answered(db, answer, v, settles, route), {})
  {
    if answer.None? {
      FollowedSteps(db, db.(fragments := db.fragments + [NewFragment(DirectedAnswer, Some(|db.fragments|), v)]),
                    |db.fragments|, true, settles, route);
    } else {
      var f := answer.value;
      if f < |db.fragments| && db.fragments[f].sourceType == DirectedAnswer {
        FollowedSteps(db, db.(fragments := db.fragments[f := RewrittenAnswer(db.fragments[f], v)]), f, false, settles, route);
      } else {
        SameCases(db, db, {});
      }
    }
  }

  // ---------------------------------------------------------------- resolved cases are ahead of their analyses

  /** A resolved case is past the revision of each of its analyses. */
  predicate Behind(db: Db, a: nat) {
    && a < |db.analyses|
    && var x := db.analyses[a];
       && x.caseId < |db.cases| && x.inputVersion <= db.cases[x.caseId].revision
       && (db.cases[x.caseId].status == Resolved ==> x.inputVersion < db.cases[x.caseId].revision)
  }

  ghost predicate AllBehind(db: Db) {
    forall a: nat {:trigger Behind(db, a)} | a < |db.analyses| :: Behind(db, a)
  }

  /** The request that enqueues an analysis is admitted. */
  predicate Enqueues(db: Db, op: Op, c: nat) {
    && op.EnqueueAnalysis? && op.c == c && c < |db.cases| && db.cases[c].revision == op.revision
    && CurrentIds(db.evidence, c) != {} && Reusable(db, c, op.reuse)
  }

  /** A decision moves its case on, and the steps of an analysis keep a case resolved, but
      for enqueueing. */
  lemma OwnSteps(db: Db, op: Op, c: nat)
    requires AllBehind(db) && !ConflictFreshness.OnReport(op) && !ConflictFreshness.OnCase(op)
    requires c < |db.cases| && !Enqueues(db, op, c)
    ensures |Apply(db, op).cases| == |db.cases| && InStep(db.cases[c], Apply(db, op).cases[c])
  {
    if op.CompleteAnalysis? && op.a < |db.analyses| {
      assert Behind(db, op.a);
    }
  }

  lemma CaseInStep(db: Db, op: Op, c: nat)
    requires Inv(db) && AllBehind(db) && c < |db.cases| && !Enqueues(db, op, c)
    ensures c < |Apply(db, op).cases| && InStep(db.cases[c], Apply(db, op).cases[c])
  {
    if ConflictFreshness.OnReport(op) {
      ReportSteps(db, op);
    } else if ConflictFreshness.OnCase(op) {
      CaseSteps(db, op);
    } else {
      OwnSteps(db, op, c);
    }
  }

  /** Only enqueueing adds an analysis, of a case it then takes out of "resolved". */
  lemma NewAnalysisBehind(db: Db, op: Op, a: nat)
    requires |db.analyses| <= a < |Apply(db, op).analyses|
    ensures Behind(Apply(db, op), a)
  {
    if ConflictFreshness.OnReport(op) {
      ConflictFreshness.ReportMarks(db, op);
    } else if ConflictFreshness.OnCase(op) {
      ConflictFreshness.CaseMarks(db, op);
    }
  }

  lemma EnqueueOpens(db: Db, op: Op, c: nat)
    requires Enqueues(db, op, c)
    ensures |Apply(db, op).cases| == |db.cases|
    ensures Apply(db, op).cases[c].status != Resolved && Apply(db, op).cases[c].revision == db.cases[c].revision
  {
  }

  lemma StepKeepsBehind(db: Db, op: Op, a: nat)
    requires Inv(db) && AllBehind(db) && a < |Apply(db, op).analyses|
    ensures Behind(Apply(db, op), a)
  {
    if a < |db.analyses| {
      ApplyKeeps(db, op);
      OldAnalysisBehind(db, op, Apply(db, op), a);
    } else {
      NewAnalysisBehind(db, op, a);
    }
  }

  lemma OldAnalysisBehind(db: Db, op: Op, r: Db, a: nat)
    requires Inv(db) && AllBehind(db) && a < |db.analyses| && r == Apply(db, op) && InputsKept(db, r)
    ensures Behind(r, a)
  {
    var c := db.analyses[a].caseId;
    assert Behind(db, a) && SameInput(db.analyses[a], r.analyses[a]);
    if Enqueues(db, op, c) {
      EnqueueOpens(db, op, c);
    } else {
      CaseInStep(db, op, c);
    }
  }

  lemma {:induction false} RunKeepsBehind(db: Db, ops: seq<Op>)
    requires Inv(db) && AllBehind(db)
    ensures AllBehind(Run(db, ops))
    decreases |ops|
  {
    if ops != [] {
      forall a: nat | a < |Apply(db, ops[0]).analyses| ensures Behind(Apply(db, ops[0]), a) {
        StepKeepsBehind(db, ops[0], a);
      }
      ApplyKeeps(db, ops[0]);
      RunKeepsBehind(Apply(db, ops[0]), ops[1..]);
    }
  }

  /** The step takes the case out of "resolved" at the revision it has. */
  predicate SlipsOut(db: Db, op: Op, c: nat) {
    && c < |db.cases| && db.cases[c].status == Resolved
    && c < |Apply(db, op).cases|
    && Apply(db, op).cases[c].status != Resolved && Apply(db, op).cases[c].revision == db.cases[c].revision
  }

  lemma StepSlipsOutIff(db: Db, op: Op, c: nat)
    requires Inv(db) && AllBehind(db) && c < |db.cases|
    ensures SlipsOut(db, op, c) <==> Enqueues(db, op, c) && db.cases[c].status == Resolved
  {
    if Enqueues(db, op, c) {
      EnqueueOpens(db, op, c);
    } else {
      CaseInStep(db, op, c);
    }
  }

  /** In any reachable state: a step takes a resolved case out of "resolved" without moving
      its revision if and only if it is an admitted request for an analysis of it. */
  lemma SlipsOutIffAnalyzed(ops: seq<Op>, op: Op, c: nat)
    requires c < |Run(EMPTY, ops).cases|
    ensures SlipsOut(Run(EMPTY, ops), op, c)
            <==> Enqueues(Run(EMPTY, ops), op, c) && Run(EMPTY, ops).cases[c].status == Resolved
  {
    EmptyInv();
    RunKeeps(EMPTY, ops);
    RunKeepsBehind(EMPTY, ops);
    StepSlipsOutIff(Run(EMPTY, ops), op, c);
  }

  /** Of a resolved case, a decision that is refused only because the case is resolved is
      admitted once an analysis of the same revision is enqueued: no reopening is needed. */
  lemma SecondDecisionIff(db: Db, op: Op, c: nat, d: Decision)
    requires Enqueues(db, op, c) && db.cases[c].status == Resolved && d.analysis.None?
    ensures !Admits(db, c, d)
    ensures Admits(Apply(db, op), c, d)
            <==> d.revision == db.cases[c].revision && d.dispositions.Keys == CurrentIds(db.evidence, c)
                 && Facts.Expected(db.facts, db.cases[c].key, VerdictOf(d))
  {
  }

  // ---------------------------------------------------------------- no case is ever closed

  ghost predicate NoneClosed(db: Db) {
    forall c | 0 <= c < |db.cases| :: db.cases[c].status != Closed
  }

  lemma StepKeepsOpen(db: Db, op: Op)
    requires Inv(db) && NoneClosed(db)
    ensures NoneClosed(Apply(db, op))
  {
    var r := Apply(db, op);
    if ConflictFreshness.OnReport(op) || ConflictFreshness.OnCase(op) {
      if ConflictFreshness.OnReport(op) { ReportSteps(db, op); } else { CaseSteps(db, op); }
      forall c | 0 <= c < |r.cases| ensures r.cases[c].status != Closed {
        assert c < |db.cases| ==> Grown(db.cases[c], r.cases[c]);
      }
    }
  }

  lemma {:induction false} RunKeepsOpen(db: Db, ops: seq<Op>)
    requires Inv(db) && NoneClosed(db)
    ensures NoneClosed(Run(db, ops))
    decreases |ops|
  {
    if ops != [] {
      StepKeepsOpen(db, ops[0]);
      ApplyKeeps(db, ops[0]);
      RunKeepsOpen(Apply(db, ops[0]), ops[1..]);
    }
  }
}
