/** What each step on conflicts does, in terms of rows and fields: when two rows contradict,
    which case takes a conflict, what re-judging changes, what a write stores, who is let in. */
module ConflictSteps {
  import opened Options
  import opened Conflicts
  import Facts

  // ---------------------------------------------------------------- what is a contradiction

  /** Two current rows of the case that cite fragments of different sources with different
      definite values. */
  predicate Opposed(rows: seq<Evidence>, c: nat, i: nat, j: nat) {
    && i < |rows| && j < |rows| && rows[i].caseId == c == rows[j].caseId && rows[i].current && rows[j].current
    && rows[i].kind == FragmentKind && rows[j].kind == FragmentKind
    && rows[i].claim.Known? && rows[j].claim.Known?
    && rows[i].claim.value != rows[j].claim.value && rows[i].identity != rows[j].identity
  }

  /** A current row of the case that is no fragment. */
  predicate OtherRow(rows: seq<Evidence>, c: nat, i: nat) {
    i < |rows| && rows[i].caseId == c && rows[i].current && rows[i].kind != FragmentKind
  }

  ghost predicate Disputed(rows: seq<Evidence>, c: nat) {
    (exists i: nat :: OtherRow(rows, c, i)) || (exists i: nat, j: nat :: Opposed(rows, c, i, j))
  }

  lemma StillDisputedIff(rows: seq<Evidence>, c: nat)
    ensures StillDisputed(rows, c) <==> Disputed(rows, c)
  {
    if i: nat :| OtherRow(rows, c, i) {
      assert IsCurrent(rows, c, i) && rows[i].kind != FragmentKind;
    }
    if i: nat, j: nat :| Opposed(rows, c, i, j) {
      var lo, hi := if i < j then i else j, if i < j then j else i;
      assert Contradicts(rows[lo], rows[hi]) && IsCurrent(rows, c, lo) && IsCurrent(rows, c, hi);
    }
    if HasOtherEvidence(rows, c) {
      var i: nat :| i < |rows| && IsCurrent(rows, c, i) && rows[i].kind != FragmentKind;
      assert OtherRow(rows, c, i);
    }
    if HasContradiction(rows, c) {
      var i: nat, j: nat :| i < j < |rows| && IsCurrent(rows, c, i) && IsCurrent(rows, c, j) && Contradicts(rows[i], rows[j]);
      assert Opposed(rows, c, i, j);
    }
  }

  /** Two fragments are one source if their clusters are the same, or, when one has none, if
      they are of one type and name one origin. */
  lemma SourcesAre(a: Fragment, b: Fragment)
    ensures a.cluster.Some? && b.cluster.Some? ==> (ShareSource(a, b) <==> a.cluster.value == b.cluster.value)
    ensures a.cluster.None? || b.cluster.None? ==>
              (ShareSource(a, b) <==> a.sourceType == b.sourceType && a.sourceRef.Some? && b.sourceRef == a.sourceRef)
    ensures ShareSource(a, b) == ShareSource(b, a)
  {
  }

  /** Detection looks at a fragment with a key and a definite value, and finds those of the
      same topic and another source, not withdrawn nor accepted, with another definite value. */
  lemma DetectsIff(db: Db, f: nat, matching: seq<nat>, target: Option<nat>)
    ensures Detects(db, f, matching, target)
            <==> && f < |db.fragments| && matching != [] && (target.Some? ==> target.value < |db.cases|)
                 && db.fragments[f].key.Some? && db.fragments[f].claim.Known?
                 && forall k | 0 <= k < |matching| ::
                      && matching[k] < |db.fragments| && matching[k] != f
                      && var m := db.fragments[matching[k]];
                         m.topic == db.fragments[f].topic && m.claim.Known? && m.claim.value != db.fragments[f].claim.value
                         && m.status in {Normal, InConflict} && !ShareSource(db.fragments[f], m)
  {
  }

  // ---------------------------------------------------------------- which case takes it

  /** The case named takes the fragments; without one a new one is opened under the key. A
      resolved case is reopened; an unfinished one keeps its status, and moves on exactly if
      one of the fragments is cited at its present revision for the first time. */
  lemma ConflictIsTaken(db: Db, target: Option<nat>, key: Name, frags: seq<nat>, f: nat, d: nat)
    requires InRange(db, frags) && (target.Some? ==> target.value < |db.cases|) && f < |db.fragments| && d < |db.cases|
    ensures var r := FindOrOpen(db, target, key, frags);
            && |r.fragments| == |db.fragments|
            && r.fragments[f] == db.fragments[f].(status := if f in frags then InConflict else db.fragments[f].status)
    ensures var r := FindOrOpen(db, target, key, frags);
            && |r.cases| == |db.cases| + (if target.None? then 1 else 0)
            && (target.None? ==> r.cases[|db.cases|] == Case(key, Open, 1, Unresolved))
            && r.cases[d] == (if target != Some(d) then db.cases[d]
                              else if db.cases[d].status == Resolved
                              then Case(db.cases[d].key, Reopened, db.cases[d].revision + 1, Unresolved)
                              else db.cases[d].(revision := db.cases[d].revision + if CitesNew(db, d, frags) then 1 else 0))
  {
    NewSnapshotIff(db, d, frags);
    FindOrOpenCases(db, target, key, frags);
  }

  lemma FindOrOpenCases(db: Db, target: Option<nat>, key: Name, frags: seq<nat>)
    requires InRange(db, frags) && (target.Some? ==> target.value < |db.cases|)
    ensures FindOrOpen(db, target, key, frags).fragments == MarkInConflict(db.fragments, frags)
    ensures FindOrOpen(db, target, key, frags).cases
            == if target.None? then db.cases + [Case(key, Open, 1, Unresolved)]
               else if db.cases[target.value].status == Resolved
               then db.cases[target.value := Case(db.cases[target.value].key, Reopened, db.cases[target.value].revision + 1, Unresolved)]
               else if HasNewSnapshot(db, target.value, frags)
               then db.cases[target.value := db.cases[target.value].(revision := db.cases[target.value].revision + 1)]
               else db.cases
  {
  }

  /** One of the fragments has no row in the case of its present revision. */
  ghost predicate CitesNew(db: Db, c: nat, frags: seq<nat>) {
    exists k | 0 <= k < |frags| :: frags[k] < |db.fragments| && NoRowYet(db, c, frags[k])
  }

  predicate NoRowYet(db: Db, c: nat, f: nat)
    requires f < |db.fragments|
  {
    forall i | 0 <= i < |db.evidence| ::
      !(IsRow(db.evidence[i], c, FragmentKind, f) && db.evidence[i].revision == db.fragments[f].revision)
  }

  lemma NewSnapshotIff(db: Db, c: nat, frags: seq<nat>)
    ensures HasNewSnapshot(db, c, frags) <==> CitesNew(db, c, frags)
  {
    if k :| 0 <= k < |frags| && frags[k] < |db.fragments| && NoRowYet(db, c, frags[k]) {
      assert FindRow(db.evidence, c, FragmentKind, frags[k], db.fragments[frags[k]].revision).None?;
    }
    if HasNewSnapshot(db, c, frags) {
      var k :| 0 <= k < |frags| && frags[k] < |db.fragments|
               && FindRow(db.evidence, c, FragmentKind, frags[k], db.fragments[frags[k]].revision).None?;
      assert NoRowYet(db, c, frags[k]);
    }
  }

  // ---------------------------------------------------------------- one case judged again

  /** The revision that losing rows leaves. */
  function AfterLoss(db: Db, c: nat, lost: set<nat>, before: nat): nat
    requires c < |db.cases|
  {
    db.cases[c].revision + if lost != {} && db.cases[c].revision == before then 1 else 0
  }

  /** Re-judging a case: it is resolved automatically exactly if it was unfinished and nothing
      is disputed any more. Its revision moves by one if it lost rows and had not moved since,
      or if it is resolved without having lost any. Other cases, all evidence, and the sources
      stay; its fact goes under review exactly if its current version accepts a lost row. */
  lemma JudgingIs(db: Db, c: nat, lost: set<nat>, before: nat, d: nat)
    requires c < |db.cases| && d < |db.cases|
    ensures var r, k := ReconcileOne(db, c, lost, before), db.cases[c];
            && |r.cases| == |db.cases| && r.evidence == db.evidence && r.others == db.others
            && (d != c ==> r.cases[d] == db.cases[d])
            && (Disputed(db.evidence, c) || k.status in {Resolved, Closed} ==>
                  r.cases[c] == k.(revision := AfterLoss(db, c, lost, before)))
            && (!Disputed(db.evidence, c) && k.status !in {Resolved, Closed} ==>
                  r.cases[c] == Case(k.key, Resolved, if lost == {} then k.revision + 1 else AfterLoss(db, c, lost, before), Automatic))
    ensures var r, key := ReconcileOne(db, c, lost, before), db.cases[c].key;
            r.facts == if lost != {} && key in db.facts.records && db.facts.records[key].status != Facts.UnderReview
                          && Facts.CurrentVersion(db.facts, key).Some? && Facts.CurrentVersion(db.facts, key).value.accepted * lost != {}
                       then Facts.MarkUnderReview(db.facts, key, c) else db.facts
  {
    StillDisputedIff(db.evidence, c);
  }

  /** The analyses of the case are marked exactly if its revision was moved or it lost rows. */
  lemma JudgingMarks(db: Db, c: nat, lost: set<nat>, before: nat, a: nat)
    requires c < |db.cases| && a < |db.analyses|
    ensures var r, x := ReconcileOne(db, c, lost, before), db.analyses[a];
            && |r.analyses| == |db.analyses|
            && r.analyses[a] == x.(stale := x.stale || (x.caseId == c && (lost != {} || r.cases[c].revision != db.cases[c].revision)))
  {
    StillDisputedIff(db.evidence, c);
  }

  /** An unfinished case other than `c` has the fragment as current evidence. */
  ghost predicate HeldElsewhere(db: Db, c: nat, f: nat) {
    exists i | 0 <= i < |db.evidence| :: HoldsElsewhere(db, c, f, db.evidence[i])
  }

  predicate HoldsElsewhere(db: Db, c: nat, f: nat, e: Evidence) {
    && e.kind == FragmentKind && e.source == f && e.current && e.caseId != c
    && e.caseId < |db.cases| && db.cases[e.caseId].status !in {Resolved, Closed}
  }

  /** Resolving a case automatically frees exactly the fragments in conflict that a row of it,
      current or not, cites and no other unfinished case holds: back to "normal", at a new
      revision. */
  lemma ResolvingFrees(db: Db, c: nat, bump: bool, f: nat)
    requires c < |db.cases| && f < |db.fragments|
    ensures var r, x := AutoResolve(db, c, bump), db.fragments[f];
            && |r.fragments| == |db.fragments|
            && r.fragments[f] == if x.status == InConflict && !HeldElsewhere(db, c, f)
                                    && (exists i | 0 <= i < |db.evidence| :: IsRow(db.evidence[i], c, FragmentKind, f))
                                 then x.(status := Normal, revision := x.revision + 1) else x
  {
    var db1 := SetCase(db, c, db.cases[c].(status := Resolved, resolution := Automatic));
    var db2 := if bump then Touch(db1, c) else db1;
    assert AutoResolve(db, c, bump).fragments[f] == ReleasedFragment(db2, c, f);
    if Held(db2.cases, db2.evidence, f) {
      var i :| 0 <= i < |db2.evidence| && HeldBy(db2.cases, db2.evidence, f, i);
      assert HoldsElsewhere(db, c, f, db.evidence[i]);
    }
    if i :| 0 <= i < |db.evidence| && HoldsElsewhere(db, c, f, db.evidence[i]) {
      assert HeldBy(db2.cases, db2.evidence, f, i);
    }
  }

  // ---------------------------------------------------------------- what a write stores

  /** The row of a withdrawn revision, and only it, stops being current; nothing else changes
      in what is on record. */
  lemma SupersedingIs(db: Db, f: nat, x: Fragment, i: nat)
    requires f < |db.fragments| && i < |db.evidence|
    ensures var r := Supersede(db, f, x);
            && |r.evidence| == |db.evidence|
            && r.evidence[i] == db.evidence[i].(current := db.evidence[i].current
                                                           && !(db.evidence[i].kind == FragmentKind && db.evidence[i].source == f))
            && r == db.(fragments := db.fragments[f := x], evidence := r.evidence)
  {
  }

  /** The value a report's fragment takes when it is written again, before detection. */
  lemma EditedIs(x: Fragment, v: Fields, restore: bool)
    ensures var y := Edited(Restored(x, restore), v);
            && y.report == (if restore then Standing else x.report) && y.revision == x.revision + 1
            && y.cluster == v.cluster && y.topic == v.topic && y.key == v.key && y.claim == v.claim
            && y.place == v.place && y.note == v.note && y.sourceType == x.sourceType && y.sourceRef == x.sourceRef
            && y.status == if x.status == Withdrawn || x.key != v.key || x.claim != v.claim || x.place != v.place then Normal else x.status
    ensures Unchanged(x, v) <==> x.status != Withdrawn && x.cluster == v.cluster && x.topic == v.topic && x.key == v.key
                                 && x.claim == v.claim && x.place == v.place && x.note == v.note
  {
  }

  /** A report can be written unless it was deleted. An edit that says nothing new changes
      the fragment at most by restoring its report; one of what is no report changes nothing. */
  lemma EditIs(db: Db, op: Op)
    requires op.EditReport?
    ensures !(op.f < |db.fragments| && db.fragments[op.f].sourceType == ResidentReport && db.fragments[op.f].report != Deleted) ==>
              Apply(db, op) == db
    ensures op.f < |db.fragments| && db.fragments[op.f].sourceType == ResidentReport && db.fragments[op.f].report != Deleted ==>
              var x := db.fragments[op.f];
              if Unchanged(x, op.v) then
                Apply(db, op) == db.(fragments := db.fragments[op.f := if op.restore then x.(report := Standing) else x])
              else Apply(db, op) == Superseded(db, op.f, Edited(Restored(x, op.restore), op.v), op.matching, op.target)
  {
  }

  /** A report is deleted while it is there, and marked invalid once. Its fragment is withdrawn
      then, at a new revision if it was not. */
  lemma WithdrawalIs(db: Db, f: nat, deleted: bool)
    ensures if f < |db.fragments| && db.fragments[f].sourceType == ResidentReport
               && (db.fragments[f].report == Standing || (deleted && db.fragments[f].report == Invalid))
            then
              var x := db.fragments[f];
              Apply(db, WithdrawReport(f, deleted))
              == Withdrew(db, f, x.(report := if deleted then Deleted else Invalid, status := Withdrawn,
                                    revision := if x.status == Withdrawn then x.revision else x.revision + 1))
            else Apply(db, WithdrawReport(f, deleted)) == db
  {
  }

  /** A new fragment, of a report, an operator's entry or an answer, is live at revision 1 and
      carries what was said. */
  lemma NewFragmentIs(sourceType: SourceType, ref: Option<Name>, v: Fields)
    ensures NewFragment(sourceType, ref, v)
            == Fragment(Normal, 1, sourceType, Standing, ref, v.cluster, v.topic, v.key, v.claim, v.place, v.note)
  {
  }

  /** A later answer writes its claim, place and note over the earlier one, at the next
      revision; a first one is a new fragment. A consensus marks it accepted, unless the
      answers disagree. */
  lemma AnswerIs(db: Db, answer: Option<nat>, v: Fields, settles: bool)
    requires answer.Some? ==> answer.value < |db.fragments| && db.fragments[answer.value].sourceType == DirectedAnswer
    ensures var r, f := Apply(db, PutAnswer(answer, v, settles, Quiet)), answer.GetOr(|db.fragments|);
            && f < |r.fragments| && r == db.(fragments := r.fragments)
            && |r.fragments| == |db.fragments| + (if answer.None? then 1 else 0)
            && (forall g | 0 <= g < |db.fragments| && g != f :: r.fragments[g] == db.fragments[g])
            && r.fragments[f].claim == v.claim && r.fragments[f].place == v.place && r.fragments[f].note == v.note
            && (answer.Some? ==>
                  r.fragments[f] == db.fragments[f].(claim := v.claim, place := v.place, note := v.note,
                                                     revision := db.fragments[f].revision + 1,
                                                     status := if settles then Accepted else db.fragments[f].status))
            && (answer.None? ==> r.fragments[f].revision == 1 && r.fragments[f].sourceType == DirectedAnswer
                                 && r.fragments[f].key == v.key && r.fragments[f].topic == v.topic
                                 && r.fragments[f].status == if settles then Accepted else Normal)
  {
  }

  /** An answer that is already evidence of a case brings its new revision into it, and the
      case moves on; a first answer, or one that is no evidence there, brings nothing. */
  lemma AnswerUpdatesCase(db: Db, f: nat, created: bool, c: nat)
    requires f < |db.fragments|
    ensures var r := RouteAnswer(db, f, created, Updates(c));
            if !created && c < |db.cases| && (exists i | 0 <= i < |db.evidence| :: IsRow(db.evidence[i], c, FragmentKind, f))
            then r.evidence == AddOne(db, c, FragmentKind, f).evidence && r.fragments == db.fragments
                 && r.cases == db.cases[c := db.cases[c].(revision := db.cases[c].revision + 1)]
            else r == db
  {
  }

  /** So a later answer that a case cites moves the case on, and a first one moves none. */
  lemma AnswerMovesCase(db: Db, answer: Option<nat>, v: Fields, settles: bool, c: nat)
    requires c < |db.cases|
    requires answer.Some? ==> answer.value < |db.fragments| && db.fragments[answer.value].sourceType == DirectedAnswer
    ensures Apply(db, PutAnswer(answer, v, settles, Updates(c))).cases
            == if answer.Some? && (exists i | 0 <= i < |db.evidence| :: IsRow(db.evidence[i], c, FragmentKind, answer.value))
               then db.cases[c := db.cases[c].(revision := db.cases[c].revision + 1)] else db.cases
  {
  }

  /** Sources change by one revision at a time; an attachment is written once, and a fragment
      is not written this way. */
  lemma TouchIs(db: Db, kind: Kind, id: nat)
    ensures var r := Apply(db, TouchSource(kind, id));
            && r == db.(others := r.others)
            && (kind == FragmentKind ==> r == db)
            && (kind != FragmentKind && (kind, id) !in db.others ==> r.others == db.others[(kind, id) := 1])
            && (kind == AttachmentKind && (kind, id) in db.others ==> r == db)
            && (kind in {ReportKind, AnswerKind} && (kind, id) in db.others ==>
                  r.others == db.others[(kind, id) := db.others[(kind, id)] + 1])
  {
  }

  // ---------------------------------------------------------------- who is let in

  /** A decision is let in exactly on the case's present revision, while it is not resolved,
      if it disposes of every current row and of no other, cites no analysis or a succeeded
      one of this case and revision that is not stale, and names the fact's revision. */
  lemma DecisionIsLetIn(db: Db, c: nat, d: Decision)
    ensures Admits(db, c, d)
            <==> && c < |db.cases| && db.cases[c].revision == d.revision && db.cases[c].status != Resolved
                 && (forall i: nat :: i in d.dispositions <==> i < |db.evidence| && db.evidence[i].caseId == c && db.evidence[i].current)
                 && (d.analysis.Some? ==>
                       && d.analysis.value < |db.analyses|
                       && db.analyses[d.analysis.value].caseId == c && db.analyses[d.analysis.value].status == Succeeded
                       && !db.analyses[d.analysis.value].stale
                       && db.analyses[d.analysis.value].inputVersion == db.cases[c].revision)
                 && d.expectedFact == (if db.cases[c].key in db.facts.records then db.facts.records[db.cases[c].key].revision else 0)
    ensures !Admits(db, c, d) ==> Apply(db, Decide(c, d)) == db
  {
    if forall i: nat :: i in d.dispositions <==> i < |db.evidence| && db.evidence[i].caseId == c && db.evidence[i].current {
      assert d.dispositions.Keys == CurrentIds(db.evidence, c);
    }
  }

  /** The requests that name a revision are refused if the case has moved on, and change
      nothing then; reopening is for resolved cases only. */
  lemma StaleRequestsAreRefused(db: Db, c: nat, revision: nat, refs: seq<Ref>, reuse: Option<nat>)
    requires !(c < |db.cases| && db.cases[c].revision == revision)
    ensures Apply(db, AppendEvidence(c, revision, refs)) == db
    ensures Apply(db, ReopenCase(c, revision)) == db
    ensures Apply(db, EnqueueAnalysis(c, revision, reuse)) == db
  {
  }

  lemma OnlyResolvedIsReopened(db: Db, c: nat, revision: nat)
    requires c < |db.cases| && db.cases[c].status != Resolved
    ensures Apply(db, ReopenCase(c, revision)) == db
  {
  }

  /** Evidence added by hand moves the case on by one revision; with one bad reference nothing
      is added. */
  lemma AppendingIs(db: Db, c: nat, revision: nat, refs: seq<Ref>)
    ensures !RefsOk(db, refs) ==> Apply(db, AppendEvidence(c, revision, refs)) == db
    ensures c < |db.cases| && db.cases[c].revision == revision && RefsOk(db, refs) ==>
              var r := Apply(db, AppendEvidence(c, revision, refs));
              && r.cases == db.cases[c := db.cases[c].(revision := revision + 1)]
              && r.evidence == AddEvidence(db, c, refs).evidence && r.fragments == db.fragments && r.facts == db.facts
  {
  }

  /** A reference is good if its source exists, and is at the revision named, if one is. */
  lemma ReferencesAre(db: Db, ref: Ref)
    ensures RefOk(db, ref)
            <==> if ref.kind == FragmentKind then
                   ref.source < |db.fragments| && (ref.expected.None? || ref.expected.value == db.fragments[ref.source].revision)
                 else (ref.kind, ref.source) in db.others
                      && (ref.expected.None? || ref.expected.value == db.others[(ref.kind, ref.source)])
  {
  }

  // ---------------------------------------------------------------- analyses

  /** An analysis is enqueued for a case with evidence at its present revision, with exactly
      that evidence; a finished one of the same is reused, and leaves the tables as they are. */
  lemma EnqueueingIs(db: Db, c: nat, revision: nat, reuse: Option<nat>)
    requires c < |db.cases| && db.cases[c].revision == revision && Reusable(db, c, reuse)
    requires exists i | 0 <= i < |db.evidence| :: IsCurrent(db.evidence, c, i)
    ensures var r := Apply(db, EnqueueAnalysis(c, revision, reuse));
            && r.cases == db.cases[c := db.cases[c].(status := if reuse.Some? then AnalysisReady else Analyzing)]
            && r.evidence == db.evidence && r.fragments == db.fragments && r.facts == db.facts
            && r.analyses == db.analyses + if reuse.Some? then [] else
                               [Analysis(c, revision, CurrentIds(db.evidence, c), Queued, false)]
    ensures reuse.Some? ==>
              && reuse.value < |db.analyses| && db.analyses[reuse.value].status == Succeeded && !db.analyses[reuse.value].stale
              && db.analyses[reuse.value].caseId == c && db.analyses[reuse.value].inputVersion == revision
              && forall i: nat :: i in db.analyses[reuse.value].allowed <==>
                                  i < |db.evidence| && db.evidence[i].caseId == c && db.evidence[i].current
  {
    var i :| 0 <= i < |db.evidence| && IsCurrent(db.evidence, c, i);
    assert i in CurrentIds(db.evidence, c);
  }

  /** A running analysis completes: stale if it was or its case has moved on; the case is ready
      then, if the answer is good, and goes back from "analyzing" to open, if it is not. */
  lemma AnalysisCompletes(db: Db, a: nat)
    requires a < |db.analyses| && db.analyses[a].caseId < |db.cases|
    ensures var x, r := db.analyses[a], Apply(db, CompleteAnalysis(a));
            var k, stale := db.cases[x.caseId], x.stale || db.cases[x.caseId].revision != x.inputVersion;
            if x.status != Running then r == db
            else r == db.(analyses := db.analyses[a := x.(status := Succeeded, stale := stale)],
                          cases := db.cases[x.caseId := k.(status := if !stale then AnalysisReady
                                                                     else if k.status == Analyzing then Open else k.status)])
  {
  }

  /** A failed analysis sends the case back likewise, and only it can be queued again. */
  lemma AnalysisFails(db: Db, a: nat)
    requires a < |db.analyses| && db.analyses[a].caseId < |db.cases|
    ensures var x, r := db.analyses[a], Apply(db, FailAnalysis(a));
            var k := db.cases[x.caseId];
            r == db.(analyses := db.analyses[a := x.(status := Failed)],
                     cases := db.cases[x.caseId := k.(status := if k.status == Analyzing then Open else k.status)])
    ensures Apply(db, StartAnalysis(a)) == db.(analyses := db.analyses[a := db.analyses[a].(status := Running)])
    ensures Apply(db, RetryAnalysis(a))
            == if db.analyses[a].status == Failed then db.(analyses := db.analyses[a := db.analyses[a].(status := Queued, stale := false)])
               else db
  {
  }

  // ---------------------------------------------------------------- facts

  /** A fact put under review keeps what it said, in a new version of the system's that accepts
      nothing, and is public no more; without a record, or under review already, it stays. */
  lemma ReviewIs(s: Facts.Store, key: Name, c: nat, other: Name)
    requires other != key
    ensures var r := Facts.MarkUnderReview(s, key, c);
            && (key !in s.records || s.records[key].status == Facts.UnderReview ==> r == s)
            && (other in r.records <==> other in s.records) && (other in s.records ==> r.records[other] == s.records[other])
            && (key in s.records && s.records[key].status != Facts.UnderReview ==>
                  && r.records[key] == Facts.Record(Facts.UnderReview, false, s.records[key].revision + 1, Some(|s.versions|))
                  && |r.versions| == |s.versions| + 1
                  && var v := r.versions[|s.versions|];
                     v.accepted == {} && v.bySystem && !v.ended && v.sourceCase == c && v.factKey == key
                     && v.revision == s.records[key].revision + 1 && v.previous == s.records[key].version
                     && (Facts.CurrentVersion(s, key).Some? ==> v.statement == Facts.CurrentVersion(s, key).value.statement))
  {
  }
}
