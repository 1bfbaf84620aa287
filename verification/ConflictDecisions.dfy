/** What a decision does: to the fragments its case cites, to the case, and to the fact. What
    reopening a case does to its fact. */
module ConflictDecisions {
  import opened Options
  import opened Conflicts
  import opened ConflictInvariants
  import opened ConflictRuns
  import ConflictDetection
  import Facts

  // ---------------------------------------------------------------- the fragments

  /** Row `i` is current evidence of the case and cites fragment `f`. */
  predicate CitesFragment(rows: seq<Evidence>, c: nat, f: nat, i: nat) {
    i < |rows| && rows[i].caseId == c && rows[i].current && rows[i].kind == FragmentKind && rows[i].source == f
  }

  lemma {:induction false} DisposeUncited(fragments: seq<Fragment>, rows: seq<Evidence>, accepted: set<nat>, c: nat, n: nat, f: nat)
    requires n <= |rows| && f < |fragments|
    requires forall i: nat | i < n :: !CitesFragment(rows, c, f, i)
    ensures Dispose(fragments, rows, accepted, c, n)[f] == fragments[f]
  {
    if n != 0 {
      DisposeUncited(fragments, rows, accepted, c, n - 1, f);
      assert !CitesFragment(rows, c, f, n - 1);
    }
  }

  lemma {:induction false} DisposeCited(fragments: seq<Fragment>, rows: seq<Evidence>, accepted: set<nat>, c: nat, n: nat, f: nat, i: nat)
    requires i < n <= |rows| && f < |fragments| && CitesFragment(rows, c, f, i)
    requires forall j: nat | j < |rows| && j != i :: !CitesFragment(rows, c, f, j)
    ensures Dispose(fragments, rows, accepted, c, n)[f]
            == fragments[f].(status := if i in accepted then Accepted else Normal, revision := fragments[f].revision + 1)
  {
    if i == n - 1 {
      DisposeUncited(fragments, rows, accepted, c, n - 1, f);
    } else {
      assert !CitesFragment(rows, c, f, n - 1);
      DisposeCited(fragments, rows, accepted, c, n - 1, f, i);
    }
  }

  lemma CitedOnce(db: Db, c: nat, f: nat, i: nat, j: nat)
    requires RowsInv(db) && CitesFragment(db.evidence, c, f, i) && CitesFragment(db.evidence, c, f, j)
    ensures i == j
  {
    if i != j {
      OneCurrentRow(db, i, j);
    }
  }

  /** In every reachable state: a decision accepts the fragment of each current fragment row
      it accepts, sends that of each it rejects back to normal, and gives each one new
      revision. */
  lemma DecisionSettlesFragments(ops: seq<Op>, c: nat, d: Decision, i: nat)
    requires Admits(Run(EMPTY, ops), c, d)
    requires i < |Run(EMPTY, ops).evidence| && CitesFragment(Run(EMPTY, ops).evidence, c, Run(EMPTY, ops).evidence[i].source, i)
    ensures var db, r := Run(EMPTY, ops), Apply(Run(EMPTY, ops), Decide(c, d));
            var f := db.evidence[i].source;
            && i in d.dispositions && f < |db.fragments| && |r.fragments| == |db.fragments|
            && (r.fragments[f].status == Accepted <==> d.dispositions[i])
            && (r.fragments[f].status == Normal <==> !d.dispositions[i])
            && r.fragments[f] == db.fragments[f].(status := r.fragments[f].status, revision := db.fragments[f].revision + 1)
  {
    EmptyInv();
    RunKeeps(EMPTY, ops);
    SettlesCited(Run(EMPTY, ops), c, d, Run(EMPTY, ops).evidence[i].source, i);
  }

  lemma SettlesCited(db: Db, c: nat, d: Decision, f: nat, i: nat)
    requires RowsInv(db) && Admits(db, c, d) && CitesFragment(db.evidence, c, f, i)
    ensures i in d.dispositions && f < |db.fragments|
    ensures Apply(db, Decide(c, d)).fragments
            == Dispose(db.fragments, db.evidence, AcceptedIds(d), c, |db.evidence|)
    ensures Dispose(db.fragments, db.evidence, AcceptedIds(d), c, |db.evidence|)[f]
            == db.fragments[f].(status := if d.dispositions[i] then Accepted else Normal, revision := db.fragments[f].revision + 1)
  {
    assert RowOk(db, i);
    assert i in CurrentIds(db.evidence, c);
    forall j: nat | j < |db.evidence| && j != i ensures !CitesFragment(db.evidence, c, f, j) {
      if CitesFragment(db.evidence, c, f, j) {
        CitedOnce(db, c, f, i, j);
      }
    }
    DisposeCited(db.fragments, db.evidence, AcceptedIds(d), c, |db.evidence|, f, i);
  }

  /** It touches no other fragment, no evidence and no other case, and resolves its own at a
      new revision with the rows it accepted. */
  lemma DecisionTouchesNothingElse(db: Db, c: nat, d: Decision, f: nat)
    requires Admits(db, c, d) && f < |db.fragments|
    requires forall i: nat | i < |db.evidence| :: !CitesFragment(db.evidence, c, f, i)
    ensures var r := Apply(db, Decide(c, d));
            && |r.fragments| == |db.fragments| && r.fragments[f] == db.fragments[f]
            && r.evidence == db.evidence && r.analyses == db.analyses && r.others == db.others
            && |r.cases| == |db.cases| && (forall k | 0 <= k < |db.cases| && k != c :: r.cases[k] == db.cases[k])
            && r.cases[c].status == Resolved && r.cases[c].revision == db.cases[c].revision + 1 && r.cases[c].key == db.cases[c].key
            && r.cases[c].resolution == ByOperator(set i | i in d.dispositions && d.dispositions[i])
  {
    DisposeUncited(db.fragments, db.evidence, AcceptedIds(d), c, |db.evidence|, f);
  }

  // ---------------------------------------------------------------- the fact

  /** The fact's new current version is the decision's: it accepts exactly the rows the
      decision accepts, follows the version before, and says what the decision says. Other
      facts keep theirs. */
  lemma DecisionWritesFact(db: Db, c: nat, d: Decision, i: nat, other: Name)
    requires Admits(db, c, d) && i in d.dispositions && other != db.cases[c].key
    ensures var r := Apply(db, Decide(c, d));
            && Facts.CurrentVersion(r.facts, db.cases[c].key).Some?
            && var v := Facts.CurrentVersion(r.facts, db.cases[c].key).value;
               && (i in v.accepted <==> d.dispositions[i]) && v.accepted <= d.dispositions.Keys
               && v.revision == d.expectedFact + 1 && v.status == d.factStatus && v.statement == d.conclusion
               && v.sourceCase == c && !v.bySystem && !v.ended && v.factKey == db.cases[c].key
               && v.previous == (if db.cases[c].key in db.facts.records then db.facts.records[db.cases[c].key].version else None)
    ensures var r := Apply(db, Decide(c, d)).facts;
            && r.records[db.cases[c].key].status == d.factStatus && r.records[db.cases[c].key].isPublic == d.isPublic
            && r.records[db.cases[c].key].revision == d.expectedFact + 1
            && (other in r.records <==> other in db.facts.records)
            && (other in r.records ==> r.records[other] == db.facts.records[other])
  {
  }

  // ---------------------------------------------------------------- reopening

  /** Reopening by hand moves the case on, forgets its resolution, marks its analyses and puts
      its fact under review. */
  lemma ReopeningReviews(db: Db, c: nat, revision: nat, a: nat)
    requires c < |db.cases| && db.cases[c].status == Resolved && db.cases[c].revision == revision
    requires a < |db.analyses| && db.analyses[a].caseId == c
    ensures var r := Apply(db, ReopenCase(c, revision));
            && |r.cases| == |db.cases| && r.cases[c] == Case(db.cases[c].key, Reopened, revision + 1, Unresolved)
            && |r.analyses| == |db.analyses| && r.analyses[a].stale
            && (db.cases[c].key in db.facts.records ==> UnderReviewNow(r.facts, db.cases[c].key))
  {
  }

  lemma ReopenedTarget(db: Db, target: Option<nat>, key: Name, frags: seq<nat>)
    requires InRange(db, frags) && target.Some? && target.value < |db.cases| && db.cases[target.value].status == Resolved
    ensures var r, k := FindOrOpen(db, target, key, frags), db.cases[target.value];
            && |r.cases| == |db.cases| && r.cases[target.value] == Case(k.key, Reopened, k.revision + 1, Unresolved)
            && (k.key in db.facts.records ==> UnderReviewNow(r.facts, k.key))
  {
  }

  /** A report that contradicts others near a resolved case, in any reachable state: the case
      is reopened, and its fact is under review when the transaction is over. */
  lemma DetectionReviews(ops: seq<Op>, op: Op, c: nat)
    requires ConflictDetection.Writes(Run(EMPTY, ops), op) && op.target == Some(c)
    requires c < |Run(EMPTY, ops).cases| && Run(EMPTY, ops).cases[c].status == Resolved
    requires Detects(ConflictDetection.Written(Run(EMPTY, ops), op), ConflictDetection.WrittenId(Run(EMPTY, ops), op), op.matching, op.target)
    requires Run(EMPTY, ops).cases[c].key in Run(EMPTY, ops).facts.records
    ensures var r := Apply(Run(EMPTY, ops), op);
            && c < |r.cases| && r.cases[c].status == Reopened && Run(EMPTY, ops).cases[c].revision < r.cases[c].revision
            && UnderReviewNow(r.facts, Run(EMPTY, ops).cases[c].key)
  {
    var db := Run(EMPTY, ops);
    var w := if op.CreateReport? then NOTHING else WithdrawalOf(db, op.f);
    ConflictDetection.WriteDetects(db, op);
    ConflictDetection.ContradictionIsOpened(ops, op, 0);
    DetectedReviews(ConflictDetection.Written(db, op), ConflictDetection.WrittenId(db, op), op.matching, c,
                    ConflictDetection.Rejudged(db, op), w);
  }

  lemma DetectedReviews(db: Db, f: nat, matching: seq<nat>, c: nat, list: seq<nat>, w: Withdrawal)
    requires Detects(db, f, matching, Some(c)) && db.cases[c].status == Resolved && db.cases[c].key in db.facts.records
    requires forall k | 0 <= k < |list| :: list[k] < |db.cases|
    ensures var r := DetectAndReconcile(db, f, matching, Some(c), list, w);
            && c < |r.cases| && db.cases[c].revision < r.cases[c].revision
            && UnderReviewNow(r.facts, db.cases[c].key)
            && (!Finished(r.cases[c].status) ==> r.cases[c].status == Reopened)
  {
    var frags, db1 := matching + [f], Detect(db, f, matching, Some(c));
    ReopenedTarget(db, Some(c), db.fragments[f].key.value, frags);
    ReconcileKeepsReview(db1, list + [c], {}, w, db.cases[c].key);
    ReconcileQuietly(db1, list + [c], {}, w);
    ReconcileSound(db1, list + [c], {}, w, c);
  }
}
