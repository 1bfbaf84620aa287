/** Whole runs of transactions on conflicts: the revision of a case stands for its evidence,
    each source has one current row, facts are linear, withdrawn evidence is followed up. */
module ConflictRuns {
  import opened Options
  import opened Conflicts
  import opened ConflictInvariants
  import Facts

  // ---------------------------------------------------------------- whole runs

  lemma EmptyInv()
    ensures Inv(EMPTY)
  {
    forall key ensures Facts.Linear(Facts.EMPTY, key) {
    }
  }

  lemma {:induction false} RunKeeps(db: Db, ops: seq<Op>)
    requires Inv(db)
    ensures Inv(Run(db, ops)) && Follows(db, Run(db, ops))
    decreases |ops|
  {
    if ops == [] {
      SamePart(db);
      PartKeepsInv(db, db);
    } else {
      ApplyKeeps(db, ops[0]);
      RunKeeps(Apply(db, ops[0]), ops[1..]);
      FollowsTransitive(db, Apply(db, ops[0]), Run(db, ops));
    }
  }

  lemma {:induction false} RunSplits(db: Db, first: seq<Op>, second: seq<Op>)
    ensures Run(db, first + second) == Run(Run(db, first), second)
    decreases |first|
  {
    if first == [] {
      assert first + second == second;
    } else {
      assert (first + second)[1..] == first[1..] + second;
      RunSplits(Apply(db, first[0]), first[1..], second);
    }
  }

  lemma RunBegins(db: Db, op: Op, rest: seq<Op>)
    ensures Run(db, [op] + rest) == Run(Apply(db, op), rest)
  {
    assert ([op] + rest)[1..] == rest;
  }

  /** Two committed states of a case with one revision have the same current evidence. */
  lemma RevisionStampsEvidence(first: seq<Op>, second: seq<Op>, c: nat)
    requires c < |Run(EMPTY, first).cases|
    ensures c < |Run(EMPTY, first + second).cases|
    ensures var earlier, later := Run(EMPTY, first), Run(EMPTY, first + second);
            && earlier.cases[c].revision <= later.cases[c].revision
            && (earlier.cases[c].revision == later.cases[c].revision ==>
                  CurrentIds(earlier.evidence, c) == CurrentIds(later.evidence, c))
  {
    EmptyInv();
    RunKeeps(EMPTY, first);
    RunSplits(EMPTY, first, second);
    RunKeeps(Run(EMPTY, first), second);
    assert StampKept(Run(EMPTY, first), Run(EMPTY, first + second), c);
  }

  /** In every run each case has at most one current row per source. */
  lemma OneCurrentRowPerSource(ops: seq<Op>, i: nat, j: nat)
    requires var rows := Run(EMPTY, ops).evidence;
             i < j < |rows| && SameSource(rows[i], rows[j])
    ensures var rows := Run(EMPTY, ops).evidence; !(rows[i].current && rows[j].current)
  {
    EmptyInv();
    RunKeeps(EMPTY, ops);
    OneCurrentRow(Run(EMPTY, ops), i, j);
  }

  /** A decision that cites an analysis disposes of exactly the evidence the analysis saw. */
  lemma DecisionSawTheEvidence(ops: seq<Op>, c: nat, d: Decision)
    requires Admits(Run(EMPTY, ops), c, d) && d.analysis.Some?
    ensures Run(EMPTY, ops).analyses[d.analysis.value].allowed == d.dispositions.Keys
  {
    EmptyInv();
    RunKeeps(EMPTY, ops);
    assert AnalysisOk(Run(EMPTY, ops), d.analysis.value);
  }

  /** Every fact's versions form one chain, and earlier versions stay as written. */
  lemma FactsStayLinear(first: seq<Op>, second: seq<Op>)
    ensures Facts.AllLinear(Run(EMPTY, first + second).facts)
    ensures Facts.Extends(Run(EMPTY, first).facts, Run(EMPTY, first + second).facts)
  {
    EmptyInv();
    RunKeeps(EMPTY, first);
    RunSplits(EMPTY, first, second);
    RunKeeps(Run(EMPTY, first), second);
  }

  // ---------------------------------------------------------------- losing accepted evidence

  predicate UnderReviewNow(s: Facts.Store, key: Name) {
    key in s.records && s.records[key].status == Facts.UnderReview
  }

  /** The fact's current version accepts one of the rows. */
  predicate Relies(s: Facts.Store, key: Name, rows: set<nat>) {
    var v := Facts.CurrentVersion(s, key);
    v.Some? && v.value.accepted * rows != {}
  }

  lemma ReviewKeepsRelies(s: Facts.Store, key: Name, c: nat, other: Name, rows: set<nat>)
    requires UnderReviewNow(s, other) || Relies(s, other, rows)
    ensures UnderReviewNow(Facts.MarkUnderReview(s, key, c), other) || Relies(Facts.MarkUnderReview(s, key, c), other, rows)
  {
  }

  lemma ReconcileOneReviews(db: Db, c: nat, lost: set<nat>, before: nat, key: Name, rows: set<nat>)
    requires c < |db.cases| && (UnderReviewNow(db.facts, key) || Relies(db.facts, key, rows))
    ensures var facts := ReconcileOne(db, c, lost, before).facts;
            && (UnderReviewNow(facts, key) || Relies(facts, key, rows))
            && (UnderReviewNow(db.facts, key) || (db.cases[c].key == key && lost == rows) ==> UnderReviewNow(facts, key))
  {
    ReviewKeepsRelies(db.facts, db.cases[c].key, c, key, rows);
  }

  lemma {:induction false} ReconcileKeepsReview(db: Db, list: seq<nat>, seen: set<nat>, w: Withdrawal, key: Name)
    requires forall k | 0 <= k < |list| :: list[k] < |db.cases|
    requires UnderReviewNow(db.facts, key)
    ensures UnderReviewNow(Reconcile(db, list, seen, w).facts, key)
    decreases |list|
  {
    if list == [] {
    } else if list[0] in seen {
      ReconcileKeepsReview(db, list[1..], seen, w, key);
    } else {
      var c0 := list[0];
      ReconcileOneReviews(db, c0, Lost(w, c0), Before(db, w, c0), key, {});
      ReconcileKeepsReview(ReconcileOne(db, c0, Lost(w, c0), Before(db, w, c0)), list[1..], seen + {c0}, w, key);
    }
  }

  lemma ReconcileOneKeepsKeys(db: Db, c: nat, lost: set<nat>, before: nat, d: nat)
    requires c < |db.cases| && d < |db.cases|
    ensures |ReconcileOne(db, c, lost, before).cases| == |db.cases|
    ensures ReconcileOne(db, c, lost, before).cases[d].key == db.cases[d].key
  {
  }

  /** A fact that accepted evidence a listed case has lost ends under review. */
  lemma {:induction false} AcceptedLossIsReviewed(db: Db, list: seq<nat>, seen: set<nat>, w: Withdrawal, c: nat)
    requires forall k | 0 <= k < |list| :: list[k] < |db.cases|
    requires c in list && c !in seen
    requires UnderReviewNow(db.facts, db.cases[c].key) || Relies(db.facts, db.cases[c].key, Lost(w, c))
    ensures UnderReviewNow(Reconcile(db, list, seen, w).facts, db.cases[c].key)
    decreases |list|
  {
    var c0 := list[0];
    if c0 in seen {
      AcceptedLossIsReviewed(db, list[1..], seen, w, c);
    } else {
      var db1 := ReconcileOne(db, c0, Lost(w, c0), Before(db, w, c0));
      ReconcileOneReviews(db, c0, Lost(w, c0), Before(db, w, c0), db.cases[c].key, Lost(w, c));
      ReconcileOneKeepsKeys(db, c0, Lost(w, c0), Before(db, w, c0), c);
      if c == c0 {
        ReconcileKeepsReview(db1, list[1..], seen + {c0}, w, db.cases[c].key);
      } else {
        AcceptedLossIsReviewed(db1, list[1..], seen + {c0}, w, c);
      }
    }
  }

  /** What follows when case `c` lost rows of fragment `f` between the two states. */
  ghost predicate FollowedUp(db: Db, r: Db, f: nat, c: nat) {
    && c < |db.cases| == |r.cases|
    && r.evidence == ClearFragment(db.evidence, f)
    && Settled(r, c)
    && (ResolvedNow(db, r, c) <==> !Finished(db.cases[c].status) && !StillDisputed(r.evidence, c))
    && (ResolvedNow(db, r, c) ==> r.cases[c].resolution == Automatic && Freed(r, c))
    && (Relies(db.facts, db.cases[c].key, WithdrawnIds(db.evidence, c, f)) ==> UnderReviewNow(r.facts, db.cases[c].key))
  }

  /** Withdrawing a report, in any reachable state: no case keeps its fragment's rows, every
      case that lost one is judged again, and a fact that accepted one is under review. */
  lemma WithdrawalIsFollowedUp(ops: seq<Op>, f: nat, deleted: bool, c: nat)
    requires MayWithdraw(Run(EMPTY, ops), f, deleted)
    requires c < |Run(EMPTY, ops).cases| && WithdrawnIds(Run(EMPTY, ops).evidence, c, f) != {}
    ensures FollowedUp(Run(EMPTY, ops), Apply(Run(EMPTY, ops), WithdrawReport(f, deleted)), f, c)
  {
    WithdrawalFollowed(Run(EMPTY, ops), f, Pulled(Run(EMPTY, ops).fragments[f], deleted), c);
  }

  lemma WithdrawalFollowed(db: Db, f: nat, x: Fragment, c: nat)
    requires f < |db.fragments| && c < |db.cases| && WithdrawnIds(db.evidence, c, f) != {}
    ensures FollowedUp(db, Withdrew(db, f, x), f, c)
  {
    var db1, list := Supersede(db, f, x), AffectedCases(db.evidence, f, |db.cases|);
    AffectedInRange(db.evidence, f, |db.cases|);
    assert c in list;
    ReconcileSound(db1, list, {}, WithdrawalOf(db, f), c);
    if Relies(db.facts, db.cases[c].key, WithdrawnIds(db.evidence, c, f)) {
      AcceptedLossIsReviewed(db1, list, {}, WithdrawalOf(db, f), c);
    }
  }
}
