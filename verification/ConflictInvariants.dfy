/** What every transaction on conflicts keeps. Evidence rows: a row cites a revision its
    source has reached, the current row of a source is its latest, and an inactive row of a
    fragment's present revision belongs to a withdrawn fragment. Revisions: a case whose
    revision did not move has the evidence it had, so an analysis of the present revision
    saw the present evidence. Facts stay linear, and reconciliation leaves every case it
    was given settled. The theorems about whole runs are in module ConflictRuns. */
module ConflictInvariants {
  import opened Options
  import opened Conflicts
  import Facts

  // ---------------------------------------------------------------- evidence rows

  /** A row cites a revision its source has reached; a row of the present revision of a live
      fragment is current, so adding evidence never brings one back. */
  predicate RowOk(db: Db, i: nat) {
    && i < |db.evidence|
    && var e := db.evidence[i];
       var revision := SourceRevision(db, e.kind, e.source);
       && e.caseId < |db.cases| && revision.Some? && e.revision <= revision.value
       && (e.kind == FragmentKind && e.revision == revision.value && !e.current ==>
             db.fragments[e.source].status == Withdrawn)
  }

  predicate SameSource(a: Evidence, b: Evidence) {
    a.caseId == b.caseId && a.kind == b.kind && a.source == b.source
  }

  /** Two rows of one source in one case differ in revision, and a current one is the latest. */
  predicate PairOk(rows: seq<Evidence>, i: nat, j: nat) {
    i < |rows| && j < |rows| && i != j && SameSource(rows[i], rows[j]) ==>
      rows[i].revision != rows[j].revision && (rows[i].current ==> rows[j].revision < rows[i].revision)
  }

  /** Only a resident report's fragment is ever withdrawn. */
  predicate FragmentOk(x: Fragment) {
    x.status == Withdrawn ==> x.sourceType == ResidentReport
  }

  ghost predicate RowsInv(db: Db) {
    && (forall i: nat {:trigger RowOk(db, i)} | i < |db.evidence| :: RowOk(db, i))
    && (forall i: nat, j: nat {:trigger PairOk(db.evidence, i, j)} :: PairOk(db.evidence, i, j))
    && (forall f | 0 <= f < |db.fragments| :: FragmentOk(db.fragments[f]))
  }

  /** One current row per source in every case. */
  lemma OneCurrentRow(db: Db, i: nat, j: nat)
    requires RowsInv(db)
    requires i < |db.evidence| && j < |db.evidence| && i != j && SameSource(db.evidence[i], db.evidence[j])
    ensures !(db.evidence[i].current && db.evidence[j].current)
  {
    assert PairOk(db.evidence, i, j) && PairOk(db.evidence, j, i);
  }

  predicate FragmentStep(x: Fragment, x': Fragment) {
    && x.revision <= x'.revision
    && (x.revision == x'.revision && x.status == Withdrawn ==> x'.status == Withdrawn)
    && (FragmentOk(x) ==> FragmentOk(x'))
  }

  /** Cases and sources only grow: what a step that leaves the evidence alone may do. */
  ghost predicate Grows(db: Db, db': Db) {
    && |db.cases| <= |db'.cases|
    && |db.fragments| <= |db'.fragments|
    && (forall f | 0 <= f < |db.fragments| :: FragmentStep(db.fragments[f], db'.fragments[f]))
    && (forall f | |db.fragments| <= f < |db'.fragments| :: FragmentOk(db'.fragments[f]))
    && (forall k | k in db.others :: k in db'.others && db.others[k] <= db'.others[k])
  }

  lemma GrowsKeepsRows(db: Db, db': Db)
    requires RowsInv(db) && Grows(db, db') && db'.evidence == db.evidence
    ensures RowsInv(db')
  {
    forall i: nat | i < |db'.evidence| ensures RowOk(db', i) {
      assert RowOk(db, i);
      var e := db.evidence[i];
      if e.kind == FragmentKind {
        assert FragmentStep(db.fragments[e.source], db'.fragments[e.source]);
      }
    }
    forall f | 0 <= f < |db'.fragments| ensures FragmentOk(db'.fragments[f]) {
      if f < |db.fragments| {
        assert FragmentStep(db.fragments[f], db'.fragments[f]);
      }
    }
  }

  // ---------------------------------------------------------------- adding a row

  lemma AddOneExisting(db: Db, c: nat, kind: Kind, source: nat, i: nat)
    requires RowsInv(db) && SourceRevision(db, kind, source).Some?
    requires FindRow(db.evidence, c, kind, source, SourceRevision(db, kind, source).value) == Some(i)
    ensures RowsInv(AddOne(db, c, kind, source))
  {
    var db' := AddOne(db, c, kind, source);
    forall k: nat | k < |db'.evidence| ensures RowOk(db', k) {
      assert RowOk(db, k);
    }
    forall k: nat, j: nat ensures PairOk(db'.evidence, k, j) {
      assert PairOk(db.evidence, k, j);
      if j < |db.evidence| {
        assert RowOk(db, j);
      }
    }
  }

  lemma AddOneNew(db: Db, c: nat, kind: Kind, source: nat)
    requires RowsInv(db) && SourceRevision(db, kind, source).Some? && c < |db.cases|
    requires FindRow(db.evidence, c, kind, source, SourceRevision(db, kind, source).value) == None
    ensures RowsInv(AddOne(db, c, kind, source))
  {
    var db' := AddOne(db, c, kind, source);
    var n := |db.evidence|;
    forall k: nat | k < |db'.evidence| ensures RowOk(db', k) {
      if k < n {
        assert RowOk(db, k);
        assert db'.evidence[k] in {db.evidence[k], db.evidence[k].(current := false)};
      }
    }
    forall k: nat, j: nat ensures PairOk(db'.evidence, k, j) {
      assert PairOk(db.evidence, k, j);
      if j < n { assert RowOk(db, j); }
      if k < n { assert RowOk(db, k); }
    }
  }

  lemma AddOneKeepsRows(db: Db, c: nat, kind: Kind, source: nat)
    requires RowsInv(db) && SourceRevision(db, kind, source).Some? && c < |db.cases|
    ensures RowsInv(AddOne(db, c, kind, source))
  {
    match FindRow(db.evidence, c, kind, source, SourceRevision(db, kind, source).value)
    case Some(i) => AddOneExisting(db, c, kind, source, i);
    case None => AddOneNew(db, c, kind, source);
  }

  lemma {:induction false} AddEvidenceKeepsRows(db: Db, c: nat, refs: seq<Ref>)
    requires RowsInv(db) && RefsOk(db, refs) && c < |db.cases|
    ensures RowsInv(AddEvidence(db, c, refs))
    decreases |refs|
  {
    if refs != [] {
      assert RefOk(db, refs[0]);
      var db1 := AddOne(db, c, refs[0].kind, refs[0].source);
      AddOneKeepsRows(db, c, refs[0].kind, refs[0].source);
      assert forall k | 0 <= k < |refs[1..]| :: RefOk(db, refs[k + 1]) && refs[1..][k] == refs[k + 1];
      AddEvidenceKeepsRows(db1, c, refs[1..]);
    }
  }

  lemma AddOneElsewhere(db: Db, c: nat, kind: Kind, source: nat, d: nat)
    requires SourceRevision(db, kind, source).Some? && d != c
    ensures CurrentIds(AddOne(db, c, kind, source).evidence, d) == CurrentIds(db.evidence, d)
  {
    var rows := AddOne(db, c, kind, source).evidence;
    forall i: nat ensures IsCurrent(rows, d, i) == IsCurrent(db.evidence, d, i) {
    }
  }

  /** Evidence added to one case is not evidence of another. */
  lemma {:induction false} AddEvidenceElsewhere(db: Db, c: nat, refs: seq<Ref>, d: nat)
    requires RefsOk(db, refs) && d != c
    ensures CurrentIds(AddEvidence(db, c, refs).evidence, d) == CurrentIds(db.evidence, d)
    decreases |refs|
  {
    if refs != [] {
      assert RefOk(db, refs[0]);
      AddOneElsewhere(db, c, refs[0].kind, refs[0].source, d);
      assert forall k | 0 <= k < |refs[1..]| :: RefOk(db, refs[k + 1]) && refs[1..][k] == refs[k + 1];
      AddEvidenceElsewhere(AddOne(db, c, refs[0].kind, refs[0].source), c, refs[1..], d);
    }
  }

  predicate Live(db: Db, frags: seq<nat>) {
    forall k | 0 <= k < |frags| :: frags[k] < |db.fragments| && db.fragments[frags[k]].status != Withdrawn
  }

  /** Fragments already cited at their present revision add nothing: the row found is
      current, because only a withdrawn fragment has one that is not. */
  lemma {:induction false} CitedAddsNothing(db: Db, c: nat, refs: seq<Ref>)
    requires RowsInv(db) && RefsOk(db, refs)
    requires forall k | 0 <= k < |refs| ::
               refs[k].kind == FragmentKind && refs[k].source < |db.fragments|
               && db.fragments[refs[k].source].status != Withdrawn
               && FindRow(db.evidence, c, FragmentKind, refs[k].source, db.fragments[refs[k].source].revision).Some?
    ensures AddEvidence(db, c, refs) == db
    decreases |refs|
  {
    if refs != [] {
      assert RefOk(db, refs[0]);
      var i := FindRow(db.evidence, c, FragmentKind, refs[0].source, db.fragments[refs[0].source].revision).value;
      assert RowOk(db, i);
      assert db.evidence[i := db.evidence[i].(current := true)] == db.evidence;
      assert forall k | 0 <= k < |refs[1..]| :: RefOk(db, refs[k + 1]) && refs[1..][k] == refs[k + 1];
      CitedAddsNothing(db, c, refs[1..]);
    }
  }

  // ---------------------------------------------------------------- withdrawing a fragment's rows

  /** A fragment that takes a new value moves on, or is withdrawn where it stands. */
  predicate Superseding(x: Fragment, x': Fragment) {
    && FragmentOk(x')
    && (x.revision < x'.revision || (x.revision == x'.revision && x'.status == Withdrawn))
  }

  lemma SupersedeKeepsRows(db: Db, f: nat, x: Fragment)
    requires RowsInv(db) && f < |db.fragments| && Superseding(db.fragments[f], x)
    ensures RowsInv(Supersede(db, f, x))
  {
    var db' := Supersede(db, f, x);
    forall i: nat | i < |db'.evidence| ensures RowOk(db', i) {
      assert RowOk(db, i);
      assert db'.evidence[i] in {db.evidence[i], db.evidence[i].(current := false)};
    }
    forall i: nat, j: nat ensures PairOk(db'.evidence, i, j) {
      assert PairOk(db.evidence, i, j);
    }
    forall g | 0 <= g < |db'.fragments| ensures FragmentOk(db'.fragments[g]) {
      assert db'.fragments[g] in {db.fragments[g], x};
    }
  }

  /** Only the affected cases lose evidence. */
  lemma SupersedeElsewhere(db: Db, f: nat, x: Fragment, c: nat)
    requires f < |db.fragments| && c < |db.cases| && c !in AffectedCases(db.evidence, f, |db.cases|)
    ensures CurrentIds(Supersede(db, f, x).evidence, c) == CurrentIds(db.evidence, c)
  {
    var rows := Supersede(db, f, x).evidence;
    assert WithdrawnIds(db.evidence, c, f) == {};
    forall i: nat ensures IsCurrent(rows, c, i) == IsCurrent(db.evidence, c, i) {
      assert i !in WithdrawnIds(db.evidence, c, f);
    }
  }

  // ---------------------------------------------------------------- steps that leave evidence alone

  /** All but status and staleness of an analysis is written once. */
  predicate SameInput(a: Analysis, a': Analysis) {
    a'.caseId == a.caseId && a'.inputVersion == a.inputVersion && a'.allowed == a.allowed
  }

  ghost predicate FactsKept(db: Db, db': Db) {
    && (Facts.AllLinear(db.facts) ==> Facts.AllLinear(db'.facts))
    && (Facts.AllLinear(db.facts) ==> Facts.Extends(db.facts, db'.facts))
  }

  /** The case may move on; no evidence moves. */
  ghost predicate Quietly(db: Db, db': Db) {
    && db'.evidence == db.evidence
    && |db'.cases| == |db.cases|
    && |db'.fragments| == |db.fragments|
    && db'.others == db.others
    && |db'.analyses| == |db.analyses|
    && (forall c | 0 <= c < |db.cases| :: db.cases[c].revision <= db'.cases[c].revision)
    && (forall a | 0 <= a < |db.analyses| :: SameInput(db.analyses[a], db'.analyses[a]))
    && (forall f | 0 <= f < |db.fragments| :: FragmentStep(db.fragments[f], db'.fragments[f]))
    && FactsKept(db, db')
  }

  lemma ExtendsTransitive(s1: Facts.Store, s2: Facts.Store, s3: Facts.Store)
    requires Facts.Extends(s1, s2) && Facts.Extends(s2, s3)
    ensures Facts.Extends(s1, s3)
  {
  }

  lemma QuietlyTransitive(db1: Db, db2: Db, db3: Db)
    requires Quietly(db1, db2) && Quietly(db2, db3)
    ensures Quietly(db1, db3)
  {
    forall f | 0 <= f < |db1.fragments| ensures FragmentStep(db1.fragments[f], db3.fragments[f]) {
      assert FragmentStep(db1.fragments[f], db2.fragments[f]);
      assert FragmentStep(db2.fragments[f], db3.fragments[f]);
    }
    forall a | 0 <= a < |db1.analyses| ensures SameInput(db1.analyses[a], db3.analyses[a]) {
      assert SameInput(db1.analyses[a], db2.analyses[a]);
    }
    if Facts.AllLinear(db1.facts) {
      ExtendsTransitive(db1.facts, db2.facts, db3.facts);
    }
  }

  lemma TouchQuietly(db: Db, c: nat, k: Case, stale: bool)
    requires c < |db.cases| && db.cases[c].revision <= k.revision
    ensures Quietly(db, SetCase(db, c, k).(analyses := if stale then MarkStale(db.analyses, c) else db.analyses))
  {
    var db' := SetCase(db, c, k).(analyses := if stale then MarkStale(db.analyses, c) else db.analyses);
    forall a | 0 <= a < |db.analyses| ensures SameInput(db.analyses[a], db'.analyses[a]) {
      assert db'.analyses[a] in {db.analyses[a], db.analyses[a].(stale := true)};
    }
  }

  lemma ReviewQuietly(db: Db, c: nat)
    requires c < |db.cases|
    ensures Quietly(db, Review(db, c))
  {
    if Facts.AllLinear(db.facts) {
      Facts.ReviewKeepsLinear(db.facts, db.cases[c].key, c);
    }
  }

  lemma NoteQuietly(db: Db, c: nat, lost: set<nat>, before: nat)
    requires c < |db.cases|
    ensures Quietly(db, NoteWithdrawal(db, c, lost, before))
    ensures lost != {} && before <= db.cases[c].revision ==> before < NoteWithdrawal(db, c, lost, before).cases[c].revision
    ensures NoteWithdrawal(db, c, lost, before).cases[c].status == db.cases[c].status
    ensures forall d | 0 <= d < |db.cases| && d != c :: NoteWithdrawal(db, c, lost, before).cases[d] == db.cases[d]
    ensures NoteWithdrawal(db, c, lost, before).fragments == db.fragments
  {
    if lost != {} {
      var k := db.cases[c];
      var k' := k.(revision := if k.revision == before then k.revision + 1 else k.revision);
      TouchQuietly(db, c, k', true);
      var db1 := SetCase(db, c, k').(analyses := MarkStale(db.analyses, c));
      ReviewQuietly(db1, c);
      QuietlyTransitive(db, db1, Review(db1, c));
    } else {
      TouchQuietly(db, c, db.cases[c], false);
      assert SetCase(db, c, db.cases[c]).(analyses := db.analyses) == db;
    }
  }

  lemma ReleaseQuietly(db: Db, c: nat)
    ensures Quietly(db, db.(fragments := Release(db, c, |db.fragments|)))
  {
    var db' := db.(fragments := Release(db, c, |db.fragments|));
    forall f | 0 <= f < |db.fragments| ensures FragmentStep(db.fragments[f], db'.fragments[f]) {
      assert db'.fragments[f] == ReleasedFragment(db, c, f);
    }
  }

  lemma AutoResolveQuietly(db: Db, c: nat, bump: bool)
    requires c < |db.cases|
    ensures Quietly(db, AutoResolve(db, c, bump))
    ensures forall d | 0 <= d < |db.cases| && d != c :: AutoResolve(db, c, bump).cases[d] == db.cases[d]
    ensures AutoResolve(db, c, bump).cases[c].status == Resolved
    ensures AutoResolve(db, c, bump).cases[c].resolution == Automatic
  {
    var k := db.cases[c].(status := Resolved, resolution := Automatic);
    TouchQuietly(db, c, if bump then k.(revision := k.revision + 1) else k, bump);
    var db2 := if bump then Touch(SetCase(db, c, k), c) else SetCase(db, c, k);
    assert db2 == SetCase(db, c, if bump then k.(revision := k.revision + 1) else k)
                    .(analyses := if bump then MarkStale(db.analyses, c) else db.analyses);
    ReleaseQuietly(db2, c);
    QuietlyTransitive(db, db2, db2.(fragments := Release(db2, c, |db2.fragments|)));
  }

  // ---------------------------------------------------------------- re-judging cases

  predicate Settled(db: Db, c: nat)
    requires c < |db.cases|
  {
    Finished(db.cases[c].status) || StillDisputed(db.evidence, c)
  }

  /** A fragment the case cites is in conflict only if an unfinished case still holds it. */
  ghost predicate Freed(db: Db, c: nat) {
    forall f: nat {:trigger Cites(db.evidence, c, f)} ::
      f < |db.fragments| && Cites(db.evidence, c, f) && db.fragments[f].status == InConflict ==> Held(db.cases, db.evidence, f)
  }

  predicate ResolvedNow(db: Db, db': Db, c: nat)
    requires c < |db.cases| && c < |db'.cases|
  {
    !Finished(db.cases[c].status) && Finished(db'.cases[c].status)
  }

  lemma HeldSurvives(cases: seq<Case>, cases': seq<Case>, rows: seq<Evidence>, f: nat)
    requires |cases| == |cases'|
    requires forall c | 0 <= c < |cases| && !Finished(cases[c].status) :: !Finished(cases'[c].status)
    ensures Held(cases, rows, f) ==> Held(cases', rows, f)
  {
    if i :| 0 <= i < |rows| && HeldBy(cases, rows, f, i) {
      assert HeldBy(cases', rows, f, i);
    }
  }

  lemma AutoResolveFrees(db: Db, c: nat, bump: bool)
    requires c < |db.cases|
    ensures Freed(AutoResolve(db, c, bump), c)
  {
    var db' := AutoResolve(db, c, bump);
    var k := db.cases[c].(status := Resolved, resolution := Automatic);
    var db2 := if bump then Touch(SetCase(db, c, k), c) else SetCase(db, c, k);
    forall f: nat | f < |db'.fragments| && Cites(db'.evidence, c, f) && db'.fragments[f].status == InConflict
      ensures Held(db'.cases, db'.evidence, f)
    {
      assert db'.fragments[f] == ReleasedFragment(db2, c, f);
      assert db'.cases == db2.cases && db'.evidence == db2.evidence;
    }
  }

  /** Resolving case `c` frees what `c` alone held, so an earlier case's promise stands. */
  lemma AutoResolveKeepsFreed(db: Db, c: nat, bump: bool, d: nat)
    requires c < |db.cases| && Freed(db, d)
    ensures Freed(AutoResolve(db, c, bump), d)
  {
    var db' := AutoResolve(db, c, bump);
    var k := db.cases[c].(status := Resolved, resolution := Automatic);
    var db2 := if bump then Touch(SetCase(db, c, k), c) else SetCase(db, c, k);
    forall f: nat | f < |db'.fragments| && Cites(db'.evidence, d, f) && db'.fragments[f].status == InConflict
      ensures Held(db'.cases, db'.evidence, f)
    {
      assert db'.fragments[f] == ReleasedFragment(db2, c, f);
      assert Held(db.cases, db.evidence, f);
      var i :| 0 <= i < |db.evidence| && HeldBy(db.cases, db.evidence, f, i);
      if db.evidence[i].caseId == c {
        assert IsRow(db2.evidence[i], c, FragmentKind, f);
        assert Cites(db2.evidence, c, f);
      } else {
        assert HeldBy(db'.cases, db'.evidence, f, i);
      }
    }
  }

  lemma NoteKeepsFreed(db: Db, c: nat, lost: set<nat>, before: nat, d: nat)
    requires c < |db.cases| && Freed(db, d)
    ensures Freed(NoteWithdrawal(db, c, lost, before), d)
  {
    NoteQuietly(db, c, lost, before);
    var db' := NoteWithdrawal(db, c, lost, before);
    forall f: nat | f < |db'.fragments| && Cites(db'.evidence, d, f) && db'.fragments[f].status == InConflict
      ensures Held(db'.cases, db'.evidence, f)
    {
      assert Cites(db.evidence, d, f);
      HeldSurvives(db.cases, db'.cases, db.evidence, f);
    }
  }

  lemma ReconcileOneQuietly(db: Db, c: nat, lost: set<nat>, before: nat)
    requires c < |db.cases|
    ensures Quietly(db, ReconcileOne(db, c, lost, before))
    ensures lost != {} && before <= db.cases[c].revision ==> before < ReconcileOne(db, c, lost, before).cases[c].revision
  {
    NoteQuietly(db, c, lost, before);
    var db1 := NoteWithdrawal(db, c, lost, before);
    if !(StillDisputed(db1.evidence, c) || Finished(db1.cases[c].status)) {
      AutoResolveQuietly(db1, c, lost == {});
      QuietlyTransitive(db, db1, AutoResolve(db1, c, lost == {}));
    }
  }

  lemma ReconcileOneSettles(db: Db, c: nat, lost: set<nat>, before: nat)
    requires c < |db.cases|
    ensures var r := ReconcileOne(db, c, lost, before);
            && |r.cases| == |db.cases|
            && Settled(r, c)
            && (ResolvedNow(db, r, c) ==>
                  r.cases[c].resolution == Automatic && !StillDisputed(db.evidence, c) && Freed(r, c))
            && (!ResolvedNow(db, r, c) ==> r.cases[c].status == db.cases[c].status)
            && (forall d | 0 <= d < |db.cases| && d != c :: r.cases[d] == db.cases[d])
  {
    NoteQuietly(db, c, lost, before);
    var db1 := NoteWithdrawal(db, c, lost, before);
    if !(StillDisputed(db1.evidence, c) || Finished(db1.cases[c].status)) {
      AutoResolveQuietly(db1, c, lost == {});
      AutoResolveFrees(db1, c, lost == {});
    }
  }

  lemma ReconcileOneKeepsFreed(db: Db, c: nat, lost: set<nat>, before: nat, d: nat)
    requires c < |db.cases| && Freed(db, d)
    ensures Freed(ReconcileOne(db, c, lost, before), d)
  {
    NoteKeepsFreed(db, c, lost, before, d);
    var db1 := NoteWithdrawal(db, c, lost, before);
    if !(StillDisputed(db1.evidence, c) || Finished(db1.cases[c].status)) {
      AutoResolveKeepsFreed(db1, c, lost == {}, d);
    }
  }

  /** Whatever the order of the list: evidence stays, revisions only grow, and a case that
      lost rows ends above the revision it had when it lost them. */
  lemma {:induction false} ReconcileQuietly(db: Db, list: seq<nat>, seen: set<nat>, w: Withdrawal)
    requires forall k | 0 <= k < |list| :: list[k] < |db.cases|
    ensures Quietly(db, Reconcile(db, list, seen, w))
    ensures forall c {:trigger c in list} |
              c in list && c !in seen && Lost(w, c) != {} && c in w.before && w.before[c] <= db.cases[c].revision ::
              w.before[c] < Reconcile(db, list, seen, w).cases[c].revision
    decreases |list|
  {
    if list == [] {
      assert Quietly(db, db) by {
        if Facts.AllLinear(db.facts) { assert Facts.Extends(db.facts, db.facts); }
      }
    } else if list[0] in seen {
      ReconcileQuietly(db, list[1..], seen, w);
      forall c | c in list && c !in seen ensures c in list[1..] {
        assert c != list[0];
      }
    } else {
      var c0 := list[0];
      var db1 := ReconcileOne(db, c0, Lost(w, c0), Before(db, w, c0));
      ReconcileOneQuietly(db, c0, Lost(w, c0), Before(db, w, c0));
      ReconcileQuietly(db1, list[1..], seen + {c0}, w);
      var r := Reconcile(db1, list[1..], seen + {c0}, w);
      QuietlyTransitive(db, db1, r);
      forall c | c in list && c !in seen && Lost(w, c) != {} && c in w.before && w.before[c] <= db.cases[c].revision
        ensures w.before[c] < r.cases[c].revision
      {
        assert db1.cases[c].revision <= r.cases[c].revision;
        if c != c0 {
          assert c in list[1..];
        }
      }
    }
  }

  lemma {:induction false} ReconcileKeepsFreed(db: Db, list: seq<nat>, seen: set<nat>, w: Withdrawal, d: nat)
    requires forall k | 0 <= k < |list| :: list[k] < |db.cases|
    requires Freed(db, d)
    ensures Freed(Reconcile(db, list, seen, w), d)
    decreases |list|
  {
    if list == [] {
    } else if list[0] in seen {
      ReconcileKeepsFreed(db, list[1..], seen, w, d);
    } else {
      var c0 := list[0];
      var db1 := ReconcileOne(db, c0, Lost(w, c0), Before(db, w, c0));
      ReconcileOneKeepsFreed(db, c0, Lost(w, c0), Before(db, w, c0), d);
      ReconcileOneQuietly(db, c0, Lost(w, c0), Before(db, w, c0));
      ReconcileKeepsFreed(db1, list[1..], seen + {c0}, w, d);
    }
  }

  /** A case not listed, or already seen, keeps its row. */
  lemma {:induction false} ReconcileElsewhere(db: Db, list: seq<nat>, seen: set<nat>, w: Withdrawal, d: nat)
    requires forall k | 0 <= k < |list| :: list[k] < |db.cases|
    requires d < |db.cases| && (d in seen || d !in list)
    ensures Reconcile(db, list, seen, w).cases[d] == db.cases[d]
    decreases |list|
  {
    if list == [] {
    } else if list[0] in seen {
      ReconcileElsewhere(db, list[1..], seen, w, d);
    } else {
      var c0 := list[0];
      var db1 := ReconcileOne(db, c0, Lost(w, c0), Before(db, w, c0));
      ReconcileOneSettles(db, c0, Lost(w, c0), Before(db, w, c0));
      ReconcileOneQuietly(db, c0, Lost(w, c0), Before(db, w, c0));
      ReconcileElsewhere(db1, list[1..], seen + {c0}, w, d);
    }
  }

  /** Reconciliation is sound: every listed case ends finished or still disputed. It resolves
      exactly the unfinished ones that are no longer disputed, and of those cases no
      fragment stays in conflict unless an unfinished case still holds it. */
  lemma {:induction false} ReconcileSound(db: Db, list: seq<nat>, seen: set<nat>, w: Withdrawal, c: nat)
    requires forall k | 0 <= k < |list| :: list[k] < |db.cases|
    requires c in list && c !in seen
    ensures var r := Reconcile(db, list, seen, w);
            && Settled(r, c)
            && (ResolvedNow(db, r, c) <==> !Finished(db.cases[c].status) && !StillDisputed(db.evidence, c))
            && (ResolvedNow(db, r, c) ==> r.cases[c].resolution == Automatic && Freed(r, c))
            && (!ResolvedNow(db, r, c) ==> r.cases[c].status == db.cases[c].status)
    decreases |list|
  {
    var c0 := list[0];
    if c0 in seen {
      ReconcileSound(db, list[1..], seen, w, c);
    } else {
      var db1 := ReconcileOne(db, c0, Lost(w, c0), Before(db, w, c0));
      ReconcileOneSettles(db, c0, Lost(w, c0), Before(db, w, c0));
      ReconcileOneQuietly(db, c0, Lost(w, c0), Before(db, w, c0));
      if c == c0 {
        ReconcileElsewhere(db1, list[1..], seen + {c0}, w, c);
        if ResolvedNow(db, db1, c) {
          ReconcileKeepsFreed(db1, list[1..], seen + {c0}, w, c);
        }
      } else {
        ReconcileSound(db1, list[1..], seen + {c0}, w, c);
      }
    }
  }

  // ---------------------------------------------------------------- the stamp

  /** Case `d`: a revision that did not move means evidence that did not change. */
  ghost predicate StampKept(db: Db, db': Db, d: nat)
    requires d < |db.cases| && d < |db'.cases|
  {
    && db.cases[d].revision <= db'.cases[d].revision
    && (db.cases[d].revision == db'.cases[d].revision ==> CurrentIds(db.evidence, d) == CurrentIds(db'.evidence, d))
  }

  ghost predicate Stamped(db: Db, db': Db) {
    && |db.cases| <= |db'.cases|
    && forall d: nat {:trigger StampKept(db, db', d)} | d < |db.cases| :: StampKept(db, db', d)
  }

  ghost predicate InputsKept(db: Db, db': Db) {
    && |db.analyses| <= |db'.analyses|
    && forall a | 0 <= a < |db.analyses| :: SameInput(db.analyses[a], db'.analyses[a])
  }

  /** An analysis of the case's present revision was given exactly its current evidence. */
  ghost predicate AnalysisOk(db: Db, a: nat) {
    && a < |db.analyses|
    && var x := db.analyses[a];
       && x.caseId < |db.cases|
       && x.inputVersion <= db.cases[x.caseId].revision
       && (x.inputVersion == db.cases[x.caseId].revision ==> x.allowed == CurrentIds(db.evidence, x.caseId))
  }

  ghost predicate Inv(db: Db) {
    && RowsInv(db)
    && (forall a: nat {:trigger AnalysisOk(db, a)} | a < |db.analyses| :: AnalysisOk(db, a))
    && Facts.AllLinear(db.facts)
  }

  /** What a transaction does to earlier rows. */
  ghost predicate Follows(db: Db, db': Db) {
    Stamped(db, db') && InputsKept(db, db') && Facts.Extends(db.facts, db'.facts)
  }

  lemma StampedAnalyses(db: Db, db': Db, a: nat)
    requires AnalysisOk(db, a) && Stamped(db, db') && InputsKept(db, db')
    ensures AnalysisOk(db', a)
  {
    var x := db.analyses[a];
    assert SameInput(x, db'.analyses[a]);
    assert StampKept(db, db', x.caseId);
  }

  lemma StampedTransitive(db1: Db, db2: Db, db3: Db)
    requires Stamped(db1, db2) && Stamped(db2, db3)
    ensures Stamped(db1, db3)
  {
    forall d: nat | d < |db1.cases| ensures StampKept(db1, db3, d) {
      assert StampKept(db1, db2, d) && StampKept(db2, db3, d);
    }
  }

  lemma FollowsTransitive(db1: Db, db2: Db, db3: Db)
    requires Follows(db1, db2) && Follows(db2, db3)
    ensures Follows(db1, db3)
  {
    StampedTransitive(db1, db2, db3);
    ExtendsTransitive(db1.facts, db2.facts, db3.facts);
    forall a | 0 <= a < |db1.analyses| ensures SameInput(db1.analyses[a], db3.analyses[a]) {
      assert SameInput(db1.analyses[a], db2.analyses[a]);
    }
  }

  lemma QuietlyStamps(db: Db, db': Db)
    requires Quietly(db, db')
    ensures Stamped(db, db') && InputsKept(db, db')
  {
    forall d: nat | d < |db.cases| ensures StampKept(db, db', d) {
      assert db.cases[d].revision <= db'.cases[d].revision;
    }
  }

  lemma QuietlyGrows(db: Db, db': Db)
    requires Quietly(db, db') && RowsInv(db)
    ensures RowsInv(db')
  {
    GrowsKeepsRows(db, db');
  }

  // ---------------------------------------------------------------- opening a case

  lemma TargetRows(db: Db, target: Option<nat>, key: Name)
    requires RowsInv(db) && (target.Some? ==> target.value < |db.cases|)
    ensures RowsInv(Target(db, target, key))
    ensures InputsKept(db, Target(db, target, key)) && FactsKept(db, Target(db, target, key))
  {
    var db1 := Target(db, target, key);
    assert FactsKept(db, db1) by {
      if Facts.AllLinear(db.facts) {
        assert Facts.Extends(db.facts, db.facts);
        if target.Some? {
          Facts.ReviewKeepsLinear(db.facts, db.cases[target.value].key, target.value);
        }
      }
    }
    forall a | 0 <= a < |db.analyses| ensures SameInput(db.analyses[a], db1.analyses[a]) {
      assert db1.analyses[a] in {db.analyses[a], db.analyses[a].(stale := true)};
    }
    SameSourcesGrow(db, db1);
    GrowsKeepsRows(db, db1);
  }

  lemma SameSourcesGrow(db: Db, db': Db)
    requires RowsInv(db) && |db.cases| <= |db'.cases| && db'.fragments == db.fragments && db'.others == db.others
    ensures Grows(db, db')
  {
    forall f | 0 <= f < |db.fragments| ensures FragmentStep(db.fragments[f], db'.fragments[f]) {
      assert FragmentOk(db.fragments[f]);
    }
  }

  lemma MarkGrows(db: Db, frags: seq<nat>)
    requires RowsInv(db) && Live(db, frags)
    ensures Grows(db, db.(fragments := MarkInConflict(db.fragments, frags)))
  {
    var db' := db.(fragments := MarkInConflict(db.fragments, frags));
    forall f | 0 <= f < |db.fragments| ensures FragmentStep(db.fragments[f], db'.fragments[f]) {
      assert FragmentOk(db.fragments[f]);
      assert f in frags ==> db.fragments[f].status != Withdrawn;
    }
  }

  lemma FindOrOpenKeepsRows(db: Db, target: Option<nat>, key: Name, frags: seq<nat>)
    requires RowsInv(db) && Live(db, frags) && (target.Some? ==> target.value < |db.cases|)
    ensures RowsInv(FindOrOpen(db, target, key, frags)) && |FindOrOpen(db, target, key, frags).analyses| == |db.analyses|
    ensures InputsKept(db, FindOrOpen(db, target, key, frags)) && FactsKept(db, FindOrOpen(db, target, key, frags))
  {
    var c := TargetCase(db, target);
    var db1 := Target(db, target, key);
    TargetRows(db, target, key);
    var db2 := AddEvidence(db1, c, FragmentRefs(db1, frags));
    AddEvidenceKeepsRows(db1, c, FragmentRefs(db1, frags));
    var touched := HasNewSnapshot(db, c, frags) && !Opens(db, target);
    var db3 := if touched then Touch(db2, c) else db2;
    SameSourcesGrow(db2, db3);
    GrowsKeepsRows(db2, db3);
    MarkGrows(db3, frags);
    GrowsKeepsRows(db3, db3.(fragments := MarkInConflict(db3.fragments, frags)));
    forall a | 0 <= a < |db.analyses| ensures SameInput(db.analyses[a], db3.analyses[a]) {
      assert SameInput(db.analyses[a], db2.analyses[a]);
      assert db3.analyses[a] in {db2.analyses[a], db2.analyses[a].(stale := true)};
    }
  }

  /** Nothing new in a case that stays open leaves its evidence as it was. */
  lemma NoNewSnapshot(db: Db, c: nat, frags: seq<nat>)
    requires RowsInv(db) && Live(db, frags) && !HasNewSnapshot(db, c, frags)
    ensures AddEvidence(db, c, FragmentRefs(db, frags)) == db
  {
    var refs := FragmentRefs(db, frags);
    forall k | 0 <= k < |refs|
      ensures FindRow(db.evidence, c, FragmentKind, refs[k].source, db.fragments[refs[k].source].revision).Some?
    {
      assert refs[k].source == frags[k];
    }
    CitedAddsNothing(db, c, refs);
  }

  lemma FindOrOpenStamps(db: Db, target: Option<nat>, key: Name, frags: seq<nat>)
    requires RowsInv(db) && Live(db, frags) && (target.Some? ==> target.value < |db.cases|)
    ensures Stamped(db, FindOrOpen(db, target, key, frags))
  {
    var c := TargetCase(db, target);
    var db1 := Target(db, target, key);
    var r := FindOrOpen(db, target, key, frags);
    assert r.evidence == AddEvidence(db1, c, FragmentRefs(db1, frags)).evidence;
    forall d: nat | d < |db.cases| ensures StampKept(db, r, d) {
      if d != c {
        AddEvidenceElsewhere(db1, c, FragmentRefs(db1, frags), d);
      } else if !Opens(db, target) && !HasNewSnapshot(db, c, frags) {
        NoNewSnapshot(db, c, frags);
      }
    }
  }

  // ---------------------------------------------------------------- every transaction

  lemma FactsKeptTransitive(db1: Db, db2: Db, db3: Db)
    requires FactsKept(db1, db2) && FactsKept(db2, db3)
    ensures FactsKept(db1, db3)
  {
    if Facts.AllLinear(db1.facts) {
      ExtendsTransitive(db1.facts, db2.facts, db3.facts);
    }
  }

  lemma InputsKeptTransitive(db1: Db, db2: Db, db3: Db)
    requires InputsKept(db1, db2) && InputsKept(db2, db3)
    ensures InputsKept(db1, db3)
  {
    forall a | 0 <= a < |db1.analyses| ensures SameInput(db1.analyses[a], db3.analyses[a]) {
      assert SameInput(db1.analyses[a], db2.analyses[a]);
    }
  }

  /** What the parts of a transaction have in common. */
  ghost predicate Part(db: Db, db': Db) {
    RowsInv(db') && |db'.analyses| == |db.analyses| && InputsKept(db, db') && FactsKept(db, db') && Stamped(db, db')
  }

  lemma PartTransitive(db1: Db, db2: Db, db3: Db)
    requires Part(db1, db2) && Part(db2, db3)
    ensures Part(db1, db3)
  {
    StampedTransitive(db1, db2, db3);
    InputsKeptTransitive(db1, db2, db3);
    FactsKeptTransitive(db1, db2, db3);
  }

  lemma PartKeepsInv(db: Db, db': Db)
    requires Inv(db) && Part(db, db')
    ensures Inv(db') && Follows(db, db')
  {
    forall a: nat | a < |db'.analyses| ensures AnalysisOk(db', a) {
      assert AnalysisOk(db, a);
      StampedAnalyses(db, db', a);
    }
  }

  lemma SamePart(db: Db)
    requires RowsInv(db)
    ensures Part(db, db)
  {
    forall d: nat | d < |db.cases| ensures StampKept(db, db, d) {
    }
    assert Facts.Extends(db.facts, db.facts);
  }

  lemma QuietPart(db: Db, db': Db)
    requires Quietly(db, db') && RowsInv(db)
    ensures Part(db, db')
  {
    QuietlyStamps(db, db');
    QuietlyGrows(db, db');
  }

  /** A step on the sources alone. */
  lemma SourcesPart(db: Db, db': Db)
    requires RowsInv(db) && Grows(db, db')
    requires db'.evidence == db.evidence && db'.cases == db.cases && db'.analyses == db.analyses && db'.facts == db.facts
    ensures Part(db, db')
  {
    GrowsKeepsRows(db, db');
    forall d: nat | d < |db.cases| ensures StampKept(db, db', d) {
    }
    assert Facts.Extends(db.facts, db.facts);
  }

  lemma NewFragmentPart(db: Db, x: Fragment)
    requires RowsInv(db) && FragmentOk(x)
    ensures Part(db, db.(fragments := db.fragments + [x]))
  {
    forall f | 0 <= f < |db.fragments| ensures FragmentStep(db.fragments[f], (db.fragments + [x])[f]) {
      assert FragmentOk(db.fragments[f]);
    }
    SourcesPart(db, db.(fragments := db.fragments + [x]));
  }

  lemma FindOrOpenPart(db: Db, target: Option<nat>, key: Name, frags: seq<nat>)
    requires RowsInv(db) && Live(db, frags) && (target.Some? ==> target.value < |db.cases|)
    ensures Part(db, FindOrOpen(db, target, key, frags))
  {
    FindOrOpenKeepsRows(db, target, key, frags);
    FindOrOpenStamps(db, target, key, frags);
  }

  lemma DetectPart(db: Db, f: nat, matching: seq<nat>, target: Option<nat>)
    requires RowsInv(db) && f < |db.fragments| && db.fragments[f].status != Withdrawn
    ensures Part(db, Detect(db, f, matching, target))
  {
    if Detects(db, f, matching, target) {
      forall k | 0 <= k < |matching + [f]| ensures db.fragments[(matching + [f])[k]].status != Withdrawn {
      }
      FindOrOpenPart(db, target, db.fragments[f].key.value, matching + [f]);
    } else {
      SamePart(db);
    }
  }

  lemma ReconcilePart(db: Db, list: seq<nat>, w: Withdrawal)
    requires RowsInv(db) && forall k | 0 <= k < |list| :: list[k] < |db.cases|
    ensures Part(db, Reconcile(db, list, {}, w))
  {
    ReconcileQuietly(db, list, {}, w);
    QuietPart(db, Reconcile(db, list, {}, w));
  }

  lemma DetectAndReconcilePart(db: Db, f: nat, matching: seq<nat>, target: Option<nat>, list: seq<nat>, w: Withdrawal)
    requires forall k | 0 <= k < |list| :: list[k] < |db.cases|
    requires RowsInv(db) && f < |db.fragments| && db.fragments[f].status != Withdrawn
    ensures Part(db, DetectAndReconcile(db, f, matching, target, list, w))
  {
    if Detects(db, f, matching, target) {
      DetectPart(db, f, matching, target);
      var db1 := Detect(db, f, matching, target);
      ReconcilePart(db1, list + [TargetCase(db, target)], w);
      PartTransitive(db, db1, DetectAndReconcile(db, f, matching, target, list, w));
    } else {
      ReconcilePart(db, list, w);
    }
  }

  /** A listed case that lost rows ends above its revision before the loss. */
  lemma WithdrawnMovesOn(db: Db, f: nat, matching: seq<nat>, target: Option<nat>, list: seq<nat>, w: Withdrawal, c: nat)
    requires forall k | 0 <= k < |list| :: list[k] < |db.cases|
    requires RowsInv(db) && f < |db.fragments| && db.fragments[f].status != Withdrawn
    requires c in list && Lost(w, c) != {} && c in w.before && w.before[c] == db.cases[c].revision
    ensures |db.cases| <= |DetectAndReconcile(db, f, matching, target, list, w).cases|
    ensures db.cases[c].revision < DetectAndReconcile(db, f, matching, target, list, w).cases[c].revision
  {
    if Detects(db, f, matching, target) {
      DetectPart(db, f, matching, target);
      var db1 := Detect(db, f, matching, target);
      assert StampKept(db, db1, c);
      assert c in list + [TargetCase(db, target)];
      ReconcileQuietly(db1, list + [TargetCase(db, target)], {}, w);
    } else {
      ReconcileQuietly(db, list, {}, w);
    }
  }

  lemma WithdrawalListed(db: Db, f: nat, c: nat)
    requires c in AffectedCases(db.evidence, f, |db.cases|)
    ensures c < |db.cases| && Lost(WithdrawalOf(db, f), c) != {}
    ensures c in WithdrawalOf(db, f).before && WithdrawalOf(db, f).before[c] == db.cases[c].revision
  {
  }

  lemma CreateReportKeeps(db: Db, op: Op)
    requires Inv(db) && op.CreateReport?
    ensures Inv(Apply(db, op)) && Follows(db, Apply(db, op))
  {
    var x := NewFragment(ResidentReport, Some(op.ref), op.v);
    var db1 := db.(fragments := db.fragments + [x]);
    NewFragmentPart(db, x);
    DetectAndReconcilePart(db1, |db.fragments|, op.matching, op.target, [], NOTHING);
    PartTransitive(db, db1, Apply(db, op));
    PartKeepsInv(db, Apply(db, op));
  }

  /** An edit or a withdrawal: every case either keeps its evidence or has moved on. */
  lemma EditReportKeeps(db: Db, op: Op)
    requires Inv(db) && op.EditReport?
    ensures Inv(Apply(db, op)) && Follows(db, Apply(db, op))
  {
    if Writable(db, op.f) {
      var x := Restored(db.fragments[op.f], op.restore);
      if Unchanged(x, op.v) {
        OneFragmentPart(db, op.f, x);
        PartKeepsInv(db, Apply(db, op));
      } else {
        SupersededKeeps(db, op.f, Edited(x, op.v), op.matching, op.target);
      }
    } else {
      SamePart(db);
      PartKeepsInv(db, db);
    }
  }

  lemma SupersededKeeps(db: Db, f: nat, x: Fragment, matching: seq<nat>, target: Option<nat>)
    requires Inv(db) && f < |db.fragments| && Superseding(db.fragments[f], x) && x.status != Withdrawn
    ensures Inv(Superseded(db, f, x, matching, target)) && Follows(db, Superseded(db, f, x, matching, target))
  {
    var db1, db2 := Supersede(db, f, x), Superseded(db, f, x, matching, target);
    var list := AffectedCases(db.evidence, f, |db.cases|);
    AffectedInRange(db.evidence, f, |db.cases|);
    SupersedeKeepsRows(db, f, x);
    DetectAndReconcilePart(db1, f, matching, target, list, WithdrawalOf(db, f));
    forall c: nat | c < |db.cases| ensures StampKept(db, db2, c) {
      assert StampKept(db1, db2, c);
      if c in list {
        WithdrawalListed(db, f, c);
        WithdrawnMovesOn(db1, f, matching, target, list, WithdrawalOf(db, f), c);
      } else {
        SupersedeElsewhere(db, f, x, c);
      }
    }
    SupersedePart(db, db1, db2);
  }

  lemma SupersedePart(db: Db, db1: Db, db2: Db)
    requires Inv(db) && Part(db1, db2) && Stamped(db, db2)
    requires db1.analyses == db.analyses && db1.facts == db.facts
    ensures Inv(db2) && Follows(db, db2)
  {
    assert InputsKept(db, db2);
    PartKeepsInv(db, db2);
  }

  lemma WithdrawReportKeeps(db: Db, op: Op)
    requires Inv(db) && op.WithdrawReport?
    ensures Inv(Apply(db, op)) && Follows(db, Apply(db, op))
  {
    if MayWithdraw(db, op.f, op.deleted) {
      WithdrewKeeps(db, op.f, Pulled(db.fragments[op.f], op.deleted));
    } else {
      SamePart(db);
      PartKeepsInv(db, db);
    }
  }

  lemma WithdrewMovesOn(db: Db, f: nat, x: Fragment, c: nat)
    requires RowsInv(db) && f < |db.fragments| && Superseding(db.fragments[f], x) && c < |db.cases|
    ensures |Withdrew(db, f, x).cases| == |db.cases| && StampKept(db, Withdrew(db, f, x), c)
  {
    var db1, list := Supersede(db, f, x), AffectedCases(db.evidence, f, |db.cases|);
    AffectedInRange(db.evidence, f, |db.cases|);
    ReconcileQuietly(db1, list, {}, WithdrawalOf(db, f));
    if c in list {
      WithdrawalListed(db, f, c);
    } else {
      SupersedeElsewhere(db, f, x, c);
    }
  }

  lemma WithdrewKeeps(db: Db, f: nat, x: Fragment)
    requires Inv(db) && f < |db.fragments| && Superseding(db.fragments[f], x)
    ensures Inv(Withdrew(db, f, x)) && Follows(db, Withdrew(db, f, x))
  {
    var db1, list := Supersede(db, f, x), AffectedCases(db.evidence, f, |db.cases|);
    AffectedInRange(db.evidence, f, |db.cases|);
    SupersedeKeepsRows(db, f, x);
    ReconcilePart(db1, list, WithdrawalOf(db, f));
    assert Stamped(db, Withdrew(db, f, x)) by {
      forall c: nat | c < |db.cases|
        ensures |Withdrew(db, f, x).cases| == |db.cases| && StampKept(db, Withdrew(db, f, x), c)
      {
        WithdrewMovesOn(db, f, x, c);
      }
    }
    SupersedePart(db, db1, Withdrew(db, f, x));
  }

  lemma EnterFragmentKeeps(db: Db, op: Op)
    requires Inv(db) && op.EnterFragment?
    ensures Inv(Apply(db, op)) && Follows(db, Apply(db, op))
  {
    var x := NewFragment(OperatorEntry, Some(op.ref), op.v);
    var db1 := db.(fragments := db.fragments + [x]);
    NewFragmentPart(db, x);
    DetectPart(db1, |db.fragments|, op.matching, op.target);
    PartTransitive(db, db1, Apply(db, op));
    PartKeepsInv(db, Apply(db, op));
  }

  lemma TouchSourceKeeps(db: Db, op: Op)
    requires Inv(db) && op.TouchSource?
    ensures Inv(Apply(db, op)) && Follows(db, Apply(db, op))
  {
    forall f | 0 <= f < |db.fragments| ensures FragmentStep(db.fragments[f], db.fragments[f]) {
      assert FragmentOk(db.fragments[f]);
    }
    SourcesPart(db, Apply(db, op));
    PartKeepsInv(db, Apply(db, op));
  }

  /** Evidence added to one case, which moves on if it is not new. */
  lemma AddedPart(db: Db, db1: Db, c: nat, refs: seq<Ref>, db': Db)
    requires RowsInv(db) && RowsInv(db1) && c < |db1.cases| && RefsOk(db1, refs)
    requires db1 == db.(cases := db1.cases) && db.cases <= db1.cases
    requires db' == if c < |db.cases| then Touch(AddEvidence(db1, c, refs), c) else AddEvidence(db1, c, refs)
    ensures Part(db, db')
  {
    var db2 := AddEvidence(db1, c, refs);
    AddEvidenceKeepsRows(db1, c, refs);
    SameSourcesGrow(db2, db');
    GrowsKeepsRows(db2, db');
    forall d: nat | d < |db.cases| ensures StampKept(db, db', d) {
      if d != c {
        AddEvidenceElsewhere(db1, c, refs, d);
      }
    }
    forall a | 0 <= a < |db.analyses| ensures SameInput(db.analyses[a], db'.analyses[a]) {
      assert db'.analyses[a] in {db.analyses[a], db.analyses[a].(stale := true)};
    }
    assert Facts.Extends(db.facts, db.facts);
  }

  lemma CreateCaseKeeps(db: Db, op: Op)
    requires Inv(db) && op.CreateCase?
    ensures Inv(Apply(db, op)) && Follows(db, Apply(db, op))
  {
    if RefsOk(db, op.refs) {
      var db1 := db.(cases := db.cases + [Case(op.key, Open, 1, Unresolved)]);
      SameSourcesGrow(db, db1);
      GrowsKeepsRows(db, db1);
      assert RefsOk(db1, op.refs) by {
        forall k | 0 <= k < |op.refs| ensures RefOk(db1, op.refs[k]) {
          assert RefOk(db, op.refs[k]);
        }
      }
      AddedPart(db, db1, |db.cases|, op.refs, Apply(db, op));
    } else {
      SamePart(db);
    }
    PartKeepsInv(db, Apply(db, op));
  }

  lemma AppendEvidenceKeeps(db: Db, op: Op)
    requires Inv(db) && op.AppendEvidence?
    ensures Inv(Apply(db, op)) && Follows(db, Apply(db, op))
  {
    if op.c < |db.cases| && db.cases[op.c].revision == op.revision && RefsOk(db, op.refs) {
      AddedPart(db, db, op.c, op.refs, Apply(db, op));
    } else {
      SamePart(db);
    }
    PartKeepsInv(db, Apply(db, op));
  }

  lemma ReopenCaseKeeps(db: Db, op: Op)
    requires Inv(db) && op.ReopenCase?
    ensures Inv(Apply(db, op)) && Follows(db, Apply(db, op))
  {
    if op.c < |db.cases| && db.cases[op.c].revision == op.revision && db.cases[op.c].status == Resolved {
      ReopenPart(db, op.c);
    } else {
      SamePart(db);
    }
    PartKeepsInv(db, Apply(db, op));
  }

  lemma ReopenPart(db: Db, c: nat)
    requires RowsInv(db) && c < |db.cases|
    ensures Part(db, Reopen(db, c))
  {
    var k := db.cases[c].(status := Reopened, resolution := Unresolved, revision := db.cases[c].revision + 1);
    TouchQuietly(db, c, k, true);
    var db1 := SetCase(db, c, k).(analyses := MarkStale(db.analyses, c));
    assert Reopen(db, c) == Review(db1, c);
    QuietPart(db, db1);
    ReviewQuietly(db1, c);
    QuietPart(db1, Review(db1, c));
    PartTransitive(db, db1, Review(db1, c));
  }

  /** The steps of an answer write. */
  lemma RoutePart(db: Db, f: nat, created: bool, route: Route)
    requires RowsInv(db) && f < |db.fragments|
    ensures Part(db, RouteAnswer(db, f, created, route))
  {
    match route
    case Quiet => SamePart(db);
    case Updates(c) =>
      if !created && c < |db.cases| && Cites(db.evidence, c, f) {
        var refs := [Ref(FragmentKind, f, None)];
        assert RefOk(db, refs[0]);
        assert AddEvidence(db, c, refs) == AddOne(db, c, FragmentKind, f) by {
          assert AddEvidence(AddOne(db, c, FragmentKind, f), c, refs[1..]) == AddOne(db, c, FragmentKind, f);
        }
        AddedPart(db, db, c, refs, RouteAnswer(db, f, created, route));
      } else {
        SamePart(db);
      }
    case Disagree(target, frags) =>
      if AnswerFragments(db, frags) && (target.Some? ==> target.value < |db.cases|) && db.fragments[f].key.Some? {
        forall k | 0 <= k < |frags| ensures db.fragments[frags[k]].status != Withdrawn {
          assert FragmentOk(db.fragments[frags[k]]);
        }
        FindOrOpenPart(db, target, db.fragments[f].key.value, frags);
      } else {
        SamePart(db);
      }
  }

  lemma OneFragmentPart(db: Db, f: nat, x: Fragment)
    requires RowsInv(db) && f < |db.fragments| && FragmentStep(db.fragments[f], x)
    ensures Part(db, db.(fragments := db.fragments[f := x]))
  {
    var db' := db.(fragments := db.fragments[f := x]);
    forall g | 0 <= g < |db.fragments| ensures FragmentStep(db.fragments[g], db'.fragments[g]) {
      assert FragmentOk(db.fragments[g]);
    }
    SourcesPart(db, db');
  }

  lemma SettlePart(db: Db, f: nat, settles: bool)
    requires RowsInv(db) && f < |db.fragments| && db.fragments[f].sourceType == DirectedAnswer
    ensures Part(db, Settle(db, f, settles))
  {
    if settles {
      assert FragmentOk(db.fragments[f]);
      OneFragmentPart(db, f, db.fragments[f].(status := Accepted));
    } else {
      SamePart(db);
    }
  }

  lemma RouteKeepsSource(db: Db, f: nat, created: bool, route: Route)
    requires f < |db.fragments|
    ensures var r := RouteAnswer(db, f, created, route);
            |r.fragments| == |db.fragments| && r.fragments[f].sourceType == db.fragments[f].sourceType
  {
  }

  lemma FollowedPart(db: Db, f: nat, created: bool, settles: bool, route: Route)
    requires RowsInv(db) && f < |db.fragments| && db.fragments[f].sourceType == DirectedAnswer
    ensures Part(db, Followed(db, f, created, settles, route))
  {
    var db1 := RouteAnswer(db, f, created, route);
    RoutePart(db, f, created, route);
    RouteKeepsSource(db, f, created, route);
    SettlePart(db1, f, settles && !route.Disagree?);
    PartTransitive(db, db1, Settle(db1, f, settles && !route.Disagree?));
  }

  lemma PartThen(db1: Db, db2: Db, f: nat, created: bool, settles: bool, route: Route)
    requires Part(db1, db2) && f < |db2.fragments| && db2.fragments[f].sourceType == DirectedAnswer
    ensures Part(db1, Followed(db2, f, created, settles, route))
  {
    FollowedPart(db2, f, created, settles, route);
    PartTransitive(db1, db2, Followed(db2, f, created, settles, route));
  }

  lemma FirstAnswerPart(db: Db, v: Fields, settles: bool, route: Route)
    requires RowsInv(db)
    ensures Part(db, Answered(db, None, v, settles, route))
  {
    var x := NewFragment(DirectedAnswer, Some(|db.fragments|), v);
    NewFragmentPart(db, x);
    PartThen(db, db.(fragments := db.fragments + [x]), |db.fragments|, true, settles, route);
  }

  lemma LaterAnswerPart(db: Db, f: nat, v: Fields, settles: bool, route: Route)
    requires RowsInv(db) && f < |db.fragments| && db.fragments[f].sourceType == DirectedAnswer
    ensures Part(db, Answered(db, Some(f), v, settles, route))
  {
    var x := RewrittenAnswer(db.fragments[f], v);
    assert FragmentOk(db.fragments[f]);
    OneFragmentPart(db, f, x);
    PartThen(db, db.(fragments := db.fragments[f := x]), f, false, settles, route);
  }

  lemma PutAnswerKeeps(db: Db, op: Op)
    requires Inv(db) && op.PutAnswer?
    ensures Inv(Apply(db, op)) && Follows(db, Apply(db, op))
  {
    if op.answer.None? {
      FirstAnswerPart(db, op.v, op.settles, op.route);
    } else if op.answer.value < |db.fragments| && db.fragments[op.answer.value].sourceType == DirectedAnswer {
      LaterAnswerPart(db, op.answer.value, op.v, op.settles, op.route);
    } else {
      SamePart(db);
    }
    PartKeepsInv(db, Apply(db, op));
  }

  lemma {:induction false} DisposeGrows(fragments: seq<Fragment>, rows: seq<Evidence>, accepted: set<nat>, c: nat, n: nat)
    requires n <= |rows| && forall f | 0 <= f < |fragments| :: FragmentOk(fragments[f])
    ensures forall f | 0 <= f < |fragments| :: FragmentStep(fragments[f], Dispose(fragments, rows, accepted, c, n)[f])
  {
    if n != 0 {
      DisposeGrows(fragments, rows, accepted, c, n - 1);
      var rest, r := Dispose(fragments, rows, accepted, c, n - 1), Dispose(fragments, rows, accepted, c, n);
      forall f | 0 <= f < |fragments| ensures FragmentStep(fragments[f], r[f]) {
        assert FragmentStep(fragments[f], rest[f]);
      }
    }
  }

  lemma DecidePart(db: Db, c: nat, d: Decision)
    requires RowsInv(db) && Admits(db, c, d)
    ensures Part(db, Decided(db, c, d))
  {
    var db' := Decided(db, c, d);
    DisposeGrows(db.fragments, db.evidence, AcceptedIds(d), c, |db.evidence|);
    if Facts.AllLinear(db.facts) {
      Facts.VerdictKeepsLinear(db.facts, db.cases[c].key, VerdictOf(d), c);
    }
    assert Quietly(db, db');
    QuietPart(db, db');
  }

  lemma DecideKeeps(db: Db, op: Op)
    requires Inv(db) && op.Decide?
    ensures Inv(Apply(db, op)) && Follows(db, Apply(db, op))
  {
    if Admits(db, op.c, op.d) {
      DecidePart(db, op.c, op.d);
    } else {
      SamePart(db);
    }
    PartKeepsInv(db, Apply(db, op));
  }

  /** A step that changes only the status of a case and of an analysis. */
  lemma StatusPart(db: Db, db': Db)
    requires RowsInv(db) && db' == db.(cases := db'.cases, analyses := db'.analyses)
    requires |db'.cases| == |db.cases| && forall c | 0 <= c < |db.cases| :: db'.cases[c].revision == db.cases[c].revision
    requires |db'.analyses| == |db.analyses| && forall a | 0 <= a < |db.analyses| :: SameInput(db.analyses[a], db'.analyses[a])
    ensures Part(db, db')
  {
    SameSourcesGrow(db, db');
    assert Facts.Extends(db.facts, db.facts);
    assert Quietly(db, db');
    QuietPart(db, db');
  }

  lemma EnqueueKeeps(db: Db, op: Op)
    requires Inv(db) && op.EnqueueAnalysis?
    ensures Inv(Apply(db, op)) && Follows(db, Apply(db, op))
  {
    var db' := Apply(db, op);
    var a := |db.analyses|;
    if op.reuse.None? && |db'.analyses| == a + 1 {
      var db1 := db.(cases := db'.cases);
      StatusPart(db, db1);
      PartKeepsInv(db, db1);
      forall b: nat | b < |db'.analyses| ensures AnalysisOk(db', b) {
        if b < a {
          assert AnalysisOk(db1, b);
        }
      }
      forall i: nat | i < |db'.evidence| ensures RowOk(db', i) {
        assert RowOk(db1, i);
      }
      forall d: nat | d < |db.cases| ensures StampKept(db, db', d) {
        assert StampKept(db, db1, d);
      }
    } else {
      StatusPart(db, db');
      PartKeepsInv(db, db');
    }
  }

  lemma AnalysisKeeps(db: Db, op: Op)
    requires Inv(db) && (op.StartAnalysis? || op.CompleteAnalysis? || op.FailAnalysis? || op.RetryAnalysis?)
    ensures Inv(Apply(db, op)) && Follows(db, Apply(db, op))
  {
    StatusPart(db, Apply(db, op));
    PartKeepsInv(db, Apply(db, op));
  }

  lemma ApplyKeeps(db: Db, op: Op)
    requires Inv(db)
    ensures Inv(Apply(db, op)) && Follows(db, Apply(db, op))
  {
    match op
    case CreateReport(_, _, _, _) => CreateReportKeeps(db, op);
    case EditReport(_, _, _, _, _) => EditReportKeeps(db, op);
    case WithdrawReport(_, _) => WithdrawReportKeeps(db, op);
    case EnterFragment(_, _, _, _) => EnterFragmentKeeps(db, op);
    case PutAnswer(_, _, _, _) => PutAnswerKeeps(db, op);
    case TouchSource(_, _) => TouchSourceKeeps(db, op);
    case CreateCase(_, _) => CreateCaseKeeps(db, op);
    case AppendEvidence(_, _, _) => AppendEvidenceKeeps(db, op);
    case ReopenCase(_, _) => ReopenCaseKeeps(db, op);
    case Decide(_, _) => DecideKeeps(db, op);
    case EnqueueAnalysis(_, _, _) => EnqueueKeeps(db, op);
    case StartAnalysis(_) => AnalysisKeeps(db, op);
    case CompleteAnalysis(_) => AnalysisKeeps(db, op);
    case FailAnalysis(_) => AnalysisKeeps(db, op);
    case RetryAnalysis(_) => AnalysisKeeps(db, op);
  }
}
