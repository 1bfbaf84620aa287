/** Conflict cases, their evidence, the fragments the evidence cites, and the AI analyses
    stamped with a case's revision. Every table is a sequence and a row's id is its
    position: rows are never deleted. Names (claim keys, values, clusters, places) are
    only ever compared for equality. */
module Conflicts {
  import opened Options
  import Facts

  type Name = nat

  // ---------------------------------------------------------------- rows

  /** A claim value; the spellings of "unknown" are one value. */
  datatype Claim = NoClaim | Unknown | Known(value: Name)

  datatype FragmentStatus = Normal | InConflict | Accepted | Withdrawn

  datatype SourceType = ResidentReport | OperatorEntry | DirectedAnswer

  /** How the report behind a fragment stands; always Standing for other sources. */
  datatype ReportState = Standing | Invalid | Deleted

  /** `place` stands for the location and observation fields, `note` for the rest. */
  datatype Fragment = Fragment(
    status: FragmentStatus,
    revision: nat,
    sourceType: SourceType,
    report: ReportState,
    sourceRef: Option<Name>,
    cluster: Option<Name>,
    topic: Name,
    key: Option<Name>,
    claim: Claim,
    place: Name,
    note: Name)

  datatype CaseStatus = Open | Reopened | Analyzing | AnalysisReady | Resolved | Closed

  datatype Resolution = Unresolved | Automatic | ByOperator(accepted: set<nat>)

  datatype Case = Case(key: Name, status: CaseStatus, revision: nat, resolution: Resolution)

  datatype Kind = FragmentKind | ReportKind | AttachmentKind | AnswerKind

  datatype Identity = Cluster(id: Name) | Origin(sourceType: SourceType, ref: Name) | Itself(kind: Kind, id: nat)

  datatype Evidence = Evidence(
    caseId: nat,
    kind: Kind,
    source: nat,
    revision: nat,
    identity: Identity,
    claim: Claim,
    current: bool)

  datatype AnalysisStatus = Queued | Running | Succeeded | Failed

  datatype Analysis = Analysis(caseId: nat, inputVersion: nat, allowed: set<nat>, status: AnalysisStatus, stale: bool)

  /** `others` gives the revision of every report, attachment and answer. */
  datatype Db = Db(
    cases: seq<Case>,
    evidence: seq<Evidence>,
    fragments: seq<Fragment>,
    others: map<(Kind, nat), nat>,
    analyses: seq<Analysis>,
    facts: Facts.Store)

  // ---------------------------------------------------------------- reading evidence

  predicate IsRow(e: Evidence, c: nat, kind: Kind, source: nat) {
    e.caseId == c && e.kind == kind && e.source == source
  }

  predicate IsCurrent(rows: seq<Evidence>, c: nat, i: nat) {
    i < |rows| && rows[i].caseId == c && rows[i].current
  }

  function CurrentIds(rows: seq<Evidence>, c: nat): set<nat> {
    set i | 0 <= i < |rows| && IsCurrent(rows, c, i)
  }

  function SourceRevision(db: Db, kind: Kind, source: nat): Option<nat> {
    if kind == FragmentKind then
      if source < |db.fragments| then Some(db.fragments[source].revision) else None
    else if (kind, source) in db.others then Some(db.others[(kind, source)])
    else None
  }

  predicate Finished(status: CaseStatus) {
    status == Resolved || status == Closed
  }

  /** Whether two fragments come from one source. */
  predicate ShareSource(a: Fragment, b: Fragment) {
    if a.cluster.Some? && b.cluster.Some? then a.cluster == b.cluster
    else a.sourceType == b.sourceType && a.sourceRef.Some? && a.sourceRef == b.sourceRef
  }

  predicate Contradicts(a: Evidence, b: Evidence) {
    && a.kind == FragmentKind && b.kind == FragmentKind
    && a.claim.Known? && b.claim.Known?
    && a.identity != b.identity && a.claim != b.claim
  }

  predicate HasOtherEvidence(rows: seq<Evidence>, c: nat) {
    exists i | 0 <= i < |rows| :: IsCurrent(rows, c, i) && rows[i].kind != FragmentKind
  }

  predicate HasContradiction(rows: seq<Evidence>, c: nat) {
    exists i, j | 0 <= i < j < |rows| :: IsCurrent(rows, c, i) && IsCurrent(rows, c, j) && Contradicts(rows[i], rows[j])
  }

  /** Some row of the case, current or not, cites the fragment. */
  predicate Cites(rows: seq<Evidence>, c: nat, f: nat) {
    exists i | 0 <= i < |rows| :: IsRow(rows[i], c, FragmentKind, f)
  }

  /** Row `i` is current evidence from fragment `f` in an unfinished case. */
  predicate HeldBy(cases: seq<Case>, rows: seq<Evidence>, f: nat, i: nat) {
    && i < |rows| && rows[i].kind == FragmentKind && rows[i].source == f && rows[i].current
    && rows[i].caseId < |cases| && !Finished(cases[rows[i].caseId].status)
  }

  predicate Held(cases: seq<Case>, rows: seq<Evidence>, f: nat) {
    exists i | 0 <= i < |rows| :: HeldBy(cases, rows, f, i)
  }

  // ---------------------------------------------------------------- adding evidence

  function FindRow(rows: seq<Evidence>, c: nat, kind: Kind, source: nat, revision: nat): (r: Option<nat>)
    ensures r.Some? ==> r.value < |rows| && IsRow(rows[r.value], c, kind, source) && rows[r.value].revision == revision
    ensures r.None? ==> forall i | 0 <= i < |rows| && IsRow(rows[i], c, kind, source) :: rows[i].revision != revision
  {
    if rows == [] then None
    else
      var n := |rows| - 1;
      if IsRow(rows[n], c, kind, source) && rows[n].revision == revision then Some(n)
      else FindRow(rows[..n], c, kind, source, revision)
  }

  /** The previous rows of one source in one case stop being current. */
  function ClearRows(rows: seq<Evidence>, c: nat, kind: Kind, source: nat): (r: seq<Evidence>)
    ensures |r| == |rows|
    ensures forall i {:trigger r[i]} | 0 <= i < |rows| ::
              r[i] == if IsRow(rows[i], c, kind, source) then rows[i].(current := false) else rows[i]
  {
    if rows == [] then []
    else
      var n := |rows| - 1;
      ClearRows(rows[..n], c, kind, source) +
      [if IsRow(rows[n], c, kind, source) then rows[n].(current := false) else rows[n]]
  }

  /** The snapshot a new evidence row takes of its source. */
  function NewRow(db: Db, c: nat, kind: Kind, source: nat): Evidence
    requires SourceRevision(db, kind, source).Some?
  {
    var revision := SourceRevision(db, kind, source).value;
    if kind == FragmentKind then
      var f := db.fragments[source];
      var identity :=
        if f.cluster.Some? then Cluster(f.cluster.value)
        else if f.sourceRef.Some? then Origin(f.sourceType, f.sourceRef.value)
        else Itself(kind, source);
      Evidence(c, kind, source, revision, identity, f.claim, true)
    else
      Evidence(c, kind, source, revision, Itself(kind, source), NoClaim, true)
  }

  /** One reference: the row of the source's present revision is made current, or a new
      row replaces the earlier ones. The first branch clears nothing. */
  function AddOne(db: Db, c: nat, kind: Kind, source: nat): (r: Db)
    requires SourceRevision(db, kind, source).Some?
    ensures r == db.(evidence := r.evidence)
  {
    match FindRow(db.evidence, c, kind, source, SourceRevision(db, kind, source).value)
    case Some(i) => db.(evidence := db.evidence[i := db.evidence[i].(current := true)])
    case None => db.(evidence := ClearRows(db.evidence, c, kind, source) + [NewRow(db, c, kind, source)])
  }

  datatype Ref = Ref(kind: Kind, source: nat, expected: Option<nat>)

  /** A reference is refused when its source is missing or has moved past the revision named. */
  predicate RefOk(db: Db, ref: Ref) {
    var revision := SourceRevision(db, ref.kind, ref.source);
    revision.Some? && (ref.expected.None? || ref.expected == revision)
  }

  predicate RefsOk(db: Db, refs: seq<Ref>) {
    forall k | 0 <= k < |refs| :: RefOk(db, refs[k])
  }

  function AddEvidence(db: Db, c: nat, refs: seq<Ref>): (r: Db)
    requires RefsOk(db, refs)
    ensures r == db.(evidence := r.evidence)
    decreases |refs|
  {
    if refs == [] then db
    else
      var db1 := AddOne(db, c, refs[0].kind, refs[0].source);
      assert forall k | 0 <= k < |refs[1..]| :: RefOk(db, refs[k + 1]) && refs[1..][k] == refs[k + 1];
      AddEvidence(db1, c, refs[1..])
  }

  lemma AddStep(db: Db, c: nat, refs: seq<Ref>)
    requires RefsOk(db, refs) && refs != []
    ensures RefOk(db, refs[0])
    ensures var db1 := AddOne(db, c, refs[0].kind, refs[0].source);
            RefsOk(db1, refs[1..]) && AddEvidence(db, c, refs) == AddEvidence(db1, c, refs[1..])
  {
    assert RefOk(db, refs[0]);
    assert forall k | 0 <= k < |refs[1..]| :: RefOk(db, refs[k + 1]) && refs[1..][k] == refs[k + 1];
  }

  // ---------------------------------------------------------------- case changes

  /** Every analysis of the case is marked stale. */
  function MarkStale(analyses: seq<Analysis>, c: nat): (r: seq<Analysis>)
    ensures |r| == |analyses|
    ensures forall a {:trigger r[a]} | 0 <= a < |analyses| ::
              r[a] == if analyses[a].caseId == c then analyses[a].(stale := true) else analyses[a]
  {
    if analyses == [] then []
    else
      var n := |analyses| - 1;
      MarkStale(analyses[..n], c) +
      [if analyses[n].caseId == c then analyses[n].(stale := true) else analyses[n]]
  }

  function SetCase(db: Db, c: nat, k: Case): Db
    requires c < |db.cases|
  {
    db.(cases := db.cases[c := k])
  }

  /** The case's revision moves on and its analyses go stale. */
  function Touch(db: Db, c: nat): Db
    requires c < |db.cases|
  {
    SetCase(db, c, db.cases[c].(revision := db.cases[c].revision + 1)).(analyses := MarkStale(db.analyses, c))
  }

  function Review(db: Db, c: nat): Db
    requires c < |db.cases|
  {
    db.(facts := Facts.MarkUnderReview(db.facts, db.cases[c].key, c))
  }

  function Reopen(db: Db, c: nat): Db
    requires c < |db.cases|
  {
    Review(Touch(SetCase(db, c, db.cases[c].(status := Reopened, resolution := Unresolved)), c), c)
  }

  // ---------------------------------------------------------------- finding conflicts

  function FragmentRefs(db: Db, frags: seq<nat>): (r: seq<Ref>)
    requires forall k | 0 <= k < |frags| :: frags[k] < |db.fragments|
    ensures |r| == |frags|
    ensures forall k {:trigger r[k]} | 0 <= k < |frags| ::
              r[k] == Ref(FragmentKind, frags[k], Some(db.fragments[frags[k]].revision))
  {
    if frags == [] then []
    else
      var n := |frags| - 1;
      FragmentRefs(db, frags[..n]) + [Ref(FragmentKind, frags[n], Some(db.fragments[frags[n]].revision))]
  }

  function MarkInConflict(fragments: seq<Fragment>, frags: seq<nat>): (r: seq<Fragment>)
    ensures |r| == |fragments|
    ensures forall f {:trigger r[f]} | 0 <= f < |fragments| ::
              r[f] == if f in frags then fragments[f].(status := InConflict) else fragments[f]
    decreases |frags|
  {
    if frags == [] then fragments
    else
      var rest := MarkInConflict(fragments, frags[1..]);
      if frags[0] < |fragments| then rest[frags[0] := fragments[frags[0]].(status := InConflict)] else rest
  }

  /** Some fragment is cited here at its present revision for the first time. */
  predicate HasNewSnapshot(db: Db, c: nat, frags: seq<nat>) {
    exists k | 0 <= k < |frags| :: frags[k] < |db.fragments|
      && FindRow(db.evidence, c, FragmentKind, frags[k], db.fragments[frags[k]].revision).None?
  }

  predicate InRange(db: Db, frags: seq<nat>) {
    forall k | 0 <= k < |frags| :: frags[k] < |db.fragments|
  }

  predicate Opens(db: Db, target: Option<nat>) {
    target.None? || (target.value < |db.cases| && db.cases[target.value].status == Resolved)
  }

  function TargetCase(db: Db, target: Option<nat>): nat {
    target.GetOr(|db.cases|)
  }

  /** The case found, reopened if it was resolved, or a new one. */
  function Target(db: Db, target: Option<nat>, key: Name): Db
    requires target.Some? ==> target.value < |db.cases|
  {
    if target.None? then db.(cases := db.cases + [Case(key, Open, 1, Unresolved)])
    else if Opens(db, target) then Reopen(db, target.value)
    else db
  }

  /** A nearby case (chosen by key, place and time) takes the fragments, reopened if it was
      resolved; without one a case is opened. */
  function FindOrOpen(db: Db, target: Option<nat>, key: Name, frags: seq<nat>): Db
    requires InRange(db, frags)
    requires target.Some? ==> target.value < |db.cases|
  {
    var c := TargetCase(db, target);
    var db1 := Target(db, target, key);
    var db2 := AddEvidence(db1, c, FragmentRefs(db1, frags));
    var db3 := if HasNewSnapshot(db, c, frags) && !Opens(db, target) then Touch(db2, c) else db2;
    db3.(fragments := MarkInConflict(db3.fragments, frags))
  }

  /** The candidate condition of detection, short of the place and time windows. */
  predicate Opposes(f: Fragment, m: Fragment) {
    && m.topic == f.topic && m.claim.Known? && m.claim != f.claim
    && (m.status == Normal || m.status == InConflict)
    && !ShareSource(f, m)
  }

  /** Detection for fragment `f`: `matching` are the opposing fragments inside the windows. */
  predicate Detects(db: Db, f: nat, matching: seq<nat>, target: Option<nat>) {
    && f < |db.fragments| && db.fragments[f].key.Some? && db.fragments[f].claim.Known?
    && matching != []
    && (forall k | 0 <= k < |matching| ::
          matching[k] < |db.fragments| && matching[k] != f && Opposes(db.fragments[f], db.fragments[matching[k]]))
    && (target.Some? ==> target.value < |db.cases|)
  }

  function Detect(db: Db, f: nat, matching: seq<nat>, target: Option<nat>): Db {
    if Detects(db, f, matching, target) then
      FindOrOpen(db, target, db.fragments[f].key.value, matching + [f])
    else db
  }

  // ---------------------------------------------------------------- withdrawing evidence

  /** A changed or withdrawn fragment's current rows, in every case, stop being current. */
  function ClearFragment(rows: seq<Evidence>, f: nat): (r: seq<Evidence>)
    ensures |r| == |rows|
    ensures forall i {:trigger r[i]} | 0 <= i < |rows| ::
              r[i] == if rows[i].kind == FragmentKind && rows[i].source == f then rows[i].(current := false) else rows[i]
  {
    if rows == [] then []
    else
      var n := |rows| - 1;
      ClearFragment(rows[..n], f) +
      [if rows[n].kind == FragmentKind && rows[n].source == f then rows[n].(current := false) else rows[n]]
  }

  /** The rows of case `c` that clearing fragment `f` withdraws. */
  function WithdrawnIds(rows: seq<Evidence>, c: nat, f: nat): set<nat> {
    set i | 0 <= i < |rows| && IsCurrent(rows, c, i) && rows[i].kind == FragmentKind && rows[i].source == f
  }

  /** The cases that lose evidence, oldest first. */
  function AffectedCases(rows: seq<Evidence>, f: nat, n: nat): (r: seq<nat>)
    ensures forall c: nat {:trigger c in r} :: c in r <==> c < n && WithdrawnIds(rows, c, f) != {}
  {
    if n == 0 then []
    else
      AffectedCases(rows, f, n - 1) + if WithdrawnIds(rows, n - 1, f) != {} then [n - 1] else []
  }

  function ReleasedFragment(db: Db, c: nat, f: nat): Fragment
    requires f < |db.fragments|
  {
    var x := db.fragments[f];
    if Cites(db.evidence, c, f) && !Held(db.cases, db.evidence, f) && x.status == InConflict
    then x.(status := Normal, revision := x.revision + 1)
    else x
  }

  /** Fragments of a case just resolved go back to normal unless another unfinished case
      still holds them. */
  function Release(db: Db, c: nat, n: nat): (r: seq<Fragment>)
    requires n <= |db.fragments|
    ensures |r| == n
    ensures forall f {:trigger r[f]} | 0 <= f < n :: r[f] == ReleasedFragment(db, c, f)
  {
    if n == 0 then [] else Release(db, c, n - 1) + [ReleasedFragment(db, c, n - 1)]
  }

  /** What losing rows does to the case before it is re-judged. */
  function NoteWithdrawal(db: Db, c: nat, lost: set<nat>, before: nat): Db
    requires c < |db.cases|
  {
    if lost == {} then db
    else
      var k := db.cases[c];
      var db1 :=
        SetCase(db, c, k.(revision := if k.revision == before then k.revision + 1 else k.revision))
          .(analyses := MarkStale(db.analyses, c));
      match Facts.CurrentVersion(db.facts, k.key)
      case Some(v) =>
        if db.facts.records[k.key].status != Facts.UnderReview && lost * v.accepted != {} then Review(db1, c) else db1
      case None => db1
  }

  function AutoResolve(db: Db, c: nat, bump: bool): Db
    requires c < |db.cases|
  {
    var db1 := SetCase(db, c, db.cases[c].(status := Resolved, resolution := Automatic));
    var db2 := if bump then Touch(db1, c) else db1;
    db2.(fragments := Release(db2, c, |db2.fragments|))
  }

  predicate StillDisputed(rows: seq<Evidence>, c: nat) {
    HasOtherEvidence(rows, c) || HasContradiction(rows, c)
  }

  function ReconcileOne(db: Db, c: nat, lost: set<nat>, before: nat): Db
    requires c < |db.cases|
  {
    var db1 := NoteWithdrawal(db, c, lost, before);
    if StillDisputed(db1.evidence, c) || Finished(db1.cases[c].status) then db1
    else AutoResolve(db1, c, lost == {})
  }

  /** `lost` and `before`, per case: the rows withdrawn and the revision it had then. */
  datatype Withdrawal = Withdrawal(lost: map<nat, set<nat>>, before: map<nat, nat>)

  function Lost(w: Withdrawal, c: nat): set<nat> {
    if c in w.lost then w.lost[c] else {}
  }

  function Before(db: Db, w: Withdrawal, c: nat): nat
    requires c < |db.cases|
  {
    if c in w.before then w.before[c] else db.cases[c].revision
  }

  function Reconcile(db: Db, list: seq<nat>, seen: set<nat>, w: Withdrawal): (r: Db)
    requires forall k | 0 <= k < |list| :: list[k] < |db.cases|
    ensures |r.cases| == |db.cases| && |r.fragments| == |db.fragments| && r.evidence == db.evidence
    decreases |list|
  {
    if list == [] then db
    else if list[0] in seen then Reconcile(db, list[1..], seen, w)
    else
      Reconcile(ReconcileOne(db, list[0], Lost(w, list[0]), Before(db, w, list[0])), list[1..], seen + {list[0]}, w)
  }

  // ---------------------------------------------------------------- transactions

  datatype Fields = Fields(cluster: Option<Name>, topic: Name, key: Option<Name>, claim: Claim, place: Name, note: Name)

  function NewFragment(sourceType: SourceType, ref: Option<Name>, v: Fields): Fragment {
    Fragment(Normal, 1, sourceType, Standing, ref, v.cluster, v.topic, v.key, v.claim, v.place, v.note)
  }

  /** An edit of a live report that changes no field changes nothing. */
  predicate Unchanged(x: Fragment, v: Fields) {
    x.status != Withdrawn && v == Fields(x.cluster, x.topic, x.key, x.claim, x.place, x.note)
  }

  function Edited(x: Fragment, v: Fields): Fragment {
    x.(status := if x.status == Withdrawn || v.key != x.key || v.claim != x.claim || v.place != x.place then Normal else x.status,
       revision := x.revision + 1,
       cluster := v.cluster, topic := v.topic, key := v.key, claim := v.claim, place := v.place, note := v.note)
  }

  /** The report is deleted, or marked invalid; its fragment is withdrawn. */
  function Pulled(x: Fragment, deleted: bool): Fragment {
    x.(report := if deleted then Deleted else Invalid,
       status := Withdrawn,
       revision := if x.status == Withdrawn then x.revision else x.revision + 1)
  }

  /** Only an operator restoring an invalid report changes how it stands. */
  function Restored(x: Fragment, restore: bool): Fragment {
    if restore then x.(report := Standing) else x
  }

  /** The fragment of a report that can still be written: a deleted one is not found. */
  predicate Writable(db: Db, f: nat) {
    f < |db.fragments| && db.fragments[f].sourceType == ResidentReport && db.fragments[f].report != Deleted
  }

  /** A report can be deleted while it is there, and marked invalid once. */
  predicate MayWithdraw(db: Db, f: nat, deleted: bool) {
    Writable(db, f) && (deleted || db.fragments[f].report == Standing)
  }

  /** The fragment takes its new value and its current rows are withdrawn everywhere. */
  function Supersede(db: Db, f: nat, x: Fragment): Db
    requires f < |db.fragments|
  {
    db.(fragments := db.fragments[f := x], evidence := ClearFragment(db.evidence, f))
  }

  function WithdrawalOf(db: Db, f: nat): Withdrawal {
    var list := AffectedCases(db.evidence, f, |db.cases|);
    Withdrawal(map c | c in list :: WithdrawnIds(db.evidence, c, f),
               map c | c in list && c < |db.cases| :: db.cases[c].revision)
  }

  const NOTHING := Withdrawal(map[], map[])

  /** Detection after fragment `f` was written, then every affected case is re-judged. */
  function DetectAndReconcile(db: Db, f: nat, matching: seq<nat>, target: Option<nat>, list: seq<nat>, w: Withdrawal): Db
    requires forall k | 0 <= k < |list| :: list[k] < |db.cases|
  {
    if Detects(db, f, matching, target) then
      Reconcile(Detect(db, f, matching, target), list + [TargetCase(db, target)], {}, w)
    else Reconcile(db, list, {}, w)
  }

  datatype Route = Quiet | Updates(c: nat) | Disagree(target: Option<nat>, frags: seq<nat>)

  datatype Decision = Decision(
    revision: nat,
    dispositions: map<nat, bool>,
    analysis: Option<nat>,
    expectedFact: nat,
    factStatus: Facts.FactStatus,
    conclusion: Name,
    isPublic: bool)

  datatype Op =
    | CreateReport(ref: Name, v: Fields, matching: seq<nat>, target: Option<nat>)
    | EditReport(f: nat, restore: bool, v: Fields, matching: seq<nat>, target: Option<nat>)
    | WithdrawReport(f: nat, deleted: bool)
    | EnterFragment(ref: Name, v: Fields, matching: seq<nat>, target: Option<nat>)
    | PutAnswer(answer: Option<nat>, v: Fields, settles: bool, route: Route)
    | TouchSource(kind: Kind, id: nat)
    | CreateCase(key: Name, refs: seq<Ref>)
    | AppendEvidence(c: nat, revision: nat, refs: seq<Ref>)
    | ReopenCase(c: nat, revision: nat)
    | Decide(c: nat, d: Decision)
    | EnqueueAnalysis(c: nat, revision: nat, reuse: Option<nat>)
    | StartAnalysis(a: nat)
    | CompleteAnalysis(a: nat)
    | FailAnalysis(a: nat)
    | RetryAnalysis(a: nat)

  function AcceptedIds(d: Decision): set<nat> {
    set i | i in d.dispositions && d.dispositions[i]
  }

  function VerdictOf(d: Decision): Facts.Verdict {
    Facts.Verdict(d.expectedFact, d.factStatus, d.conclusion, d.isPublic, AcceptedIds(d))
  }

  /** A decision is taken on the revision it names, disposes of every current row and no
      other, cites only a current analysis of that revision, and names the fact's revision. */
  predicate Admits(db: Db, c: nat, d: Decision) {
    && c < |db.cases|
    && db.cases[c].revision == d.revision
    && db.cases[c].status != Resolved
    && d.dispositions.Keys == CurrentIds(db.evidence, c)
    && (d.analysis.Some? ==>
          d.analysis.value < |db.analyses| &&
          var a := db.analyses[d.analysis.value];
          a.caseId == c && a.status == Succeeded && !a.stale && a.inputVersion == db.cases[c].revision)
    && Facts.Expected(db.facts, db.cases[c].key, VerdictOf(d))
  }

  /** Cited fragments become accepted or normal, each with a new revision. */
  function Dispose(fragments: seq<Fragment>, rows: seq<Evidence>, accepted: set<nat>, c: nat, n: nat): (r: seq<Fragment>)
    requires n <= |rows|
    ensures |r| == |fragments|
  {
    if n == 0 then fragments
    else
      var rest := Dispose(fragments, rows, accepted, c, n - 1);
      var e := rows[n - 1];
      if IsCurrent(rows, c, n - 1) && e.kind == FragmentKind && e.source < |rest| then
        var x := rest[e.source];
        rest[e.source := x.(status := if n - 1 in accepted then Accepted else Normal, revision := x.revision + 1)]
      else rest
  }

  function Decided(db: Db, c: nat, d: Decision): Db
    requires Admits(db, c, d)
  {
    var k := db.cases[c];
    SetCase(db, c, k.(status := Resolved, resolution := ByOperator(AcceptedIds(d)), revision := k.revision + 1))
      .(facts := Facts.RecordVerdict(db.facts, k.key, VerdictOf(d), c),
        fragments := Dispose(db.fragments, db.evidence, AcceptedIds(d), c, |db.evidence|))
  }

  /** The fragments an answer write passes on: those of answers with a definite value. */
  predicate AnswerFragments(db: Db, frags: seq<nat>) {
    && InRange(db, frags)
    && forall k | 0 <= k < |frags| ::
         db.fragments[frags[k]].sourceType == DirectedAnswer && db.fragments[frags[k]].claim.Known?
  }

  function RouteAnswer(db: Db, f: nat, created: bool, route: Route): Db
    requires f < |db.fragments|
  {
    match route
    case Quiet => db
    case Updates(c) =>
      if !created && c < |db.cases| && Cites(db.evidence, c, f)
      then Touch(AddOne(db, c, FragmentKind, f), c)
      else db
    case Disagree(target, frags) =>
      if AnswerFragments(db, frags) && (target.Some? ==> target.value < |db.cases|) && db.fragments[f].key.Some?
      then FindOrOpen(db, target, db.fragments[f].key.value, frags)
      else db
  }

  function RewrittenAnswer(x: Fragment, v: Fields): Fragment {
    x.(claim := v.claim, place := v.place, note := v.note, revision := x.revision + 1)
  }

  /** What follows once the answer's fragment is written. */
  function Followed(db: Db, f: nat, created: bool, settles: bool, route: Route): Db
    requires f < |db.fragments|
  {
    Settle(RouteAnswer(db, f, created, route), f, settles && !route.Disagree?)
  }

  function Answered(db: Db, answer: Option<nat>, v: Fields, settles: bool, route: Route): Db {
    if answer.None? then
      Followed(db.(fragments := db.fragments + [NewFragment(DirectedAnswer, Some(|db.fragments|), v)]),
               |db.fragments|, true, settles, route)
    else
      var f := answer.value;
      if f < |db.fragments| && db.fragments[f].sourceType == DirectedAnswer then
        Followed(db.(fragments := db.fragments[f := RewrittenAnswer(db.fragments[f], v)]), f, false, settles, route)
      else db
  }

  /** A consensus marks the answer's fragment as accepted. */
  function Settle(db: Db, f: nat, settles: bool): Db {
    if settles && f < |db.fragments|
    then db.(fragments := db.fragments[f := db.fragments[f].(status := Accepted)])
    else db
  }

  function EnqueuedAnalysis(db: Db, c: nat, reuse: Option<nat>): Db
    requires c < |db.cases|
  {
    var k := db.cases[c];
    if reuse.Some? then SetCase(db, c, k.(status := AnalysisReady))
    else SetCase(db, c, k.(status := Analyzing))
           .(analyses := db.analyses + [Analysis(c, k.revision, CurrentIds(db.evidence, c), Queued, false)])
  }

  function SetAnalysis(db: Db, a: nat, x: Analysis): Db
    requires a < |db.analyses|
  {
    db.(analyses := db.analyses[a := x])
  }

  /** The answer is stale when the case moved on while the model was running. */
  function CompletedAnalysis(db: Db, a: nat): Db
    requires a < |db.analyses| && db.analyses[a].caseId < |db.cases|
  {
    var x := db.analyses[a];
    var k := db.cases[x.caseId];
    var stale := x.stale || k.revision != x.inputVersion;
    var status := if !stale then AnalysisReady else if k.status == Analyzing then Open else k.status;
    SetCase(SetAnalysis(db, a, x.(status := Succeeded, stale := stale)), x.caseId, k.(status := status))
  }

  function FailedAnalysis(db: Db, a: nat): Db
    requires a < |db.analyses| && db.analyses[a].caseId < |db.cases|
  {
    var x := db.analyses[a];
    var k := db.cases[x.caseId];
    SetCase(SetAnalysis(db, a, x.(status := Failed)), x.caseId, k.(status := if k.status == Analyzing then Open else k.status))
  }

  predicate Reusable(db: Db, c: nat, reuse: Option<nat>)
    requires c < |db.cases|
  {
    reuse.Some? ==>
      reuse.value < |db.analyses| &&
      var a := db.analyses[reuse.value];
      a.caseId == c && a.inputVersion == db.cases[c].revision && a.status == Succeeded && !a.stale
      && a.allowed == CurrentIds(db.evidence, c)
  }

  lemma AffectedInRange(rows: seq<Evidence>, f: nat, n: nat)
    ensures forall k | 0 <= k < |AffectedCases(rows, f, n)| :: AffectedCases(rows, f, n)[k] < n
  {
    assert forall k | 0 <= k < |AffectedCases(rows, f, n)| :: AffectedCases(rows, f, n)[k] in AffectedCases(rows, f, n);
  }

  /** A report written again: its rows are withdrawn, detection runs on the new value, and
      every affected case is re-judged. */
  function Superseded(db: Db, f: nat, x: Fragment, matching: seq<nat>, target: Option<nat>): Db
    requires f < |db.fragments|
  {
    AffectedInRange(db.evidence, f, |db.cases|);
    DetectAndReconcile(Supersede(db, f, x), f, matching, target, AffectedCases(db.evidence, f, |db.cases|), WithdrawalOf(db, f))
  }

  function Withdrew(db: Db, f: nat, x: Fragment): Db
    requires f < |db.fragments|
  {
    AffectedInRange(db.evidence, f, |db.cases|);
    Reconcile(Supersede(db, f, x), AffectedCases(db.evidence, f, |db.cases|), {}, WithdrawalOf(db, f))
  }

  /** A refused request leaves the tables as they were. */
  function Apply(db: Db, op: Op): Db {
    match op
    case CreateReport(ref, v, matching, target) =>
      DetectAndReconcile(db.(fragments := db.fragments + [NewFragment(ResidentReport, Some(ref), v)]),
                         |db.fragments|, matching, target, [], NOTHING)
    case EditReport(f, restore, v, matching, target) =>
      if Writable(db, f) then
        var x := Restored(db.fragments[f], restore);
        if Unchanged(x, v) then db.(fragments := db.fragments[f := x])
        else Superseded(db, f, Edited(x, v), matching, target)
      else db
    case WithdrawReport(f, deleted) =>
      if MayWithdraw(db, f, deleted) then Withdrew(db, f, Pulled(db.fragments[f], deleted)) else db
    case EnterFragment(ref, v, matching, target) =>
      Detect(db.(fragments := db.fragments + [NewFragment(OperatorEntry, Some(ref), v)]), |db.fragments|, matching, target)
    case PutAnswer(answer, v, settles, route) => Answered(db, answer, v, settles, route)
    case TouchSource(kind, id) =>
      if kind == FragmentKind then db
      else if (kind, id) !in db.others then db.(others := db.others[(kind, id) := 1])
      else if kind == AttachmentKind then db
      else db.(others := db.others[(kind, id) := db.others[(kind, id)] + 1])
    case CreateCase(key, refs) =>
      if RefsOk(db, refs)
      then AddEvidence(db.(cases := db.cases + [Case(key, Open, 1, Unresolved)]), |db.cases|, refs)
      else db
    case AppendEvidence(c, revision, refs) =>
      if c < |db.cases| && db.cases[c].revision == revision && RefsOk(db, refs)
      then Touch(AddEvidence(db, c, refs), c)
      else db
    case ReopenCase(c, revision) =>
      if c < |db.cases| && db.cases[c].revision == revision && db.cases[c].status == Resolved then Reopen(db, c) else db
    case Decide(c, d) => if Admits(db, c, d) then Decided(db, c, d) else db
    case EnqueueAnalysis(c, revision, reuse) =>
      if c < |db.cases| && db.cases[c].revision == revision && CurrentIds(db.evidence, c) != {} && Reusable(db, c, reuse)
      then EnqueuedAnalysis(db, c, reuse)
      else db
    case StartAnalysis(a) =>
      if a < |db.analyses| then SetAnalysis(db, a, db.analyses[a].(status := Running)) else db
    case CompleteAnalysis(a) =>
      if a < |db.analyses| && db.analyses[a].status == Running && db.analyses[a].caseId < |db.cases|
      then CompletedAnalysis(db, a) else db
    case FailAnalysis(a) =>
      if a < |db.analyses| && db.analyses[a].caseId < |db.cases| then FailedAnalysis(db, a) else db
    case RetryAnalysis(a) =>
      if a < |db.analyses| && db.analyses[a].status == Failed
      then SetAnalysis(db, a, db.analyses[a].(status := Queued, stale := false))
      else db
  }

  const EMPTY := Db([], [], [], map[], [], Facts.EMPTY)

  function Run(db: Db, ops: seq<Op>): Db
    decreases |ops|
  {
    if ops == [] then db else Run(Apply(db, ops[0]), ops[1..])
  }
}
