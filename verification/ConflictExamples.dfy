/** Short runs from the empty tables in which the properties that fail do fail. */
module ConflictExamples {
  import opened Options
  import opened Conflicts
  import opened ConflictRuns
  import ConflictFreshness
  import ConflictCases
  import opened ConflictDetection
  import opened ConflictReports
  import Facts

  // ---------------------------------------------------------------- a case with one report

  const ROW := Evidence(0, ReportKind, 1, 1, Itself(ReportKind, 1), NoClaim, true)

  /** One case that cites report 1, with one analysis or none. */
  function OneCase(k: Case, analyses: seq<Analysis>, facts: Facts.Store): Db {
    Db([k], [ROW], [], map[(ReportKind, 1) := 1], analyses, facts)
  }

  const OPENED := [TouchSource(ReportKind, 1), CreateCase(0, [Ref(ReportKind, 1, None)])]

  lemma CaseOpened(rest: seq<Op>)
    ensures Run(EMPTY, OPENED + rest) == Run(OneCase(Case(0, Open, 1, Unresolved), [], Facts.EMPTY), rest)
  {
    var s1 := EMPTY.(others := map[(ReportKind, 1) := 1]);
    var refs := [Ref(ReportKind, 1, None)];
    assert Apply(EMPTY, OPENED[0]) == s1;
    CaseCreated(s1, refs);
    assert OPENED + rest == [OPENED[0]] + ([OPENED[1]] + rest);
    RunBegins(EMPTY, OPENED[0], [OPENED[1]] + rest);
    RunBegins(s1, OPENED[1], rest);
  }

  lemma CaseCreated(s1: Db, refs: seq<Ref>)
    requires s1 == EMPTY.(others := map[(ReportKind, 1) := 1]) && refs == [Ref(ReportKind, 1, None)]
    ensures Apply(s1, CreateCase(0, refs)) == OneCase(Case(0, Open, 1, Unresolved), [], Facts.EMPTY)
  {
    var db1 := s1.(cases := [Case(0, Open, 1, Unresolved)]);
    assert RefOk(s1, refs[0]) && RefOk(db1, refs[0]);
    assert s1.cases + [Case(0, Open, 1, Unresolved)] == db1.cases;
    RowAdded(db1);
    OneAdded(db1, refs);
  }

  lemma OneAdded(db1: Db, refs: seq<Ref>)
    requires |refs| == 1 && RefOk(db1, refs[0])
    ensures AddEvidence(db1, 0, refs) == AddOne(db1, 0, refs[0].kind, refs[0].source)
  {
    AddStep(db1, 0, refs);
    assert refs[1..] == [];
  }

  lemma RowAdded(db1: Db)
    requires db1 == OneCase(Case(0, Open, 1, Unresolved), [], Facts.EMPTY).(evidence := [])
    ensures AddOne(db1, 0, ReportKind, 1) == OneCase(Case(0, Open, 1, Unresolved), [], Facts.EMPTY)
  {
    assert SourceRevision(db1, ReportKind, 1) == Some(1);
    assert FindRow([], 0, ReportKind, 1, 1) == None;
    assert ClearRows([], 0, ReportKind, 1) + [ROW] == [ROW];
  }

  lemma OneRow(k: Case, analyses: seq<Analysis>, facts: Facts.Store)
    ensures CurrentIds(OneCase(k, analyses, facts).evidence, 0) == {0}
  {
    assert IsCurrent(OneCase(k, analyses, facts).evidence, 0, 0);
  }

  /** The decision that accepts the row, citing no analysis. */
  function Accepting(revision: nat, expectedFact: nat): Decision {
    Decision(revision, map[0 := true], None, expectedFact, Facts.Current, 0, false)
  }

  lemma Accepts(k: Case, analyses: seq<Analysis>, facts: Facts.Store, d: Decision)
    requires d == Accepting(k.revision, d.expectedFact) && Facts.Expected(facts, k.key, VerdictOf(d)) && k.status != Resolved
    ensures Admits(OneCase(k, analyses, facts), 0, d)
    ensures Apply(OneCase(k, analyses, facts), Decide(0, d)).analyses == analyses
    ensures Apply(OneCase(k, analyses, facts), Decide(0, d))
            == OneCase(Case(k.key, Resolved, k.revision + 1, ByOperator({0})), analyses,
                       Facts.RecordVerdict(facts, k.key, VerdictOf(d), 0))
  {
    OneRow(k, analyses, facts);
    assert d.dispositions.Keys == {0};
    assert AcceptedIds(d) == {0};
    var rows := [ROW];
    assert Dispose([], rows, {0}, 0, 1) == [];
  }

  /** A case is analysed, then decided citing nothing: its analysis is succeeded, unmarked
      and one revision behind. */
  lemma DecisionLeavesUnmarked()
    ensures var db := Run(EMPTY, OPENED + [EnqueueAnalysis(0, 1, None), StartAnalysis(0), CompleteAnalysis(0),
                                           Decide(0, Accepting(1, 0))]);
            ConflictFreshness.Unmarked(db, 0) && ConflictFreshness.Outdated(db, 0)
  {
    var last := [Decide(0, Accepting(1, 0))];
    CaseOpened([EnqueueAnalysis(0, 1, None), StartAnalysis(0), CompleteAnalysis(0)] + last);
    Analysed(last);
    var k := Case(0, AnalysisReady, 1, Unresolved);
    var analyses := [Analysis(0, 1, {0}, Succeeded, false)];
    Accepts(k, analyses, Facts.EMPTY, Accepting(1, 0));
    RunBegins(OneCase(k, analyses, Facts.EMPTY), last[0], []);
    assert last == [last[0]] + [];
    assert OPENED + [EnqueueAnalysis(0, 1, None), StartAnalysis(0), CompleteAnalysis(0), Decide(0, Accepting(1, 0))]
        == OPENED + ([EnqueueAnalysis(0, 1, None), StartAnalysis(0), CompleteAnalysis(0)] + last);
  }

  lemma Analysed(rest: seq<Op>)
    ensures Run(OneCase(Case(0, Open, 1, Unresolved), [], Facts.EMPTY),
                [EnqueueAnalysis(0, 1, None), StartAnalysis(0), CompleteAnalysis(0)] + rest)
            == Run(OneCase(Case(0, AnalysisReady, 1, Unresolved), [Analysis(0, 1, {0}, Succeeded, false)], Facts.EMPTY), rest)
  {
    var s1 := OneCase(Case(0, Open, 1, Unresolved), [], Facts.EMPTY);
    var s2 := OneCase(Case(0, Analyzing, 1, Unresolved), [Analysis(0, 1, {0}, Queued, false)], Facts.EMPTY);
    var s3 := OneCase(Case(0, Analyzing, 1, Unresolved), [Analysis(0, 1, {0}, Running, false)], Facts.EMPTY);
    Enqueued(s1.cases[0], Facts.EMPTY);
    Started(s2, s3);
    Completed(s3);
    assert [EnqueueAnalysis(0, 1, None), StartAnalysis(0), CompleteAnalysis(0)] + rest
        == [EnqueueAnalysis(0, 1, None)] + ([StartAnalysis(0)] + ([CompleteAnalysis(0)] + rest));
    RunBegins(s1, EnqueueAnalysis(0, 1, None), [StartAnalysis(0)] + ([CompleteAnalysis(0)] + rest));
    RunBegins(s2, StartAnalysis(0), [CompleteAnalysis(0)] + rest);
    RunBegins(s3, CompleteAnalysis(0), rest);
  }

  lemma Enqueued(k: Case, facts: Facts.Store)
    ensures Apply(OneCase(k, [], facts), EnqueueAnalysis(0, k.revision, None))
            == OneCase(k.(status := Analyzing), [Analysis(0, k.revision, {0}, Queued, false)], facts)
  {
    OneRow(k, [], facts);
  }

  lemma Started(s2: Db, s3: Db)
    requires s2 == OneCase(Case(0, Analyzing, 1, Unresolved), [Analysis(0, 1, {0}, Queued, false)], Facts.EMPTY)
    requires s3 == s2.(analyses := [Analysis(0, 1, {0}, Running, false)])
    ensures Apply(s2, StartAnalysis(0)) == s3
  {
  }

  lemma Completed(s3: Db)
    requires s3 == OneCase(Case(0, Analyzing, 1, Unresolved), [Analysis(0, 1, {0}, Running, false)], Facts.EMPTY)
    ensures Apply(s3, CompleteAnalysis(0))
            == OneCase(Case(0, AnalysisReady, 1, Unresolved), [Analysis(0, 1, {0}, Succeeded, false)], Facts.EMPTY)
  {
  }

  /** A case is decided, an analysis of it is enqueued, and it is decided again; nobody
      reopened it. The fact has a version of each decision. */
  lemma DecidedTwice()
    ensures var db := Run(EMPTY, OPENED + [Decide(0, Accepting(1, 0)), EnqueueAnalysis(0, 2, None), Decide(0, Accepting(2, 1))]);
            && db.cases == [Case(0, Resolved, 3, ByOperator({0}))]
            && |Facts.History(db.facts.versions, 0)| == 2
  {
    var ops := [Decide(0, Accepting(1, 0)), EnqueueAnalysis(0, 2, None), Decide(0, Accepting(2, 1))];
    var once := Facts.RecordVerdict(Facts.EMPTY, 0, VerdictOf(Accepting(1, 0)), 0);
    var s1 := OneCase(Case(0, Open, 1, Unresolved), [], Facts.EMPTY);
    var s2 := OneCase(Case(0, Resolved, 2, ByOperator({0})), [], once);
    var analyses := [Analysis(0, 2, {0}, Queued, false)];
    var k := Case(0, Analyzing, 2, ByOperator({0}));
    var s3 := OneCase(k, analyses, once);
    CaseOpened(ops);
    Accepts(s1.cases[0], [], Facts.EMPTY, Accepting(1, 0));
    Enqueued(s2.cases[0], once);
    Accepts(k, analyses, once, Accepting(2, 1));
    TwoVersions(once);
    assert ops == [ops[0]] + ([ops[1]] + ([ops[2]] + []));
    RunBegins(s1, ops[0], [ops[1]] + ([ops[2]] + []));
    RunBegins(s2, ops[1], [ops[2]] + []);
    RunBegins(s3, ops[2], []);
  }

  lemma TwoVersions(once: Facts.Store)
    requires once == Facts.RecordVerdict(Facts.EMPTY, 0, VerdictOf(Accepting(1, 0)), 0)
    ensures var twice := Facts.RecordVerdict(once, 0, VerdictOf(Accepting(2, 1)), 0); Facts.History(twice.versions, 0) == [0, 1]
  {
    var twice := Facts.RecordVerdict(once, 0, VerdictOf(Accepting(2, 1)), 0);
    assert twice.versions[..1][0].factKey == 0 && twice.versions[1].factKey == 0;
    assert Facts.History([], 0) == [];
    assert twice.versions[..1][..0] == [];
    assert Facts.History(twice.versions[..1], 0) == [0];
  }

  // ---------------------------------------------------------------- an invalid report

  /** What a device's report says of the one key; each device is a cluster of its own. */
  function Saying(device: Name, value: Name): Fields {
    Fields(Some(device), 0, Some(0), Known(value), 0, 0)
  }

  /** A report is marked invalid, another says otherwise, and the invalid one is written
      again: it is in dispute, and still invalid. */
  lemma InvalidReportReturns()
    ensures var db := Run(EMPTY, [CreateReport(0, Saying(7, 1), [], None), WithdrawReport(0, false),
                                  CreateReport(1, Saying(8, 2), [], None), EditReport(0, false, Saying(7, 1), [1], None)]);
            InDispute(db, 0, 0) && InDispute(db, 0, 1) && db.fragments[0].report == Invalid
  {
    var ops := [CreateReport(0, Saying(7, 1), [], None), WithdrawReport(0, false), CreateReport(1, Saying(8, 2), [], None)];
    var op := EditReport(0, false, Saying(7, 1), [1], None);
    ThreeReports(ops);
    RunSplits(EMPTY, ops, [op]);
    RunBegins(Run(EMPTY, ops), op, []);
    assert ops + [op] == [CreateReport(0, Saying(7, 1), [], None), WithdrawReport(0, false),
                          CreateReport(1, Saying(8, 2), [], None), EditReport(0, false, Saying(7, 1), [1], None)];
    assert [op] == [op] + [];
    InvalidReportDisputes(ops, op, 0);
  }

  lemma ThreeReports(ops: seq<Op>)
    requires ops == [CreateReport(0, Saying(7, 1), [], None), WithdrawReport(0, false), CreateReport(1, Saying(8, 2), [], None)]
    ensures var x := Pulled(NewFragment(ResidentReport, Some(0), Saying(7, 1)), false);
            Run(EMPTY, ops) == EMPTY.(fragments := [x, NewFragment(ResidentReport, Some(1), Saying(8, 2))])
  {
    var x, y := NewFragment(ResidentReport, Some(0), Saying(7, 1)), NewFragment(ResidentReport, Some(1), Saying(8, 2));
    var s1, s2 := EMPTY.(fragments := [x]), EMPTY.(fragments := [Pulled(x, false)]);
    assert ops == [ops[0]] + ([ops[1]] + ([ops[2]] + []));
    Created(EMPTY, 0, Saying(7, 1));
    Invalidated(s1);
    Created(s2, 1, Saying(8, 2));
    assert EMPTY.fragments + [x] == [x] && s2.fragments + [y] == [Pulled(x, false), y];
    assert Apply(s1, ops[1]) == s2;
    RunBegins(EMPTY, ops[0], [ops[1]] + ([ops[2]] + []));
    RunBegins(s1, ops[1], [ops[2]] + []);
    RunBegins(s2, ops[2], []);
  }

  lemma Created(db: Db, ref: Name, v: Fields)
    ensures Apply(db, CreateReport(ref, v, [], None))
            == db.(fragments := db.fragments + [NewFragment(ResidentReport, Some(ref), v)])
  {
  }

  lemma Invalidated(db: Db)
    requires |db.fragments| == 1 && db.evidence == [] && db.cases == [] && MayWithdraw(db, 0, false)
    ensures Apply(db, WithdrawReport(0, false)) == db.(fragments := [Pulled(db.fragments[0], false)])
  {
    assert db.fragments[0 := Pulled(db.fragments[0], false)] == [Pulled(db.fragments[0], false)];
    assert ClearFragment([], 0) == [];
    assert AffectedCases([], 0, 0) == [];
  }
}
