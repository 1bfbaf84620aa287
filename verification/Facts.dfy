/** Fact records and their version chain. Versions are rows of one append-only table,
    named by position; a record points at its current version. */
module Facts {
  import opened Options

  /** Keys are compared only for equality. */
  type Key = nat

  datatype FactStatus = Current | UnderReview

  datatype Version = Version(
    factKey: Key,
    previous: Option<nat>,
    revision: nat,
    status: FactStatus,
    statement: nat,
    sourceCase: nat,
    accepted: set<nat>,
    bySystem: bool,
    ended: bool)

  datatype Record = Record(status: FactStatus, isPublic: bool, revision: nat, version: Option<nat>)

  datatype Store = Store(records: map<Key, Record>, versions: seq<Version>)

  const EMPTY := Store(map[], [])

  /** The record's previous version is ended, the new one becomes current. */
  function Append(s: Store, key: Key, prior: Record, v: Version, isPublic: bool): Store {
    var ended :=
      if prior.version.Some? && prior.version.value < |s.versions|
      then s.versions[prior.version.value := s.versions[prior.version.value].(ended := true)]
      else s.versions;
    Store(
      s.records[key := Record(v.status, isPublic, v.revision, Some(|s.versions|))],
      ended + [v])
  }

  function CurrentVersion(s: Store, key: Key): Option<Version> {
    if key in s.records && s.records[key].version.Some? && s.records[key].version.value < |s.versions|
    then Some(s.versions[s.records[key].version.value])
    else None
  }

  /** Stands for the fixed text "New evidence requires review". */
  const DEFAULT_STATEMENT: nat := 0

  /** Reopening a conflict, or losing accepted evidence, puts its fact under review. */
  function MarkUnderReview(s: Store, key: Key, sourceCase: nat): Store {
    if key !in s.records || s.records[key].status == UnderReview then s
    else
      var prior := s.records[key];
      var statement := match CurrentVersion(s, key) case Some(v) => v.statement case None => DEFAULT_STATEMENT;
      Append(s, key, prior,
             Version(key, prior.version, prior.revision + 1, UnderReview, statement, sourceCase, {}, true, false), false)
  }

  datatype Verdict = Verdict(expectedRevision: nat, status: FactStatus, statement: nat, isPublic: bool, accepted: set<nat>)

  /** A decision's compare-and-set on the fact record: a missing record has revision 0. */
  predicate Expected(s: Store, key: Key, verdict: Verdict) {
    verdict.expectedRevision == if key in s.records then s.records[key].revision else 0
  }

  function RecordVerdict(s: Store, key: Key, verdict: Verdict, sourceCase: nat): Store
    requires Expected(s, key, verdict)
  {
    var prior := if key in s.records then s.records[key] else Record(verdict.status, verdict.isPublic, 0, None);
    Append(s, key, prior,
           Version(key, prior.version, prior.revision + 1, verdict.status, verdict.statement, sourceCase, verdict.accepted, false, false),
           verdict.isPublic)
  }

  // ---------------------------------------------------------------- the chain

  /** Every version ever written for a key, oldest first. */
  function History(versions: seq<Version>, key: Key): (r: seq<nat>)
    ensures forall i: nat {:trigger i in r} :: i in r <==> i < |versions| && versions[i].factKey == key
    ensures forall i | 0 <= i < |r| :: r[i] < |versions| && versions[r[i]].factKey == key
    ensures forall i, j | 0 <= i < j < |r| :: r[i] < r[j]
  {
    if versions == [] then []
    else
      var n := |versions| - 1;
      var before := History(versions[..n], key);
      assert forall i | 0 <= i < |before| :: before[i] in before;
      if versions[n].factKey == key then before + [n] else before
  }

  /** Row `i` of a chain: revision `i + 1`, pointing at the row before it, ended unless last. */
  predicate Link(versions: seq<Version>, ids: seq<nat>, i: nat) {
    && i < |ids| && ids[i] < |versions|
    && versions[ids[i]].revision == i + 1
    && versions[ids[i]].previous == (if i == 0 then None else Some(ids[i - 1]))
    && (versions[ids[i]].ended <==> i < |ids| - 1)
  }

  /** Revisions 1..current in order, each pointing at the one before it, all ended but
      the last, which is the record's current version and carries its status. */
  ghost predicate Linear(s: Store, key: Key) {
    var ids := History(s.versions, key);
    if key !in s.records then ids == []
    else
      && ids != []
      && s.records[key].revision == |ids|
      && s.records[key].version == Some(ids[|ids| - 1])
      && s.records[key].status == s.versions[ids[|ids| - 1]].status
      && forall i: nat {:trigger Link(s.versions, ids, i)} | i < |ids| :: Link(s.versions, ids, i)
  }

  ghost predicate AllLinear(s: Store) {
    forall key: Key :: Linear(s, key)
  }

  /** Written versions stay; all that may change in one is that it ends. */
  ghost predicate Extends(s: Store, s': Store) {
    && |s.versions| <= |s'.versions|
    && forall i | 0 <= i < |s.versions| ::
         s'.versions[i] == s.versions[i].(ended := s'.versions[i].ended)
         && (s.versions[i].ended ==> s'.versions[i].ended)
  }

  lemma {:induction false} HistoryIgnoresEnded(versions: seq<Version>, versions': seq<Version>, key: Key)
    requires |versions| == |versions'|
    requires forall i | 0 <= i < |versions| :: versions[i].factKey == versions'[i].factKey
    ensures History(versions, key) == History(versions', key)
  {
    if versions != [] {
      var n := |versions| - 1;
      HistoryIgnoresEnded(versions[..n], versions'[..n], key);
    }
  }

  lemma AppendHistory(s: Store, key: Key, prior: Record, v: Version, isPublic: bool, other: Key)
    requires v.factKey == key
    ensures var s' := Append(s, key, prior, v, isPublic);
            History(s'.versions, other) == History(s.versions, other) + (if other == key then [|s.versions|] else [])
  {
    var s' := Append(s, key, prior, v, isPublic);
    var ended := s'.versions[..|s.versions|];
    HistoryIgnoresEnded(s.versions, ended, other);
  }

  lemma AppendedRows(s: Store, key: Key, prior: Record, v: Version, isPublic: bool, i: nat)
    requires i < |s.versions|
    ensures Append(s, key, prior, v, isPublic).versions[i] ==
            if prior.version == Some(i) then s.versions[i].(ended := true) else s.versions[i]
  {
  }

  lemma AppendKeepsOtherLinear(s: Store, key: Key, prior: Record, v: Version, isPublic: bool, other: Key)
    requires Linear(s, other) && v.factKey == key && other != key
    requires prior.version.Some? ==> prior.version.value < |s.versions| && s.versions[prior.version.value].factKey == key
    ensures Linear(Append(s, key, prior, v, isPublic), other)
  {
    AppendHistory(s, key, prior, v, isPublic, other);
    var s', ids := Append(s, key, prior, v, isPublic), History(s.versions, other);
    assert History(s'.versions, other) == ids;
    if other in s.records {
      forall i: nat | i < |ids| ensures Link(s'.versions, ids, i) {
        AppendedRows(s, key, prior, v, isPublic, ids[i]);
        assert Link(s.versions, ids, i);
      }
      AppendedRows(s, key, prior, v, isPublic, ids[|ids| - 1]);
    }
  }

  lemma AppendKeepsOwnLinear(s: Store, key: Key, prior: Record, v: Version, isPublic: bool)
    requires Linear(s, key) && v.factKey == key && !v.ended
    requires if key in s.records then prior == s.records[key] else prior.version == None && prior.revision == 0
    requires v.previous == prior.version && v.revision == prior.revision + 1
    ensures Linear(Append(s, key, prior, v, isPublic), key)
  {
    AppendHistory(s, key, prior, v, isPublic, key);
    OwnLinks(s, key, prior, v, isPublic, History(s.versions, key));
  }

  /** The new version links to the chain, whose last row it ends. */
  lemma OwnLinks(s: Store, key: Key, prior: Record, v: Version, isPublic: bool, ids: seq<nat>)
    requires forall i: nat {:trigger Link(s.versions, ids, i)} | i < |ids| :: Link(s.versions, ids, i)
    requires forall i | 0 <= i < |ids| - 1 :: ids[i] < ids[|ids| - 1]
    requires prior.version == (if ids == [] then None else Some(ids[|ids| - 1])) && prior.revision == |ids|
    requires v.previous == prior.version && v.revision == prior.revision + 1 && !v.ended
    ensures var versions, ids' := Append(s, key, prior, v, isPublic).versions, ids + [|s.versions|];
            forall i: nat {:trigger Link(versions, ids', i)} | i < |ids'| :: Link(versions, ids', i)
  {
    var versions, ids' := Append(s, key, prior, v, isPublic).versions, ids + [|s.versions|];
    if ids != [] {
      assert Link(s.versions, ids, |ids| - 1);
    }
    forall i: nat | i < |ids'| ensures Link(versions, ids', i) {
      if i < |ids| {
        assert Link(s.versions, ids, i);
        LinkExtends(s, key, prior, v, isPublic, ids, i);
      }
    }
  }

  /** The row that was last is the one that ends, and gains a successor. */
  lemma LinkExtends(s: Store, key: Key, prior: Record, v: Version, isPublic: bool, ids: seq<nat>, i: nat)
    requires i < |ids| && Link(s.versions, ids, i) && prior.version == Some(ids[|ids| - 1])
    requires i < |ids| - 1 ==> ids[i] < ids[|ids| - 1]
    ensures Link(Append(s, key, prior, v, isPublic).versions, ids + [|s.versions|], i)
  {
    AppendedRows(s, key, prior, v, isPublic, ids[i]);
  }

  lemma AppendKeepsLinear(s: Store, key: Key, prior: Record, v: Version, isPublic: bool)
    requires AllLinear(s) && v.factKey == key && !v.ended
    requires if key in s.records then prior == s.records[key] else prior.version == None && prior.revision == 0
    requires v.previous == prior.version && v.revision == prior.revision + 1
    ensures AllLinear(Append(s, key, prior, v, isPublic))
    ensures Extends(s, Append(s, key, prior, v, isPublic))
  {
    assert Linear(s, key);
    forall other ensures Linear(Append(s, key, prior, v, isPublic), other) {
      assert Linear(s, other);
      if other == key {
        AppendKeepsOwnLinear(s, key, prior, v, isPublic);
      } else {
        AppendKeepsOtherLinear(s, key, prior, v, isPublic, other);
      }
    }
  }

  lemma ReviewKeepsLinear(s: Store, key: Key, sourceCase: nat)
    requires AllLinear(s)
    ensures AllLinear(MarkUnderReview(s, key, sourceCase))
    ensures Extends(s, MarkUnderReview(s, key, sourceCase))
    ensures key in s.records ==> MarkUnderReview(s, key, sourceCase).records[key].status == UnderReview
  {
    var s' := MarkUnderReview(s, key, sourceCase);
    if key in s.records && s.records[key].status != UnderReview {
      AppendKeepsLinear(s, key, s.records[key], s'.versions[|s.versions|], false);
    }
  }

  lemma VerdictKeepsLinear(s: Store, key: Key, verdict: Verdict, sourceCase: nat)
    requires AllLinear(s) && Expected(s, key, verdict)
    ensures AllLinear(RecordVerdict(s, key, verdict, sourceCase))
    ensures Extends(s, RecordVerdict(s, key, verdict, sourceCase))
  {
    var s' := RecordVerdict(s, key, verdict, sourceCase);
    var prior := if key in s.records then s.records[key] else Record(verdict.status, verdict.isPublic, 0, None);
    AppendKeepsLinear(s, key, prior, s'.versions[|s.versions|], verdict.isPublic);
  }
}
