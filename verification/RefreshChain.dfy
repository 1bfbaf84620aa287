/** Refresh sessions: each rotation uses one session up and links it to its replacement in
    the same family. A token is as good as its session's id, which is its position; a
    family is named by its first session. */
module RefreshChain {
  import opened Options

  datatype Subject = Device(id: nat) | Account(id: nat)

  datatype Session = Session(
    subject: Subject,
    family: nat,
    issuedVersion: nat,
    expires: int,
    used: bool,
    revoked: bool,
    replacedBy: Option<nat>)

  /** The installation is forgotten when a revoked device signs in again. */
  datatype DeviceRow = DeviceRow(installation: Option<nat>, version: nat, revoked: bool)

  datatype Db = Db(sessions: seq<Session>, devices: seq<DeviceRow>, accounts: map<nat, bool>)

  function Issue(db: Db, subject: Subject, family: Option<nat>, version: nat, expires: int): Db {
    var s := Session(subject, family.GetOr(|db.sessions|), version, expires, false, false, None);
    db.(sessions := db.sessions + [s])
  }

  function FindDevice(devices: seq<DeviceRow>, installation: nat): (r: Option<nat>)
    ensures r.Some? ==> r.value < |devices| && devices[r.value].installation == Some(installation)
    ensures r.None? ==> forall d | 0 <= d < |devices| :: devices[d].installation != Some(installation)
  {
    if devices == [] then None
    else
      var n := |devices| - 1;
      if devices[n].installation == Some(installation) then Some(n) else FindDevice(devices[..n], installation)
  }

  /** A device that was revoked is not found again: a new one takes its installation. */
  function Enrol(db: Db, installation: nat): (Db, nat) {
    var found := FindDevice(db.devices, installation);
    if found.Some? && !db.devices[found.value].revoked then (db, found.value)
    else
      var devices :=
        if found.Some? then db.devices[found.value := db.devices[found.value].(installation := None)] else db.devices;
      (db.(devices := devices + [DeviceRow(Some(installation), 1, false)]), |db.devices|)
  }

  /** `incidentOpen`: the session's incident is still active. */
  predicate MayRotate(db: Db, t: nat, device: bool, incidentOpen: bool, now: int) {
    && t < |db.sessions|
    && var s := db.sessions[t];
       && s.subject.Device? == device
       && !s.used && !s.revoked && now < s.expires
       && (match s.subject
           case Device(d) => d < |db.devices| && !db.devices[d].revoked && db.devices[d].version == s.issuedVersion && incidentOpen
           case Account(a) => a in db.accounts && db.accounts[a])
  }

  function VersionOf(db: Db, subject: Subject): nat {
    match subject
    case Device(d) => if d < |db.devices| then db.devices[d].version else 1
    case Account(_) => 1
  }

  function Rotate(db: Db, t: nat, expires: int): Db
    requires t < |db.sessions|
  {
    var s := db.sessions[t];
    var db1 := Issue(db.(sessions := db.sessions[t := s.(used := true)]), s.subject, Some(s.family), VersionOf(db, s.subject), expires);
    db1.(sessions := db1.sessions[t := db1.sessions[t].(replacedBy := Some(|db.sessions|))])
  }

  function RevokeSessions(sessions: seq<Session>, d: nat): (r: seq<Session>)
    ensures |r| == |sessions|
    ensures forall t {:trigger r[t]} | 0 <= t < |sessions| ::
              r[t] == if sessions[t].subject == Device(d) then sessions[t].(revoked := true) else sessions[t]
  {
    if sessions == [] then []
    else
      var n := |sessions| - 1;
      RevokeSessions(sessions[..n], d) +
      [if sessions[n].subject == Device(d) then sessions[n].(revoked := true) else sessions[n]]
  }

  datatype Op =
    | SignIn(installation: nat, expires: int)
    | LogIn(account: nat, expires: int)
    | Refresh(t: nat, device: bool, incidentOpen: bool, now: int, expires: int)
    | LogOut(t: nat)
    | RevokeDevice(t: nat)
    | SetAccount(account: nat, active: bool)

  /** A refused request changes nothing. */
  function Apply(db: Db, op: Op): Db {
    match op
    case SignIn(installation, expires) =>
      var (db1, d) := Enrol(db, installation);
      Issue(db1, Device(d), None, VersionOf(db1, Device(d)), expires)
    case LogIn(a, expires) =>
      if a in db.accounts && db.accounts[a] then Issue(db, Account(a), None, 1, expires) else db
    case Refresh(t, device, incidentOpen, now, expires) =>
      if MayRotate(db, t, device, incidentOpen, now) then Rotate(db, t, expires) else db
    case LogOut(t) =>
      if t < |db.sessions| then db.(sessions := db.sessions[t := db.sessions[t].(revoked := true)]) else db
    case RevokeDevice(t) =>
      if t < |db.sessions| && db.sessions[t].subject.Device? && db.sessions[t].subject.id < |db.devices| then
        var d := db.sessions[t].subject.id;
        db.(devices := db.devices[d := db.devices[d].(version := db.devices[d].version + 1, revoked := true)],
            sessions := RevokeSessions(db.sessions, d))
      else db
    case SetAccount(a, active) => db.(accounts := db.accounts[a := active])
  }

  function Run(db: Db, ops: seq<Op>): Db
    decreases |ops|
  {
    if ops == [] then db else Run(Apply(db, ops[0]), ops[1..])
  }

  const EMPTY := Db([], [], map[])

  // ---------------------------------------------------------------- one chain per family

  /** The sessions of a family, oldest first. */
  function Members(sessions: seq<Session>, family: nat): (r: seq<nat>)
    ensures forall t: nat {:trigger t in r} :: t in r <==> t < |sessions| && sessions[t].family == family
    ensures forall i | 0 <= i < |r| :: r[i] < |sessions| && sessions[r[i]].family == family
    ensures forall i, j | 0 <= i < j < |r| :: r[i] < r[j]
  {
    if sessions == [] then []
    else
      var n := |sessions| - 1;
      var before := Members(sessions[..n], family);
      assert forall i | 0 <= i < |before| :: before[i] in before;
      if sessions[n].family == family then before + [n] else before
  }

  /** The i-th session: used and replaced by the next, or the last and never used. */
  predicate Link(sessions: seq<Session>, ids: seq<nat>, i: nat) {
    && i < |ids| && ids[i] < |sessions| && ids[0] < |sessions|
    && sessions[ids[i]].subject == sessions[ids[0]].subject
    && (sessions[ids[i]].used <==> i < |ids| - 1)
    && sessions[ids[i]].replacedBy == (if i < |ids| - 1 then Some(ids[i + 1]) else None)
  }

  ghost predicate ChainOk(sessions: seq<Session>, family: nat) {
    var ids := Members(sessions, family);
    ids != [] ==> ids[0] == family && forall i: nat {:trigger Link(sessions, ids, i)} | i < |ids| :: Link(sessions, ids, i)
  }

  ghost predicate AllChains(sessions: seq<Session>) {
    forall family: nat :: ChainOk(sessions, family)
  }

  predicate SameButRevoked(s: Session, s': Session) {
    s' == s.(revoked := s'.revoked)
  }

  lemma {:induction false} SameMembers(sessions: seq<Session>, sessions': seq<Session>, family: nat)
    requires |sessions| == |sessions'|
    requires forall t | 0 <= t < |sessions| :: sessions'[t].family == sessions[t].family
    ensures Members(sessions', family) == Members(sessions, family)
  {
    if sessions != [] {
      var n := |sessions| - 1;
      SameMembers(sessions[..n], sessions'[..n], family);
    }
  }

  lemma RevokingKeepsChains(sessions: seq<Session>, sessions': seq<Session>)
    requires AllChains(sessions) && |sessions| == |sessions'|
    requires forall t | 0 <= t < |sessions| :: SameButRevoked(sessions[t], sessions'[t])
    ensures AllChains(sessions')
  {
    forall family: nat ensures ChainOk(sessions', family) {
      assert ChainOk(sessions, family);
      SameMembers(sessions, sessions', family);
      var ids := Members(sessions, family);
      forall i: nat | i < |ids| ensures Link(sessions', ids, i) {
        assert Link(sessions, ids, i);
        assert SameButRevoked(sessions[ids[i]], sessions'[ids[i]]) && SameButRevoked(sessions[ids[0]], sessions'[ids[0]]);
      }
    }
  }

  lemma NewFamilyKeepsChains(db: Db, subject: Subject, version: nat, expires: int)
    requires AllChains(db.sessions)
    ensures AllChains(Issue(db, subject, None, version, expires).sessions)
  {
    var s := Session(subject, |db.sessions|, version, expires, false, false, None);
    forall family: nat ensures ChainOk(db.sessions + [s], family) {
      AppendedChain(db.sessions, s, family);
    }
  }

  lemma AppendedChain(sessions: seq<Session>, s: Session, family: nat)
    requires ChainOk(sessions, family) && s.family == |sessions| && !s.used && s.replacedBy.None?
    ensures ChainOk(sessions + [s], family)
  {
    AppendedMembers(sessions, s, family);
    if family == |sessions| {
      NewChain(sessions, s, [|sessions|]);
    } else {
      AppendedLinks(sessions, s, Members(sessions, family));
    }
  }

  lemma NewChain(sessions: seq<Session>, s: Session, ids: seq<nat>)
    requires ids == [|sessions|] && !s.used && s.replacedBy.None?
    ensures forall i: nat {:trigger Link(sessions + [s], ids, i)} | i < |ids| :: Link(sessions + [s], ids, i)
  {
  }

  /** A first session starts a family of its own. */
  lemma AppendedMembers(sessions: seq<Session>, s: Session, family: nat)
    requires ChainOk(sessions, family) && s.family == |sessions|
    ensures Members(sessions + [s], family) == if family == |sessions| then [|sessions|] else Members(sessions, family)
  {
    assert (sessions + [s])[..|sessions|] == sessions;
    if family == |sessions| {
      assert Members(sessions, family) == [];
    }
  }

  lemma AppendedLinks(sessions: seq<Session>, s: Session, ids: seq<nat>)
    requires forall i: nat {:trigger Link(sessions, ids, i)} | i < |ids| :: Link(sessions, ids, i)
    ensures forall i: nat {:trigger Link(sessions + [s], ids, i)} | i < |ids| :: Link(sessions + [s], ids, i)
  {
    forall i: nat | i < |ids| ensures Link(sessions + [s], ids, i) {
      assert Link(sessions, ids, i);
    }
  }

  /** Only the last session of its family can be rotated. */
  lemma UnusedIsLast(sessions: seq<Session>, family: nat, t: nat)
    requires ChainOk(sessions, family)
    requires t < |sessions| && sessions[t].family == family && !sessions[t].used
    ensures var ids := Members(sessions, family); ids != [] && ids[|ids| - 1] == t
  {
    assert t in Members(sessions, family);
    UnusedInChain(sessions, Members(sessions, family), t);
  }

  lemma UnusedInChain(sessions: seq<Session>, ids: seq<nat>, t: nat)
    requires t < |sessions| && t in ids && !sessions[t].used
    requires forall i: nat {:trigger Link(sessions, ids, i)} | i < |ids| :: Link(sessions, ids, i)
    ensures ids != [] && ids[|ids| - 1] == t
  {
    var i :| 0 <= i < |ids| && ids[i] == t;
    assert Link(sessions, ids, i);
  }

  lemma RotatedMembers(db: Db, t: nat, expires: int, family: nat)
    requires t < |db.sessions|
    ensures Members(Rotate(db, t, expires).sessions, family)
            == Members(db.sessions, family) + (if db.sessions[t].family == family then [|db.sessions|] else [])
  {
    var sessions, n := Rotate(db, t, expires).sessions, |db.sessions|;
    SameMembers(db.sessions, sessions[..n], family);
  }

  lemma RotateKeepsOther(db: Db, t: nat, expires: int, family: nat)
    requires t < |db.sessions| && ChainOk(db.sessions, family) && db.sessions[t].family != family
    ensures ChainOk(Rotate(db, t, expires).sessions, family)
  {
    var sessions, ids := Rotate(db, t, expires).sessions, Members(db.sessions, family);
    RotatedMembers(db, t, expires, family);
    assert Members(sessions, family) == ids;
    forall i: nat | i < |ids| ensures Link(sessions, ids, i) {
      assert Link(db.sessions, ids, i);
    }
  }

  lemma RotateKeepsOwn(db: Db, t: nat, expires: int)
    requires t < |db.sessions| && ChainOk(db.sessions, db.sessions[t].family) && !db.sessions[t].used
    ensures ChainOk(Rotate(db, t, expires).sessions, db.sessions[t].family)
  {
    var family, n := db.sessions[t].family, |db.sessions|;
    var sessions, ids := Rotate(db, t, expires).sessions, Members(db.sessions, family);
    UnusedIsLast(db.sessions, family, t);
    RotatedMembers(db, t, expires, family);
    var ids' := ids + [n];
    assert Link(db.sessions, ids, |ids| - 1);
    assert Link(sessions, ids', |ids|);
    forall i: nat | i < |ids| ensures Link(sessions, ids', i) {
      assert Link(db.sessions, ids, i);
    }
  }

  lemma RotateKeepsChains(db: Db, t: nat, expires: int)
    requires AllChains(db.sessions) && t < |db.sessions| && !db.sessions[t].used
    ensures AllChains(Rotate(db, t, expires).sessions)
  {
    forall family: nat ensures ChainOk(Rotate(db, t, expires).sessions, family) {
      assert ChainOk(db.sessions, family);
      if db.sessions[t].family == family {
        RotateKeepsOwn(db, t, expires);
      } else {
        RotateKeepsOther(db, t, expires, family);
      }
    }
  }

  lemma StepKeepsChains(db: Db, op: Op)
    requires AllChains(db.sessions)
    ensures AllChains(Apply(db, op).sessions)
  {
    match op
    case SignIn(installation, expires) =>
      var (db1, d) := Enrol(db, installation);
      NewFamilyKeepsChains(db1, Device(d), VersionOf(db1, Device(d)), expires);
    case LogIn(a, expires) => if a in db.accounts && db.accounts[a] { NewFamilyKeepsChains(db, Account(a), 1, expires); }
    case Refresh(t, device, incidentOpen, now, expires) =>
      if MayRotate(db, t, device, incidentOpen, now) { RotateKeepsChains(db, t, expires); }
    case LogOut(t) =>
      forall k | 0 <= k < |db.sessions| ensures SameButRevoked(db.sessions[k], Apply(db, op).sessions[k]) {
      }
      RevokingKeepsChains(db.sessions, Apply(db, op).sessions);
    case RevokeDevice(t) =>
      forall k | 0 <= k < |db.sessions| ensures SameButRevoked(db.sessions[k], Apply(db, op).sessions[k]) {
        assert Apply(db, op).sessions[k] in {db.sessions[k], db.sessions[k].(revoked := true)};
      }
      RevokingKeepsChains(db.sessions, Apply(db, op).sessions);
    case SetAccount(_, _) =>
  }

  lemma {:induction false} RunKeepsChains(db: Db, ops: seq<Op>)
    requires AllChains(db.sessions)
    ensures AllChains(Run(db, ops).sessions)
    decreases |ops|
  {
    if ops != [] {
      StepKeepsChains(db, ops[0]);
      RunKeepsChains(Apply(db, ops[0]), ops[1..]);
    }
  }

  /** The sessions met by following `replacedBy` from `t`. */
  function Follow(sessions: seq<Session>, t: nat, fuel: nat): seq<nat>
    decreases fuel
  {
    if fuel == 0 || t >= |sessions| then []
    else if sessions[t].replacedBy.None? then [t]
    else [t] + Follow(sessions, sessions[t].replacedBy.value, fuel - 1)
  }

  lemma {:induction false} FollowVisitsRest(sessions: seq<Session>, ids: seq<nat>, i: nat, fuel: nat)
    requires i < |ids| && |ids| - i <= fuel
    requires forall k: nat {:trigger Link(sessions, ids, k)} | k < |ids| :: Link(sessions, ids, k)
    ensures Follow(sessions, ids[i], fuel) == ids[i..]
    decreases fuel
  {
    assert Link(sessions, ids, i);
    if i < |ids| - 1 {
      FollowVisitsRest(sessions, ids, i + 1, fuel - 1);
    }
  }

  lemma {:induction false} MembersBound(sessions: seq<Session>, family: nat)
    ensures |Members(sessions, family)| <= |sessions|
  {
    if sessions != [] {
      MembersBound(sessions[..|sessions| - 1], family);
    }
  }

  /** Following the replacements from a family's first session visits each of its sessions
      once and ends at the only one that was never used. */
  ghost predicate OneChain(sessions: seq<Session>, family: nat) {
    var ids := Members(sessions, family);
    && ids != [] && ids[0] == family
    && Follow(sessions, family, |sessions|) == ids
    && !sessions[ids[|ids| - 1]].used
    && (forall u | 0 <= u < |sessions| && sessions[u].family == family && !sessions[u].used :: u == ids[|ids| - 1])
  }

  lemma ChainIsOne(sessions: seq<Session>, t: nat)
    requires t < |sessions| && ChainOk(sessions, sessions[t].family)
    ensures OneChain(sessions, sessions[t].family)
  {
    var family := sessions[t].family;
    var ids := Members(sessions, family);
    assert t in ids;
    MembersBound(sessions, family);
    FollowVisitsRest(sessions, ids, 0, |sessions|);
    assert ids[0..] == ids;
    assert Link(sessions, ids, |ids| - 1);
    forall u | 0 <= u < |sessions| && sessions[u].family == family && !sessions[u].used ensures u == ids[|ids| - 1] {
      UnusedIsLast(sessions, family, u);
    }
  }

  /** In every run every family is one chain. */
  lemma RotationIsOneChain(ops: seq<Op>, t: nat)
    requires t < |Run(EMPTY, ops).sessions|
    ensures OneChain(Run(EMPTY, ops).sessions, Run(EMPTY, ops).sessions[t].family)
  {
    assert AllChains(EMPTY.sessions);
    RunKeepsChains(EMPTY, ops);
    ChainIsOne(Run(EMPTY, ops).sessions, t);
  }

  // ---------------------------------------------------------------- revoked devices

  function SessionsOf(sessions: seq<Session>, d: nat): set<nat> {
    set t | 0 <= t < |sessions| && sessions[t].subject == Device(d)
  }

  predicate IsRevoked(db: Db, d: nat) {
    d < |db.devices| && db.devices[d].revoked
  }

  lemma RevokedStep(db: Db, op: Op, d: nat)
    requires IsRevoked(db, d)
    ensures IsRevoked(Apply(db, op), d)
    ensures SessionsOf(Apply(db, op).sessions, d) == SessionsOf(db.sessions, d)
  {
    var sessions, sessions' := db.sessions, Apply(db, op).sessions;
    assert |sessions| <= |sessions'| <= |sessions| + 1;
    forall t: nat | t < |sessions| ensures sessions'[t].subject == sessions[t].subject {
      if op.RevokeDevice? {
        assert sessions'[t] in {sessions[t], sessions[t].(revoked := true)};
      }
    }
  }

  // ---------------------------------------------------------------- signing in and revoking

  /** Signing in gives a session that can be refreshed at once, of a device that is not
      revoked and has the installation; the sessions there were stay as they are. */
  lemma SignInWorks(db: Db, installation: nat, expires: int, now: int, later: int)
    requires now < expires
    ensures var r, n := Apply(db, SignIn(installation, expires)), |db.sessions|;
            && |r.sessions| == n + 1 && r.sessions[..n] == db.sessions
            && r.sessions[n].subject.Device? && r.sessions[n].family == n && r.sessions[n].subject.id < |r.devices|
            && r.devices[r.sessions[n].subject.id].installation == Some(installation)
            && Apply(r, Refresh(n, true, true, now, later)).sessions != r.sessions
  {
    var r, n := Apply(db, SignIn(installation, expires)), |db.sessions|;
    RefreshedIff(r, n, true, true, now, later);
  }

  /** Revoking by any session of the device ends the device and all its sessions, and nobody
      else's; the tokens issued before carry an earlier version. */
  lemma RevokeEndsDevice(db: Db, t: nat, u: nat, now: int, expires: int)
    requires t < |db.sessions| && u < |db.sessions|
    requires db.sessions[t].subject.Device? && db.sessions[t].subject.id < |db.devices|
    ensures var d, r := db.sessions[t].subject.id, Apply(db, RevokeDevice(t));
            && |r.devices| == |db.devices| && r.devices[d] == DeviceRow(db.devices[d].installation, db.devices[d].version + 1, true)
            && (forall e | 0 <= e < |db.devices| && e != d :: r.devices[e] == db.devices[e])
            && r.accounts == db.accounts && |r.sessions| == |db.sessions|
            && r.sessions[u] == db.sessions[u].(revoked := db.sessions[u].revoked || db.sessions[u].subject == Device(d))
            && (db.sessions[u].subject == Device(d) ==> Apply(r, Refresh(u, true, true, now, expires)).sessions == r.sessions)
  {
  }

  // ---------------------------------------------------------------- logging out

  /** A token is exchanged for a new pair exactly when it was never used, logged out or
      revoked, has time left, is of the endpoint's kind, and its subject still stands: the
      device as it was when the token was issued, in an active incident, or an active
      account. The old session is then used, and the new one continues its family. */
  lemma RefreshedIff(db: Db, t: nat, device: bool, incidentOpen: bool, now: int, expires: int)
    ensures var r := Apply(db, Refresh(t, device, incidentOpen, now, expires));
            && r.devices == db.devices && r.accounts == db.accounts
            && (r.sessions != db.sessions <==>
                  && t < |db.sessions|
                  && !db.sessions[t].used && !db.sessions[t].revoked && now < db.sessions[t].expires
                  && (device ==> && db.sessions[t].subject.Device? && db.sessions[t].subject.id < |db.devices|
                                 && !db.devices[db.sessions[t].subject.id].revoked
                                 && db.devices[db.sessions[t].subject.id].version == db.sessions[t].issuedVersion
                                 && incidentOpen)
                  && (!device ==> && db.sessions[t].subject.Account? && db.sessions[t].subject.id in db.accounts
                                  && db.accounts[db.sessions[t].subject.id]))
            && (r.sessions != db.sessions ==>
                  && |r.sessions| == |db.sessions| + 1
                  && r.sessions[t] == db.sessions[t].(used := true, replacedBy := Some(|db.sessions|))
                  && (forall u | 0 <= u < |db.sessions| && u != t :: r.sessions[u] == db.sessions[u])
                  && var n := r.sessions[|db.sessions|];
                     n.subject == db.sessions[t].subject && n.family == db.sessions[t].family
                     && !n.used && !n.revoked && n.expires == expires && n.replacedBy.None?)
  {
    var r := Apply(db, Refresh(t, device, incidentOpen, now, expires));
    if MayRotate(db, t, device, incidentOpen, now) {
      assert |r.sessions| == |db.sessions| + 1;
    }
  }

  /** The session is logged out or revoked, and was never used. */
  predicate Ended(db: Db, t: nat) {
    t < |db.sessions| && db.sessions[t].revoked && !db.sessions[t].used
  }

  lemma EndedStep(db: Db, op: Op, t: nat)
    requires AllChains(db.sessions) && Ended(db, t)
    ensures Ended(Apply(db, op), t)
    ensures |db.sessions| <= |Apply(db, op).sessions| && Apply(db, op).sessions[t].family == db.sessions[t].family
    ensures Members(Apply(db, op).sessions, db.sessions[t].family) == Members(db.sessions, db.sessions[t].family)
  {
    var r, family := Apply(db, op), db.sessions[t].family;
    StepFamilies(db, op);
    EndedStays(db, op, t);
    if |r.sessions| > |db.sessions| {
      NewElsewhere(db, op, t);
    }
    GrownMembers(db.sessions, r.sessions, family);
  }

  lemma EndedStays(db: Db, op: Op, t: nat)
    requires Ended(db, t)
    ensures Ended(Apply(db, op), t)
  {
    if op.RevokeDevice? {
      assert t < |Apply(db, op).sessions| && Apply(db, op).sessions[t] in {db.sessions[t], db.sessions[t].(revoked := true)};
    }
  }

  /** A session that a step adds is of another family. */
  lemma NewElsewhere(db: Db, op: Op, t: nat)
    requires AllChains(db.sessions) && Ended(db, t) && |Apply(db, op).sessions| > |db.sessions|
    ensures Apply(db, op).sessions[|db.sessions|].family != db.sessions[t].family
  {
    var family := db.sessions[t].family;
    assert ChainOk(db.sessions, family);
    FamilyStarts(db, t);
    if op.Refresh? && db.sessions[op.t].family == family {
      UnusedIsLast(db.sessions, family, op.t);
      UnusedIsLast(db.sessions, family, t);
    }
  }

  lemma GrownMembers(sessions: seq<Session>, sessions': seq<Session>, family: nat)
    requires |sessions| <= |sessions'| <= |sessions| + 1
    requires forall t | 0 <= t < |sessions| :: sessions'[t].family == sessions[t].family
    requires |sessions'| > |sessions| ==> sessions'[|sessions|].family != family
    ensures Members(sessions', family) == Members(sessions, family)
  {
    SameMembers(sessions, sessions'[..|sessions|], family);
    assert |sessions'| == |sessions| ==> sessions'[..|sessions|] == sessions';
  }

  /** No step changes the family of a session, and it adds at most one. */
  lemma StepFamilies(db: Db, op: Op)
    ensures |db.sessions| <= |Apply(db, op).sessions| <= |db.sessions| + 1
    ensures forall t | 0 <= t < |db.sessions| ::
              Apply(db, op).sessions[t].family == db.sessions[t].family
              && (db.sessions[t].revoked ==> Apply(db, op).sessions[t].revoked)
  {
    var r := Apply(db, op);
    forall t | 0 <= t < |db.sessions|
      ensures r.sessions[t].family == db.sessions[t].family && (db.sessions[t].revoked ==> r.sessions[t].revoked)
    {
      if op.RevokeDevice? {
        assert r.sessions[t] in {db.sessions[t], db.sessions[t].(revoked := true)};
      }
    }
  }

  lemma FamilyStarts(db: Db, t: nat)
    requires t < |db.sessions| && ChainOk(db.sessions, db.sessions[t].family)
    ensures db.sessions[t].family < |db.sessions|
  {
    assert t in Members(db.sessions, db.sessions[t].family);
  }

  lemma {:induction false} EndedThroughRun(db: Db, ops: seq<Op>, t: nat)
    requires AllChains(db.sessions) && Ended(db, t)
    ensures Ended(Run(db, ops), t)
    ensures Members(Run(db, ops).sessions, db.sessions[t].family) == Members(db.sessions, db.sessions[t].family)
    decreases |ops|
  {
    if ops != [] {
      EndedStep(db, ops[0], t);
      RunKeepsChains(db, ops[..1]) by {
        assert ops[..1][1..] == [];
      }
      assert Run(db, ops[..1]) == Apply(db, ops[0]) by {
        assert ops[..1][1..] == [];
      }
      EndedThroughRun(Apply(db, ops[0]), ops[1..], t);
    }
  }

  /** Logging out the last session of a family, of a device or of an account, ends the
      family: whatever follows, the session is never exchanged and its family gets no other. */
  lemma LoggedOutStaysOut(first: seq<Op>, t: nat, second: seq<Op>)
    requires t < |Run(EMPTY, first).sessions| && !Run(EMPTY, first).sessions[t].used
    ensures var db := Run(EMPTY, first);
            var r := Run(Apply(db, LogOut(t)), second);
            && t < |r.sessions| && r.sessions[t].revoked && !r.sessions[t].used
            && Members(r.sessions, db.sessions[t].family) == Members(db.sessions, db.sessions[t].family)
  {
    var db := Run(EMPTY, first);
    assert AllChains(EMPTY.sessions);
    RunKeepsChains(EMPTY, first);
    RunKeepsChains(db, [LogOut(t)]);
    assert Run(db, [LogOut(t)]) == Apply(db, LogOut(t)) by {
      assert [LogOut(t)][1..] == [];
    }
    SameMembers(db.sessions, Apply(db, LogOut(t)).sessions, db.sessions[t].family);
    EndedThroughRun(Apply(db, LogOut(t)), second, t);
  }

  /** Once a device is revoked it gets no session again, by rotation or by signing in. */
  lemma {:induction false} RevokedStaysOut(db: Db, ops: seq<Op>, d: nat)
    requires IsRevoked(db, d)
    ensures IsRevoked(Run(db, ops), d)
    ensures SessionsOf(Run(db, ops).sessions, d) == SessionsOf(db.sessions, d)
    decreases |ops|
  {
    if ops != [] {
      RevokedStep(db, ops[0], d);
      RevokedStaysOut(Apply(db, ops[0]), ops[1..], d);
    }
  }

  // ---------------------------------------------------------------- the handlers

  class AuthTables {
    var sessions: seq<Session>
    var devices: seq<DeviceRow>
    var accounts: map<nat, bool>

    ghost function View(): Db
      reads this
    {
      Db(sessions, devices, accounts)
    }

    constructor ()
      ensures View() == EMPTY
    {
      sessions, devices, accounts := [], [], map[];
    }

    method IssuePair(subject: Subject, family: Option<nat>, version: nat, expires: int) returns (t: nat)
      modifies this`sessions
      ensures View() == Issue(old(View()), subject, family, version, expires) && t == |old(sessions)|
    {
      t := |sessions|;
      sessions := sessions + [Session(subject, family.GetOr(t), version, expires, false, false, None)];
    }

    method RotateRefresh(t: nat, device: bool, incidentOpen: bool, now: int, expires: int) returns (issued: Option<nat>)
      modifies this`sessions
      ensures View() == Apply(old(View()), Refresh(t, device, incidentOpen, now, expires))
      ensures issued.Some? <==> MayRotate(old(View()), t, device, incidentOpen, now)
      ensures issued.Some? ==> issued.value == |old(sessions)|
    {
      if t >= |sessions| || sessions[t].subject.Device? != device {
        return None;
      }
      var refresh := sessions[t];
      if refresh.used {
        return None;
      }
      if refresh.revoked || refresh.expires <= now {
        return None;
      }
      var version := 1;
      match refresh.subject {
        case Device(d) =>
          if d >= |devices| || devices[d].revoked || devices[d].version != refresh.issuedVersion || !incidentOpen {
            return None;
          }
          version := devices[d].version;
        case Account(a) =>
          if a !in accounts || !accounts[a] {
            return None;
          }
      }
      sessions := sessions[t := sessions[t].(used := true)];
      var replacement := IssuePair(refresh.subject, Some(refresh.family), version, expires);
      sessions := sessions[t := sessions[t].(replacedBy := Some(replacement))];
      return Some(replacement);
    }

    method RevokeAnonymous(t: nat)
      modifies this`sessions, this`devices
      ensures View() == Apply(old(View()), RevokeDevice(t))
    {
      if t >= |sessions| || !sessions[t].subject.Device? || sessions[t].subject.id >= |devices| {
        return;
      }
      var d := sessions[t].subject.id;
      devices := devices[d := devices[d].(version := devices[d].version + 1, revoked := true)];
      RevokeAll(d);
    }

    method RevokeAll(d: nat)
      modifies this`sessions
      ensures sessions == RevokeSessions(old(sessions), d)
    {
      ghost var prior, target := sessions, RevokeSessions(sessions, d);
      var k := 0;
      while k < |sessions|
        invariant k <= |sessions| == |prior|
        invariant |target| == |sessions|
        invariant forall j {:trigger sessions[j]} | 0 <= j < |sessions| ::
                    sessions[j] == if j < k then target[j] else prior[j]
      {
        assert sessions[k] == prior[k];
        assert target[k] == if prior[k].subject == Device(d) then prior[k].(revoked := true) else prior[k];
        if sessions[k].subject == Device(d) && !sessions[k].revoked {
          sessions := sessions[k := sessions[k].(revoked := true)];
        }
        k := k + 1;
      }
    }
  }
}
