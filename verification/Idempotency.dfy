/** Idempotency keys: a request reserves its key, does its work, and then finishes or
    releases the reservation. A row's id is its position; a released row leaves a hole.
    One key stands for an (actor, route, key) triple, a body for a JSON object. */
module Idempotency {
  import opened Options

  type Key = nat

  datatype Row = Row(key: Key, hash: nat, status: nat, body: Option<nat>, expires: int)

  datatype Outcome = Reserved(id: nat) | Replay(status: nat, body: nat) | HashConflict | InProgress

  /** The row of a key. */
  function Find(rows: seq<Option<Row>>, key: Key): (r: Option<nat>)
    ensures r.Some? ==> r.value < |rows| && rows[r.value].Some? && rows[r.value].value.key == key
    ensures r.None? ==> forall i | 0 <= i < |rows| && rows[i].Some? :: rows[i].value.key != key
  {
    if rows == [] then None
    else
      var n := |rows| - 1;
      if rows[n].Some? && rows[n].value.key == key then Some(n) else Find(rows[..n], key)
  }

  /** A live row decides the outcome: an expired one is taken over, keeping its id. */
  function ReserveOrReplay(rows: seq<Option<Row>>, key: Key, hash: nat, now: int, life: nat): (seq<Option<Row>>, Outcome) {
    match Find(rows, key)
    case None => (rows + [Some(Row(key, hash, 0, None, now + life))], Reserved(|rows|))
    case Some(i) =>
      var row := rows[i].value;
      if row.expires <= now then (rows[i := Some(Row(key, hash, 0, None, now + life))], Reserved(i))
      else if row.hash != hash then (rows, HashConflict)
      else if row.body.None? then (rows, InProgress)
      else (rows, Replay(row.status, row.body.value))
  }

  /** A missing row is ignored. */
  function FinishRow(rows: seq<Option<Row>>, id: nat, status: nat, body: nat): seq<Option<Row>> {
    if id < |rows| && rows[id].Some? then rows[id := Some(rows[id].value.(status := status, body := Some(body)))] else rows
  }

  /** Only a row without a response is deleted. */
  function ReleaseRow(rows: seq<Option<Row>>, id: nat): seq<Option<Row>> {
    if id < |rows| && rows[id].Some? && rows[id].value.body.None? then rows[id := None] else rows
  }

  // ---------------------------------------------------------------- the protocol

  /** A request that got the reservation and has not given it back. */
  datatype Holder = Holder(id: nat, key: Key, since: int, expires: int)

  /** A response that was stored. */
  datatype Execution = Execution(key: Key, since: int, expires: int)

  datatype State = State(clock: int, rows: seq<Option<Row>>, holders: map<nat, Holder>, log: seq<Execution>)

  const EMPTY := State(0, [], map[], [])

  /** `Lose` is a holder that never finishes or releases: its row stays in progress.
      `Transact` reserves and finishes inside one business transaction; a response of None
      is one that was rolled back. */
  datatype Op =
    | Reserve(request: nat, key: Key, hash: nat, now: int, life: nat)
    | Finish(request: nat, status: nat, body: nat)
    | Release(request: nat)
    | Lose(request: nat)
    | Transact(key: Key, hash: nat, now: int, life: nat, response: Option<(nat, nat)>)

  predicate Enabled(s: State, op: Op) {
    match op
    case Reserve(request, _, _, now, _) => s.clock <= now && request !in s.holders
    case Finish(request, _, _) => request in s.holders
    case Release(request) => request in s.holders
    case Lose(request) => request in s.holders
    case Transact(_, _, now, _, _) => s.clock <= now
  }

  /** The outcome a request sees. */
  function OutcomeOf(s: State, key: Key, hash: nat, now: int, life: nat): Outcome {
    ReserveOrReplay(s.rows, key, hash, now, life).1
  }

  function Apply(s: State, op: Op): State
    requires Enabled(s, op)
  {
    match op
    case Reserve(request, key, hash, now, life) =>
      var (rows, outcome) := ReserveOrReplay(s.rows, key, hash, now, life);
      var holders := if outcome.Reserved? then s.holders[request := Holder(outcome.id, key, now, now + life)] else s.holders;
      State(now, rows, holders, s.log)
    case Finish(request, status, body) =>
      var h := s.holders[request];
      State(s.clock, FinishRow(s.rows, h.id, status, body), s.holders - {request}, s.log + [Execution(h.key, h.since, h.expires)])
    case Release(request) =>
      s.(rows := ReleaseRow(s.rows, s.holders[request].id), holders := s.holders - {request})
    case Lose(request) => s.(holders := s.holders - {request})
    case Transact(key, hash, now, life, response) =>
      var (rows, outcome) := ReserveOrReplay(s.rows, key, hash, now, life);
      if outcome.Reserved? && response.Some? then
        State(now, FinishRow(rows, outcome.id, response.value.0, response.value.1), s.holders,
              s.log + [Execution(key, now, now + life)])
      else s.(clock := now)
  }

  /** The key's row, if any, is held by a request although its time is up. */
  predicate Overstayed(s: State, key: Key, now: int) {
    var i := Find(s.rows, key);
    && i.Some? && s.rows[i.value].value.expires <= now
    && exists request | request in s.holders :: s.holders[request].id == i.value
  }

  /** What the protocol takes for granted: nobody holds a reservation past its expiry. */
  predicate OnTime(s: State, op: Op) {
    match op
    case Reserve(_, key, _, now, _) => !Overstayed(s, key, now)
    case Transact(key, _, now, _, _) => !Overstayed(s, key, now)
    case _ => true
  }

  ghost predicate Run(s: State, ops: seq<Op>, last: State)
    decreases |ops|
  {
    if ops == [] then last == s
    else Enabled(s, ops[0]) && OnTime(s, ops[0]) && Run(Apply(s, ops[0]), ops[1..], last)
  }

  // ---------------------------------------------------------------- invariants

  ghost predicate KeysUnique(rows: seq<Option<Row>>) {
    forall i, j | 0 <= i < j < |rows| && rows[i].Some? && rows[j].Some? :: rows[i].value.key != rows[j].value.key
  }

  /** A holder's row is there, in progress, with the holder's key and expiry. */
  predicate HolderOk(s: State, request: nat) {
    && request in s.holders
    && var h := s.holders[request];
       && h.id < |s.rows| && s.rows[h.id].Some?
       && s.rows[h.id].value.key == h.key && s.rows[h.id].value.body.None? && s.rows[h.id].value.expires == h.expires
       && h.since <= s.clock
  }

  ghost predicate OneHolder(s: State) {
    forall a, b | a in s.holders && b in s.holders && a != b :: s.holders[a].id != s.holders[b].id
  }

  /** The row that keeps execution `e`'s response. */
  predicate Keeps(rows: seq<Option<Row>>, e: Execution) {
    var i := Find(rows, e.key);
    i.Some? && rows[i.value].value.body.Some? && rows[i.value].value.expires == e.expires
  }

  /** A stored response is there until it expires. */
  predicate Remembered(s: State, e: Execution) {
    e.expires <= s.clock || Keeps(s.rows, e)
  }

  /** A holder started after every earlier execution of its key had expired. */
  predicate After(s: State, request: nat, i: nat)
    requires request in s.holders && i < |s.log|
  {
    s.log[i].key == s.holders[request].key ==> s.log[i].expires <= s.holders[request].since
  }

  ghost predicate Spaced(log: seq<Execution>) {
    forall i, j | 0 <= i < j < |log| && log[i].key == log[j].key :: log[i].expires <= log[j].since
  }

  ghost predicate Inv(s: State) {
    && KeysUnique(s.rows)
    && (forall request | request in s.holders :: HolderOk(s, request))
    && OneHolder(s)
    && (forall i | 0 <= i < |s.log| :: Remembered(s, s.log[i]))
    && (forall request, i: nat | request in s.holders && i < |s.log| :: After(s, request, i))
    && Spaced(s.log)
  }

  lemma FindUnique(rows: seq<Option<Row>>, i: nat)
    requires KeysUnique(rows) && i < |rows| && rows[i].Some?
    ensures Find(rows, rows[i].value.key) == Some(i)
  {
  }

  // ---------------------------------------------------------------- each step

  /** Taking a reservation, by a new row or an expired one. */
  lemma ReservedRows(s: State, key: Key, hash: nat, now: int, life: nat)
    requires KeysUnique(s.rows)
    ensures var (rows, outcome) := ReserveOrReplay(s.rows, key, hash, now, life);
            && KeysUnique(rows)
            && (!outcome.Reserved? ==> rows == s.rows)
            && (outcome.Reserved? ==>
                  && outcome.id < |rows| && rows[outcome.id] == Some(Row(key, hash, 0, None, now + life))
                  && |s.rows| <= |rows|
                  && (forall i | 0 <= i < |s.rows| && i != outcome.id :: rows[i] == s.rows[i])
                  && (outcome.id < |s.rows| ==> Find(s.rows, key) == Some(outcome.id)
                                                && s.rows[outcome.id].value.expires <= now)
                  && (outcome.id >= |s.rows| ==> Find(s.rows, key) == None))
  {
  }

  lemma KeepsElsewhere(rows: seq<Option<Row>>, rows': seq<Option<Row>>, id: nat, e: Execution)
    requires KeysUnique(rows) && KeysUnique(rows') && |rows| <= |rows'|
    requires forall i | 0 <= i < |rows| && i != id :: rows'[i] == rows[i]
    requires Keeps(rows, e) && Find(rows, e.key) != Some(id)
    ensures Keeps(rows', e)
  {
    var i := Find(rows, e.key).value;
    FindUnique(rows', i);
  }

  /** A reservation that is not taken from a holder leaves every holder in place. */
  lemma TakenKeepsHolders(s: State, key: Key, hash: nat, now: int, life: nat)
    requires Inv(s) && s.clock <= now && !Overstayed(s, key, now)
    ensures var (rows, outcome) := ReserveOrReplay(s.rows, key, hash, now, life);
            forall request | request in s.holders ::
              HolderOk(s.(clock := now, rows := rows), request)
              && (outcome.Reserved? ==> s.holders[request].id != outcome.id)
  {
    ReservedRows(s, key, hash, now, life);
    var (rows, outcome) := ReserveOrReplay(s.rows, key, hash, now, life);
    forall request | request in s.holders
      ensures HolderOk(s.(clock := now, rows := rows), request)
      ensures outcome.Reserved? ==> s.holders[request].id != outcome.id
    {
      assert HolderOk(s, request);
    }
  }

  lemma TakenKeepsMemory(s: State, key: Key, hash: nat, now: int, life: nat, i: nat)
    requires Inv(s) && s.clock <= now && i < |s.log|
    ensures var (rows, outcome) := ReserveOrReplay(s.rows, key, hash, now, life);
            && Remembered(s.(clock := now, rows := rows), s.log[i])
            && (outcome.Reserved? && s.log[i].key == key ==> s.log[i].expires <= now)
  {
    ReservedRows(s, key, hash, now, life);
    var (rows, outcome) := ReserveOrReplay(s.rows, key, hash, now, life);
    assert Remembered(s, s.log[i]);
    if outcome.Reserved? && now < s.log[i].expires {
      KeepsElsewhere(s.rows, rows, outcome.id, s.log[i]);
    }
  }

  lemma ReserveKeepsInv(s: State, op: Op)
    requires Inv(s) && op.Reserve? && Enabled(s, op) && OnTime(s, op)
    ensures Inv(Apply(s, op))
  {
    var s' := Apply(s, op);
    ReservedRows(s, op.key, op.hash, op.now, op.life);
    TakenKeepsHolders(s, op.key, op.hash, op.now, op.life);
    forall i | 0 <= i < |s'.log| ensures Remembered(s', s'.log[i]) {
      TakenKeepsMemory(s, op.key, op.hash, op.now, op.life, i);
      assert Remembered(s.(clock := op.now, rows := s'.rows), s.log[i]);
    }
    forall request | request in s'.holders ensures HolderOk(s', request) {
      if request in s.holders {
        assert HolderOk(s.(clock := op.now, rows := s'.rows), request);
      }
    }
    forall request, i: nat | request in s'.holders && i < |s'.log| ensures After(s', request, i) {
      TakenKeepsMemory(s, op.key, op.hash, op.now, op.life, i);
      assert request in s.holders ==> After(s, request, i);
    }
  }

  lemma FinishedRows(rows: seq<Option<Row>>, id: nat, status: nat, body: nat)
    requires KeysUnique(rows) && id < |rows| && rows[id].Some?
    ensures KeysUnique(FinishRow(rows, id, status, body))
    ensures Find(FinishRow(rows, id, status, body), rows[id].value.key) == Some(id)
  {
    FindUnique(FinishRow(rows, id, status, body), id);
  }

  lemma FinishKeepsInv(s: State, op: Op)
    requires Inv(s) && op.Finish? && Enabled(s, op)
    ensures Inv(Apply(s, op))
  {
    var s', h, n := Apply(s, op), s.holders[op.request], |s.log|;
    assert HolderOk(s, op.request);
    FinishedRows(s.rows, h.id, op.status, op.body);
    forall i | 0 <= i < |s'.log| ensures Remembered(s', s'.log[i]) {
      if i < n {
        assert Remembered(s, s.log[i]) && After(s, op.request, i);
        if s.clock < s.log[i].expires {
          KeepsElsewhere(s.rows, s'.rows, h.id, s.log[i]);
        }
      }
    }
    forall request | request in s'.holders ensures HolderOk(s', request) {
      assert HolderOk(s, request);
    }
    forall request, i: nat | request in s'.holders && i < |s'.log| ensures After(s', request, i) {
      assert HolderOk(s, request);
      assert i < n ==> After(s, request, i);
    }
    forall i | 0 <= i < n && s.log[i].key == h.key ensures s.log[i].expires <= h.since {
      assert After(s, op.request, i);
    }
  }

  lemma ReleaseKeepsInv(s: State, op: Op)
    requires Inv(s) && (op.Release? || op.Lose?) && Enabled(s, op)
    ensures Inv(Apply(s, op))
  {
    var s', h := Apply(s, op), s.holders[op.request];
    assert HolderOk(s, op.request);
    forall i | 0 <= i < |s'.log| ensures Remembered(s', s'.log[i]) {
      assert Remembered(s, s.log[i]);
      if s.clock < s.log[i].expires && op.Release? {
        KeepsElsewhere(s.rows, s'.rows, h.id, s.log[i]);
      }
    }
    forall request | request in s'.holders ensures HolderOk(s', request) {
      assert HolderOk(s, request);
    }
    forall request, i: nat | request in s'.holders && i < |s'.log| ensures After(s', request, i) {
      assert After(s, request, i);
    }
  }

  lemma TransactKeepsHolders(s: State, op: Op, s': State, request: nat)
    requires Inv(s) && op.Transact? && Enabled(s, op) && OnTime(s, op) && s' == Apply(s, op) && request in s.holders
    ensures HolderOk(s', request)
    ensures |s'.log| > |s.log| ==> s.holders[request].key != op.key
  {
    ReservedRows(s, op.key, op.hash, op.now, op.life);
    TakenKeepsHolders(s, op.key, op.hash, op.now, op.life);
    var (rows, outcome) := ReserveOrReplay(s.rows, op.key, op.hash, op.now, op.life);
    assert HolderOk(s.(clock := op.now, rows := rows), request);
    assert HolderOk(s, request);
  }

  lemma TransactKeepsMemory(s: State, op: Op, s': State, i: nat)
    requires Inv(s) && op.Transact? && Enabled(s, op) && OnTime(s, op) && s' == Apply(s, op) && i < |s.log|
    ensures Remembered(s', s.log[i])
    ensures |s'.log| > |s.log| && s.log[i].key == op.key ==> s.log[i].expires <= op.now
  {
    ReservedRows(s, op.key, op.hash, op.now, op.life);
    TakenKeepsMemory(s, op.key, op.hash, op.now, op.life, i);
    assert Remembered(s, s.log[i]);
    var (rows, outcome) := ReserveOrReplay(s.rows, op.key, op.hash, op.now, op.life);
    if |s'.log| > |s.log| && op.now < s.log[i].expires {
      FinishedRows(rows, outcome.id, op.response.value.0, op.response.value.1);
      FindUnique(rows, outcome.id);
      KeepsElsewhere(rows, s'.rows, outcome.id, s.log[i]);
    }
  }

  lemma TransactKeepsInv(s: State, op: Op)
    requires Inv(s) && op.Transact? && Enabled(s, op) && OnTime(s, op)
    ensures Inv(Apply(s, op))
  {
    var s', n := Apply(s, op), |s.log|;
    ReservedRows(s, op.key, op.hash, op.now, op.life);
    var (rows, outcome) := ReserveOrReplay(s.rows, op.key, op.hash, op.now, op.life);
    if |s'.log| > n {
      FinishedRows(rows, outcome.id, op.response.value.0, op.response.value.1);
    }
    forall i | 0 <= i < n ensures Remembered(s', s.log[i]) && (|s'.log| > n && s.log[i].key == op.key ==> s.log[i].expires <= op.now) {
      TransactKeepsMemory(s, op, s', i);
    }
    forall request | request in s.holders ensures HolderOk(s', request) && (|s'.log| > n ==> s.holders[request].key != op.key) {
      TransactKeepsHolders(s, op, s', request);
    }
    forall request, i: nat | request in s'.holders && i < |s'.log| ensures After(s', request, i) {
      assert i < n ==> After(s, request, i);
    }
  }

  lemma StepKeepsInv(s: State, op: Op)
    requires Inv(s) && Enabled(s, op) && OnTime(s, op)
    ensures Inv(Apply(s, op))
  {
    match op
    case Reserve(_, _, _, _, _) => ReserveKeepsInv(s, op);
    case Finish(_, _, _) => FinishKeepsInv(s, op);
    case Transact(_, _, _, _, _) => TransactKeepsInv(s, op);
    case _ => ReleaseKeepsInv(s, op);
  }

  // ---------------------------------------------------------------- whole runs

  lemma {:induction false} RunKeepsInv(s: State, ops: seq<Op>, last: State)
    requires Inv(s) && Run(s, ops, last)
    ensures Inv(last)
    decreases |ops|
  {
    if ops != [] {
      StepKeepsInv(s, ops[0]);
      RunKeepsInv(Apply(s, ops[0]), ops[1..], last);
    }
  }

  /** At any time a key has at most one holder, and stored responses of one key lie at
      least a full expiry apart: until then no request does the work again. */
  lemma AtMostOnce(ops: seq<Op>, s: State)
    requires Run(EMPTY, ops, s)
    ensures forall a, b | a in s.holders && b in s.holders && s.holders[a].key == s.holders[b].key :: a == b
    ensures forall i, j | 0 <= i < j < |s.log| && s.log[i].key == s.log[j].key :: s.log[i].expires <= s.log[j].since
  {
    RunKeepsInv(EMPTY, ops, s);
    forall a, b | a in s.holders && b in s.holders && s.holders[a].key == s.holders[b].key ensures a == b {
      assert HolderOk(s, a) && HolderOk(s, b);
    }
  }

  /** Row `id` holds a finished response for `key` until `expires`. */
  predicate Stored(s: State, id: nat, row: Row) {
    id < |s.rows| && s.rows[id] == Some(row) && row.body.Some?
  }

  /** No request arrives for the key at or after its row's expiry. */
  predicate Before(op: Op, row: Row) {
    (op.Reserve? && op.key == row.key ==> op.now < row.expires)
    && (op.Transact? && op.key == row.key ==> op.now < row.expires)
  }

  lemma StoredStays(s: State, op: Op, id: nat, row: Row)
    requires Inv(s) && Enabled(s, op) && OnTime(s, op) && Stored(s, id, row) && Before(op, row)
    ensures Stored(Apply(s, op), id, row)
  {
    FindUnique(s.rows, id);
    if op.Finish? || op.Release? || op.Lose? {
      assert HolderOk(s, op.request);
    }
  }

  lemma {:induction false} StoredThroughRun(s: State, ops: seq<Op>, last: State, id: nat, row: Row)
    requires Inv(s) && Run(s, ops, last) && Stored(s, id, row)
    requires forall k | 0 <= k < |ops| :: Before(ops[k], row)
    ensures Stored(last, id, row)
    decreases |ops|
  {
    if ops != [] {
      assert Before(ops[0], row);
      StepKeepsInv(s, ops[0]);
      StoredStays(s, ops[0], id, row);
      assert forall k | 0 <= k < |ops[1..]| :: Before(ops[1..][k], row) by {
        forall k | 0 <= k < |ops[1..]| ensures Before(ops[1..][k], row) {
          assert ops[1..][k] == ops[k + 1];
        }
      }
      StoredThroughRun(Apply(s, ops[0]), ops[1..], last, id, row);
    }
  }

  /** After a holder finishes, whatever other requests do, every request for the key before
      the expiry gets exactly the stored status and body (or a conflict, if it differs),
      changes no row, and releasing the row does nothing. */
  lemma ReplaysExactly(first: seq<Op>, s: State, op: Op, ops: seq<Op>, last: State, hash: nat, now: int, life: nat)
    requires Run(EMPTY, first, s) && op.Finish? && Enabled(s, op) && Run(Apply(s, op), ops, last)
    requires s.holders[op.request].id < |s.rows| && s.rows[s.holders[op.request].id].Some?
    requires var row := s.rows[s.holders[op.request].id].value;
             && now < row.expires
             && (forall k | 0 <= k < |ops| :: Before(ops[k], row))
    ensures var h, row := s.holders[op.request], s.rows[s.holders[op.request].id].value;
            && OutcomeOf(last, h.key, hash, now, life) == (if hash == row.hash then Replay(op.status, op.body) else HashConflict)
            && ReserveOrReplay(last.rows, h.key, hash, now, life).0 == last.rows
            && ReleaseRow(last.rows, h.id) == last.rows
  {
    RunKeepsInv(EMPTY, first, s);
    var h := s.holders[op.request];
    assert HolderOk(s, op.request);
    FinishKeepsInv(s, op);
    var row := s.rows[h.id].value.(status := op.status, body := Some(op.body));
    assert Stored(Apply(s, op), h.id, row);
    forall k | 0 <= k < |ops| ensures Before(ops[k], row) {
      assert Before(ops[k], s.rows[h.id].value);
    }
    StoredThroughRun(Apply(s, op), ops, last, h.id, row);
    RunKeepsInv(Apply(s, op), ops, last);
    FindUnique(last.rows, h.id);
  }

  /** A holder that gives its reservation back frees the key: the next request for it, of any
      content, gets a reservation at once. A holder that is lost keeps the key in progress
      until the expiry. */
  lemma ReleaseFreesKey(ops: seq<Op>, s: State, request: nat, hash: nat, now: int, life: nat)
    requires Run(EMPTY, ops, s) && request in s.holders
    ensures var h := s.holders[request];
            && Find(Apply(s, Release(request)).rows, h.key).None?
            && OutcomeOf(Apply(s, Release(request)), h.key, hash, now, life).Reserved?
            && (OutcomeOf(Apply(s, Lose(request)), h.key, hash, now, life).Reserved? <==> h.expires <= now)
            && OutcomeOf(Apply(s, Lose(request)), h.key, hash, now, life) in {Reserved(h.id), InProgress, HashConflict}
            && request !in Apply(s, Release(request)).holders
  {
    RunKeepsInv(EMPTY, ops, s);
    var h := s.holders[request];
    assert HolderOk(s, request);
    FindUnique(s.rows, h.id);
  }

  // ---------------------------------------------------------------- the assumption is needed

  /** A reservation leaves one holder per row exactly when it is on time: an expired row is
      taken over under its old id, even from a request still at work. */
  lemma OneHolderIffOnTime(s: State, op: Op)
    requires Inv(s) && op.Reserve? && Enabled(s, op)
    ensures OneHolder(Apply(s, op)) <==> OnTime(s, op)
  {
    if OnTime(s, op) {
      ReserveKeepsInv(s, op);
    } else {
      var i := Find(s.rows, op.key).value;
      var request :| request in s.holders && s.holders[request].id == i;
      var s' := Apply(s, op);
      assert s'.holders[request].id == s'.holders[op.request].id;
    }
  }

  /** Whatever on-time requests follow the step, stored responses of one key lie a full
      expiry apart. */
  ghost predicate SpacedAfter(s: State, op: Op)
    requires Enabled(s, op)
  {
    forall ops, last | Run(Apply(s, op), ops, last) :: Spaced(last.log)
  }

  /** A step that takes a reservation over from a holder, for good: a business transaction
      that is rolled back does not. */
  predicate TakesOver(s: State, op: Op) {
    !OnTime(s, op) && (op.Transact? ==> op.response.Some?)
  }

  /** From a sound state, stored responses of a key stay a full expiry apart whatever
      follows, if and only if the step takes no reservation over from a holder that is still
      at work. */
  lemma SpacedAfterIff(s: State, op: Op)
    requires Inv(s) && Enabled(s, op) && (op.Reserve? || op.Transact? ==> op.life > 0)
    ensures SpacedAfter(s, op) <==> !TakesOver(s, op)
  {
    if OnTime(s, op) {
      StepKeepsInv(s, op);
      SoundStaysSpaced(s, op);
    } else if !TakesOver(s, op) {
      RolledBackKeepsInv(s, op);
      SoundStaysSpaced(s, op);
    } else if op.Reserve? {
      LateReserveUnspaces(s, op);
    } else {
      LateTransactUnspaces(s, op);
    }
  }

  lemma SoundStaysSpaced(s: State, op: Op)
    requires Enabled(s, op) && Inv(Apply(s, op))
    ensures SpacedAfter(s, op)
  {
    forall ops, last | Run(Apply(s, op), ops, last) ensures Spaced(last.log) {
      RunKeepsInv(Apply(s, op), ops, last);
    }
  }

  lemma RolledBackKeepsInv(s: State, op: Op)
    requires Inv(s) && Enabled(s, op) && op.Transact? && op.response.None?
    ensures Inv(Apply(s, op))
  {
    var s' := Apply(s, op);
    forall request | request in s'.holders ensures HolderOk(s', request) {
      assert HolderOk(s, request);
    }
    forall i | 0 <= i < |s'.log| ensures Remembered(s', s'.log[i]) {
      assert Remembered(s, s.log[i]);
    }
    forall request, i: nat | request in s'.holders && i < |s'.log| ensures After(s', request, i) {
      assert After(s, request, i);
    }
  }

  lemma RunBegins(s: State, op: Op, rest: seq<Op>, last: State)
    requires Enabled(s, op) && OnTime(s, op) && Run(Apply(s, op), rest, last)
    ensures Run(s, [op] + rest, last)
  {
    assert ([op] + rest)[1..] == rest;
  }

  /** The new holder finishes, and then the late one. */
  lemma LateReserveUnspaces(s: State, op: Op)
    requires Inv(s) && Enabled(s, op) && op.Reserve? && !OnTime(s, op) && op.life > 0
    ensures !SpacedAfter(s, op)
  {
    var id := Find(s.rows, op.key).value;
    var late :| late in s.holders && s.holders[late].id == id;
    assert HolderOk(s, late);
    var s1 := Apply(s, op);
    var s2 := Apply(s1, Finish(op.request, 200, 0));
    var s3 := Apply(s2, Finish(late, 200, 1));
    RunBegins(s2, Finish(late, 200, 1), [], s3);
    RunBegins(s1, Finish(op.request, 200, 0), [Finish(late, 200, 1)] + [], s3);
    var n := |s.log|;
    assert s3.log[n] == Execution(op.key, op.now, op.now + op.life);
    assert s3.log[n + 1].key == op.key && s3.log[n + 1].since <= op.now;
  }

  lemma LateTransactUnspaces(s: State, op: Op)
    requires Inv(s) && Enabled(s, op) && op.Transact? && !OnTime(s, op) && op.response.Some? && op.life > 0
    ensures !SpacedAfter(s, op)
  {
    var id := Find(s.rows, op.key).value;
    var late :| late in s.holders && s.holders[late].id == id;
    assert HolderOk(s, late);
    var s1 := Apply(s, op);
    var s2 := Apply(s1, Finish(late, 200, 1));
    RunBegins(s1, Finish(late, 200, 1), [], s2);
    var n := |s.log|;
    assert s2.log[n] == Execution(op.key, op.now, op.now + op.life);
    assert s2.log[n + 1].key == op.key && s2.log[n + 1].since <= op.now;
  }

  /** Such a late holder's response answers for the new holder's request. */
  lemma LateHolderAnswersForAnother(hash: nat, other: nat, life: nat, body: nat)
    requires life > 0
    ensures var s1 := Apply(EMPTY, Reserve(0, 7, hash, 0, life));
            var s2 := Apply(s1, Reserve(1, 7, other, life, life));
            var s3 := Apply(s2, Finish(0, 200, body));
            1 in s3.holders && OutcomeOf(s3, 7, other, life, life) == Replay(200, body)
  {
    ReservedFirst(hash, life);
    var s1 := Apply(EMPTY, Reserve(0, 7, hash, 0, life));
    ReservedAgain(s1, hash, other, life);
    var s2 := Apply(s1, Reserve(1, 7, other, life, life));
    assert FinishRow(s2.rows, 0, 200, body) == [Some(Row(7, other, 200, Some(body), life + life))];
  }

  lemma ReservedFirst(hash: nat, life: nat)
    ensures Apply(EMPTY, Reserve(0, 7, hash, 0, life))
            == State(0, [Some(Row(7, hash, 0, None, life))], map[0 := Holder(0, 7, 0, life)], [])
  {
  }

  lemma ReservedAgain(s1: State, hash: nat, other: nat, life: nat)
    requires s1 == State(0, [Some(Row(7, hash, 0, None, life))], map[0 := Holder(0, 7, 0, life)], [])
    ensures Apply(s1, Reserve(1, 7, other, life, life))
            == State(life, [Some(Row(7, other, 0, None, life + life))], s1.holders[1 := Holder(0, 7, life, life + life)], [])
  {
    assert Find(s1.rows, 7) == Some(0);
    assert s1.rows[0 := Some(Row(7, other, 0, None, life + life))] == [Some(Row(7, other, 0, None, life + life))];
  }

  // ---------------------------------------------------------------- the stored table

  class RecordTable {
    var rows: seq<Option<Row>>

    constructor ()
      ensures rows == []
    {
      rows := [];
    }

    method Lookup(key: Key) returns (found: Option<nat>)
      ensures found == Find(rows, key)
    {
      var i := |rows|;
      assert rows[..i] == rows;
      while i > 0
        invariant 0 <= i <= |rows|
        invariant Find(rows, key) == Find(rows[..i], key)
      {
        i := i - 1;
        assert rows[..i + 1][..i] == rows[..i];
        if rows[i].Some? && rows[i].value.key == key {
          return Some(i);
        }
      }
      return None;
    }

    method Reserve(key: Key, hash: nat, now: int, life: nat) returns (outcome: Outcome)
      modifies this
      ensures (rows, outcome) == ReserveOrReplay(old(rows), key, hash, now, life)
    {
      var existing := Lookup(key);
      if existing.Some? {
        var record := rows[existing.value].value;
        if record.expires <= now {
          record := record.(hash := hash, status := 0, body := None, expires := now + life);
          rows := rows[existing.value := Some(record)];
          return Reserved(existing.value);
        }
        if record.hash != hash {
          return HashConflict;
        }
        if record.body.None? {
          return InProgress;
        }
        return Replay(record.status, record.body.value);
      }
      rows := rows + [Some(Row(key, hash, 0, None, now + life))];
      return Reserved(|rows| - 1);
    }

    method Finish(id: nat, status: nat, body: nat)
      modifies this
      ensures rows == FinishRow(old(rows), id, status, body)
    {
      if id >= |rows| || rows[id].None? {
        return;
      }
      var record := rows[id].value;
      record := record.(status := status);
      record := record.(body := Some(body));
      rows := rows[id := Some(record)];
    }

    method Release(id: nat)
      modifies this
      ensures rows == ReleaseRow(old(rows), id)
    {
      if id < |rows| && rows[id].Some? {
        if rows[id].value.body.None? {
          rows := rows[id := None];
        }
      }
    }
  }
}
