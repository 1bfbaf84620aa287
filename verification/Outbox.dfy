/** Publishing the outbox: unpublished rows in order, at most 100, stopping at the first
    one that fails. A row's id is its position. */
module Outbox {

  datatype Row = Row(incident: nat, sequence: nat, published: bool, attempts: nat)

  const BATCH_LIMIT := 100

  predicate Earlier(a: Row, b: Row) {
    a.incident < b.incident || (a.incident == b.incident && a.sequence < b.sequence)
  }

  /** The first `n` unpublished rows by (incident, sequence), or all there are. */
  ghost predicate IsFirst(rows: seq<Row>, batch: seq<nat>, n: nat) {
    && |batch| <= n
    && (forall k | 0 <= k < |batch| :: batch[k] < |rows| && !rows[batch[k]].published)
    && (forall k, l | 0 <= k < l < |batch| :: Earlier(rows[batch[k]], rows[batch[l]]))
    && (forall i | 0 <= i < |rows| && !rows[i].published && i !in batch ::
          |batch| == n && forall k | 0 <= k < |batch| :: Earlier(rows[batch[k]], rows[i]))
  }

  ghost predicate IsBatch(rows: seq<Row>, batch: seq<nat>) {
    IsFirst(rows, batch, BATCH_LIMIT)
  }

  /** How many handler calls succeed before the first that fails. */
  function Successes(ok: seq<bool>): (n: nat)
    ensures n <= |ok| && (forall k | 0 <= k < n :: ok[k]) && (n < |ok| ==> !ok[n])
  {
    if ok == [] || !ok[0] then 0 else 1 + Successes(ok[1..])
  }

  /** The rows before the failure are published, the one that failed only counts an attempt. */
  predicate After(rows: seq<Row>, batch: seq<nat>, n: nat, failed: bool, i: nat, row: Row)
    requires i < |rows| && n <= |batch|
  {
    row == if i in batch[..n] then rows[i].(published := true, attempts := rows[i].attempts + 1)
           else if failed && n < |batch| && batch[n] == i then rows[i].(attempts := rows[i].attempts + 1)
           else rows[i]
  }

  ghost predicate Published(rows: seq<Row>, batch: seq<nat>, n: nat, failed: bool, rows': seq<Row>)
    requires n <= |batch|
  {
    && |rows'| == |rows|
    && forall i | 0 <= i < |rows| :: After(rows, batch, n, failed, i, rows'[i])
  }

  /** In every incident the published rows are the earliest. */
  ghost predicate InOrder(rows: seq<Row>) {
    forall i, j | 0 <= i < |rows| && 0 <= j < |rows|
      && rows[i].incident == rows[j].incident && rows[i].sequence < rows[j].sequence && rows[j].published :: rows[i].published
  }

  lemma PublishingKeepsOrder(rows: seq<Row>, batch: seq<nat>, n: nat, failed: bool, rows': seq<Row>)
    requires InOrder(rows) && IsBatch(rows, batch) && n <= |batch| && Published(rows, batch, n, failed, rows')
    ensures InOrder(rows')
  {
    forall i, j | 0 <= i < |rows'| && 0 <= j < |rows'| && rows'[i].incident == rows'[j].incident
      && rows'[i].sequence < rows'[j].sequence && rows'[j].published
      ensures rows'[i].published
    {
      assert After(rows, batch, n, failed, i, rows'[i]) && After(rows, batch, n, failed, j, rows'[j]);
      if !rows[i].published {
        BeforeIsTaken(rows, batch, n, i, j);
      }
    }
  }

  /** An unpublished row before one that is being published is being published too. */
  lemma BeforeIsTaken(rows: seq<Row>, batch: seq<nat>, n: nat, i: nat, j: nat)
    requires InOrder(rows) && IsBatch(rows, batch) && n <= |batch| && i < |rows| && j < |rows|
    requires !rows[i].published && rows[i].incident == rows[j].incident && rows[i].sequence < rows[j].sequence
    requires rows[j].published || j in batch[..n]
    ensures i in batch[..n]
  {
    assert !rows[j].published;
    var l :| 0 <= l < n && batch[l] == j;
    assert i in batch;
    var k :| 0 <= k < |batch| && batch[k] == i;
    assert k < l;
    assert batch[..n][k] == i;
  }

  lemma AddedComesLater(rows: seq<Row>, added: seq<Row>, i: int, j: int)
    requires forall i, k | 0 <= i < |rows| && 0 <= k < |added| && rows[i].incident == added[k].incident ::
               rows[i].sequence < added[k].sequence
    requires 0 <= j < |rows| <= i < |rows| + |added| && (rows + added)[i].incident == rows[j].incident
    ensures rows[j].sequence < (rows + added)[i].sequence
  {
    assert (rows + added)[i] == added[i - |rows|];
  }

  /** A commit adds rows after every committed row of its incident. */
  lemma CommitKeepsOrder(rows: seq<Row>, added: seq<Row>)
    requires InOrder(rows) && AddsLater(rows, added)
    ensures InOrder(rows + added)
  {
    var rows' := rows + added;
    forall i, j | 0 <= i < |rows'| && 0 <= j < |rows'| && rows'[i].incident == rows'[j].incident
      && rows'[i].sequence < rows'[j].sequence && rows'[j].published
      ensures rows'[i].published
    {
      assert j < |rows|;
      if i >= |rows| {
        AddedComesLater(rows, added, i, j);
      }
    }
  }

  // ---------------------------------------------------------------- a batch while rows are added

  /** `pending` are the rows the publisher has read and not reached yet. */
  datatype State = State(rows: seq<Row>, pending: seq<nat>)

  /** Commits come at any time. A crash, or a failed row, ends the batch; a row whose handler
      ran and whose mark was lost stays unpublished. */
  datatype Op = Commit(added: seq<Row>) | ReadBatch(batch: seq<nat>) | PublishNext(ok: bool) | Crash

  predicate AddsLater(rows: seq<Row>, added: seq<Row>) {
    && (forall k | 0 <= k < |added| :: !added[k].published)
    && (forall i, k | 0 <= i < |rows| && 0 <= k < |added| && rows[i].incident == added[k].incident ::
          rows[i].sequence < added[k].sequence)
  }

  ghost predicate Enabled(s: State, op: Op) {
    match op
    case Commit(added) => AddsLater(s.rows, added)
    case ReadBatch(batch) => s.pending == [] && IsBatch(s.rows, batch)
    case PublishNext(_) => s.pending != [] && s.pending[0] < |s.rows|
    case Crash => true
  }

  function Apply(s: State, op: Op): State
    requires op.PublishNext? ==> s.pending != [] && s.pending[0] < |s.rows|
  {
    match op
    case Commit(added) => s.(rows := s.rows + added)
    case ReadBatch(batch) => s.(pending := batch)
    case PublishNext(ok) =>
      var row := s.rows[s.pending[0]].(attempts := s.rows[s.pending[0]].attempts + 1);
      if ok then State(s.rows[s.pending[0] := row.(published := true)], s.pending[1..])
      else State(s.rows[s.pending[0] := row], [])
    case Crash => s.(pending := [])
  }

  ghost predicate Run(s: State, ops: seq<Op>, last: State)
    decreases |ops|
  {
    if ops == [] then last == s else Enabled(s, ops[0]) && Run(Apply(s, ops[0]), ops[1..], last)
  }

  /** What is left of a batch: unpublished rows in order, and of their incidents every other
      unpublished row is later. */
  ghost predicate Pending(rows: seq<Row>, pending: seq<nat>) {
    && (forall k | 0 <= k < |pending| :: pending[k] < |rows| && !rows[pending[k]].published)
    && (forall k, l | 0 <= k < l < |pending| :: Earlier(rows[pending[k]], rows[pending[l]]))
    && (forall k, i | 0 <= k < |pending| && 0 <= i < |rows| && !rows[i].published && i !in pending
          && rows[i].incident == rows[pending[k]].incident :: rows[pending[k]].sequence < rows[i].sequence)
  }

  lemma CommitKeepsPending(rows: seq<Row>, added: seq<Row>, pending: seq<nat>)
    requires Pending(rows, pending) && AddsLater(rows, added)
    ensures Pending(rows + added, pending)
  {
    var rows' := rows + added;
    forall k, i | 0 <= k < |pending| && 0 <= i < |rows'| && !rows'[i].published && i !in pending
      && rows'[i].incident == rows'[pending[k]].incident
      ensures rows'[pending[k]].sequence < rows'[i].sequence
    {
      if i >= |rows| {
        AddedComesLater(rows, added, i, pending[k]);
      }
    }
  }

  lemma ReadIsPending(rows: seq<Row>, batch: seq<nat>)
    requires IsBatch(rows, batch)
    ensures Pending(rows, batch)
  {
  }

  lemma PublishKeeps(rows: seq<Row>, pending: seq<nat>, row: Row)
    requires InOrder(rows) && Pending(rows, pending) && pending != []
    requires row.incident == rows[pending[0]].incident && row.sequence == rows[pending[0]].sequence
    requires row.published
    ensures InOrder(rows[pending[0] := row]) && Pending(rows[pending[0] := row], pending[1..])
  {
    var id, rest, rows' := pending[0], pending[1..], rows[pending[0] := row];
    forall k | 0 <= k < |rest| ensures rest[k] == pending[k + 1] && rest[k] != id && Earlier(rows[id], rows[rest[k]]) {
    }
    forall i, j | 0 <= i < |rows'| && 0 <= j < |rows'| && rows'[i].incident == rows'[j].incident
      && rows'[i].sequence < rows'[j].sequence && rows'[j].published
      ensures rows'[i].published
    {
    }
  }

  ghost predicate Inv(s: State) {
    InOrder(s.rows) && Pending(s.rows, s.pending)
  }

  lemma StepKeepsInv(s: State, op: Op)
    requires Inv(s) && Enabled(s, op)
    ensures Inv(Apply(s, op))
  {
    match op
    case Commit(added) =>
      CommitKeepsOrder(s.rows, added);
      CommitKeepsPending(s.rows, added, s.pending);
    case ReadBatch(batch) => ReadIsPending(s.rows, batch);
    case PublishNext(ok) =>
      var row := s.rows[s.pending[0]].(attempts := s.rows[s.pending[0]].attempts + 1);
      if ok {
        PublishKeeps(s.rows, s.pending, row.(published := true));
      }
    case Crash =>
  }

  /** Whatever fails or crashes, with the limit and the break, and whatever is committed
      between the read of a batch and its last row, each incident is published in order. */
  lemma {:induction false} PublishedInOrder(s: State, ops: seq<Op>, last: State)
    requires Inv(s) && Run(s, ops, last)
    ensures InOrder(last.rows)
    decreases |ops|
  {
    if ops != [] {
      StepKeepsInv(s, ops[0]);
      PublishedInOrder(Apply(s, ops[0]), ops[1..], last);
    }
  }

  // ---------------------------------------------------------------- the loop takes these steps

  /** The loop over a batch, up to the first failure. */
  function BatchOps(ok: seq<bool>): seq<Op> {
    if ok == [] then [] else if !ok[0] then [PublishNext(false)] else [PublishNext(true)] + BatchOps(ok[1..])
  }

  lemma RunBegins(s: State, op: Op, rest: seq<Op>, last: State)
    requires Enabled(s, op) && Run(Apply(s, op), rest, last)
    ensures Run(s, [op] + rest, last)
  {
    assert ([op] + rest)[1..] == rest;
  }

  lemma NothingPublished(rows: seq<Row>, batch: seq<nat>, rows': seq<Row>)
    requires Published(rows, batch, 0, true, rows') && batch == []
    ensures rows' == rows
  {
    forall i | 0 <= i < |rows| ensures rows'[i] == rows[i] {
      assert After(rows, batch, 0, true, i, rows'[i]);
    }
  }

  lemma FirstFailed(rows: seq<Row>, batch: seq<nat>, rows': seq<Row>)
    requires Published(rows, batch, 0, true, rows') && batch != [] && batch[0] < |rows|
    ensures rows' == rows[batch[0] := rows[batch[0]].(attempts := rows[batch[0]].attempts + 1)]
  {
    forall i | 0 <= i < |rows|
      ensures rows'[i] == if i == batch[0] then rows[i].(attempts := rows[i].attempts + 1) else rows[i]
    {
      assert After(rows, batch, 0, true, i, rows'[i]);
    }
  }

  /** The rest of the loop publishes the rest of the batch. */
  lemma FirstPublished(rows: seq<Row>, batch: seq<nat>, n: nat, rows': seq<Row>)
    requires 0 < n <= |batch| && batch[0] < |rows| && batch[0] !in batch[1..] && Published(rows, batch, n, true, rows')
    ensures var row := rows[batch[0]].(attempts := rows[batch[0]].attempts + 1, published := true);
            Published(rows[batch[0] := row], batch[1..], n - 1, true, rows')
  {
    var id, rest := batch[0], batch[1..];
    var rows1 := rows[id := rows[id].(attempts := rows[id].attempts + 1, published := true)];
    assert batch[..n] == [id] + rest[..n - 1];
    assert n < |batch| ==> batch[n] == rest[n - 1] && rest[n - 1] in rest;
    forall i | 0 <= i < |rows1| ensures After(rows1, rest, n - 1, true, i, rows'[i]) {
      assert After(rows, batch, n, true, i, rows'[i]);
      assert i in rest[..n - 1] ==> i in rest;
    }
  }

  ghost predicate AllApart(batch: seq<nat>) {
    forall k, l | 0 <= k < l < |batch| :: batch[k] != batch[l]
  }

  /** What the loop makes of the table is what a run of single publications makes of it. */
  lemma {:induction false} LoopIsRun(rows: seq<Row>, batch: seq<nat>, ok: seq<bool>, rows': seq<Row>)
    requires |ok| == |batch| && AllApart(batch) && forall k | 0 <= k < |batch| :: batch[k] < |rows|
    requires Published(rows, batch, Successes(ok), true, rows')
    ensures Run(State(rows, batch), BatchOps(ok), State(rows', []))
    decreases |ok|
  {
    var s := State(rows, batch);
    if ok == [] {
      NothingPublished(rows, batch, rows');
    } else if !ok[0] {
      FirstFailed(rows, batch, rows');
      RunBegins(s, PublishNext(false), [], State(rows', []));
      assert [PublishNext(false)] + [] == BatchOps(ok);
    } else {
      FirstPublished(rows, batch, Successes(ok), rows');
      var s1 := Apply(s, PublishNext(true));
      assert forall k | 0 <= k < |batch[1..]| :: batch[1..][k] == batch[k + 1];
      LoopIsRun(s1.rows, batch[1..], ok[1..], rows');
      RunBegins(s, PublishNext(true), BatchOps(ok[1..]), State(rows', []));
    }
  }

  // ---------------------------------------------------------------- there is a batch

  /** No two rows have one number in one incident. */
  ghost predicate Numbered(rows: seq<Row>) {
    forall i, j | 0 <= i < j < |rows| :: rows[i].incident != rows[j].incident || rows[i].sequence != rows[j].sequence
  }

  /** The earliest unpublished row that is not in the batch yet. */
  lemma {:induction false} EarliestLeft(rows: seq<Row>, batch: seq<nat>, n: nat) returns (m: nat)
    requires Numbered(rows) && n <= |rows| && exists i :: 0 <= i < n && !rows[i].published && i !in batch
    ensures m < n && !rows[m].published && m !in batch
    ensures forall i | 0 <= i < n && !rows[i].published && i !in batch && i != m :: Earlier(rows[m], rows[i])
  {
    if exists i :: 0 <= i < n - 1 && !rows[i].published && i !in batch {
      m := EarliestLeft(rows, batch, n - 1);
      if !rows[n - 1].published && n - 1 !in batch && Earlier(rows[n - 1], rows[m]) {
        m := n - 1;
      }
    } else {
      m := n - 1;
    }
  }

  lemma {:induction false} FirstExists(rows: seq<Row>, n: nat) returns (batch: seq<nat>)
    requires Numbered(rows)
    ensures IsFirst(rows, batch, n)
  {
    if n == 0 {
      batch := [];
    } else {
      batch := FirstExists(rows, n - 1);
      if exists i :: 0 <= i < |rows| && !rows[i].published && i !in batch {
        var m := EarliestLeft(rows, batch, |rows|);
        batch := batch + [m];
      }
    }
  }

  /** The query for a batch always has an answer. */
  lemma BatchExists(rows: seq<Row>)
    requires Numbered(rows)
    ensures exists batch :: IsBatch(rows, batch)
  {
    var batch := FirstExists(rows, BATCH_LIMIT);
    assert IsBatch(rows, batch);
  }

  // ---------------------------------------------------------------- the worker's loop

  class OutboxTable {
    var rows: seq<Row>

    constructor (rows: seq<Row>)
      ensures this.rows == rows
    {
      this.rows := rows;
    }

    /** `ok` says which handler calls would succeed; those after a failure are never made. */
    method PublishBatch(batch: seq<nat>, ok: seq<bool>) returns (published: nat)
      requires IsBatch(rows, batch) && |ok| == |batch|
      modifies this
      ensures published == Successes(ok) && Published(old(rows), batch, published, true, rows)
      ensures Run(State(old(rows), batch), BatchOps(ok), State(rows, []))
    {
      published := 0;
      ghost var prior := rows;
      BatchDistinct(prior, batch);
      assert batch[..0] == [];
      while published < |batch|
        invariant published <= |batch| && |rows| == |prior|
        invariant forall k | 0 <= k < published :: ok[k]
        invariant Published(prior, batch, published, false, rows)
      {
        var id := batch[published];
        assert id !in batch[..published];
        assert batch[..published + 1] == batch[..published] + [id];
        assert After(prior, batch, published, false, id, rows[id]);
        assert rows[id] == prior[id];
        if !ok[published] {
          rows := rows[id := rows[id].(attempts := rows[id].attempts + 1)];
          SuccessesAre(ok, published);
          assert Published(prior, batch, published, true, rows) by {
            forall i | 0 <= i < |rows| ensures After(prior, batch, published, true, i, rows[i]) {
              assert i != id ==> After(prior, batch, published, false, i, rows[i]);
            }
          }
          LoopIsRun(prior, batch, ok, rows);
          return;
        }
        PublishOne(prior, batch, published, rows);
        rows := rows[id := rows[id].(published := true, attempts := rows[id].attempts + 1)];
        published := published + 1;
      }
      SuccessesAre(ok, published);
      LoopIsRun(prior, batch, ok, rows);
    }
  }

  lemma PublishOne(prior: seq<Row>, batch: seq<nat>, n: nat, rows: seq<Row>)
    requires IsBatch(prior, batch) && n < |batch| && Published(prior, batch, n, false, rows)
    requires batch[n] !in batch[..n]
    ensures Published(prior, batch, n + 1, false,
                      rows[batch[n] := rows[batch[n]].(published := true, attempts := rows[batch[n]].attempts + 1)])
  {
    var id := batch[n];
    var rows' := rows[id := rows[id].(published := true, attempts := rows[id].attempts + 1)];
    assert batch[..n + 1] == batch[..n] + [id];
    forall i | 0 <= i < |prior| ensures After(prior, batch, n + 1, false, i, rows'[i]) {
      assert After(prior, batch, n, false, i, rows[i]);
    }
  }

  lemma BatchDistinct(rows: seq<Row>, batch: seq<nat>)
    requires IsBatch(rows, batch)
    ensures forall n | 0 <= n < |batch| :: batch[n] !in batch[..n]
  {
    forall n | 0 <= n < |batch| ensures batch[n] !in batch[..n] {
      forall k | 0 <= k < n ensures batch[k] != batch[n] {
        assert Earlier(rows[batch[k]], rows[batch[n]]);
      }
    }
  }

  lemma {:induction false} SuccessesAre(ok: seq<bool>, n: nat)
    requires n <= |ok| && (forall k | 0 <= k < n :: ok[k]) && (n < |ok| ==> !ok[n])
    ensures Successes(ok) == n
  {
    if n > 0 {
      SuccessesAre(ok[1..], n - 1);
    }
  }
}
