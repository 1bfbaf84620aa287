/** The sliding-window limiter: per key, the instants (in seconds) of the calls accepted in
    the last minute. */
module RateLimiter {
  import opened Options

  const WINDOW: real := 60.0

  /** Entries at or before the cutoff leave from the front. */
  function Expire(entries: seq<real>, cutoff: real): seq<real> {
    if entries != [] && entries[0] <= cutoff then Expire(entries[1..], cutoff) else entries
  }

  /** The time until an entry leaves the window. */
  function Left(first: real, now: real): real {
    first + WINDOW - now
  }

  /** The seconds told to a refused caller: rounded down, but at least 1. */
  function Wait(left: real): int {
    if left.Floor < 1 then 1 else left.Floor
  }

  /** One call: what remains of the entries, and the wait if it is refused. */
  function Call(entries: seq<real>, limit: nat, now: real): (seq<real>, Option<int>)
    requires limit >= 1
  {
    var kept := Expire(entries, now - WINDOW);
    if |kept| >= limit then (kept, Some(Wait(Left(kept[0], now)))) else (kept + [now], None)
  }

  // ---------------------------------------------------------------- a run of calls

  /** All calls accepted so far; those from `first` on are still held. */
  datatype Log = Log(accepted: seq<real>, first: nat)

  /** The first entry that stays. */
  function Oldest(accepted: seq<real>, first: nat, cutoff: real): (r: nat)
    requires first <= |accepted|
    ensures first <= r <= |accepted|
    ensures forall i | first <= i < r :: accepted[i] <= cutoff
    ensures r < |accepted| ==> accepted[r] > cutoff
    decreases |accepted| - first
  {
    if first < |accepted| && accepted[first] <= cutoff then Oldest(accepted, first + 1, cutoff) else first
  }

  function Entries(log: Log): seq<real>
    requires log.first <= |log.accepted|
  {
    log.accepted[log.first..]
  }

  function Step(log: Log, limit: nat, now: real): Log
    requires log.first <= |log.accepted|
  {
    var first := Oldest(log.accepted, log.first, now - WINDOW);
    Log(if |log.accepted| - first >= limit then log.accepted else log.accepted + [now], first)
  }

  function After(times: seq<real>, limit: nat): (log: Log)
    ensures log.first <= |log.accepted|
  {
    if times == [] then Log([], 0) else Step(After(times[..|times| - 1], limit), limit, times[|times| - 1])
  }

  lemma {:induction false} ExpireIsOldest(accepted: seq<real>, first: nat, cutoff: real)
    requires first <= |accepted|
    ensures Expire(accepted[first..], cutoff) == accepted[Oldest(accepted, first, cutoff)..]
    decreases |accepted| - first
  {
    var entries := accepted[first..];
    if first < |accepted| && accepted[first] <= cutoff {
      assert entries[1..] == accepted[first + 1..];
      ExpireIsOldest(accepted, first + 1, cutoff);
    }
  }

  /** The log is what the limiter's entries come from. */
  lemma CallIsStep(log: Log, limit: nat, now: real)
    requires limit >= 1 && log.first <= |log.accepted|
    ensures Call(Entries(log), limit, now).0 == Entries(Step(log, limit, now))
    ensures Call(Entries(log), limit, now).1.None? <==> |Step(log, limit, now).accepted| > |log.accepted|
  {
    ExpireIsOldest(log.accepted, log.first, now - WINDOW);
    var log' := Step(log, limit, now);
    if |log.accepted| - log'.first < limit {
      assert log'.accepted[log'.first..] == log.accepted[log'.first..] + [now];
    }
  }

  predicate Nondecreasing(s: seq<real>) {
    forall i, j | 0 <= i < j < |s| :: s[i] <= s[j]
  }

  /** The entries held are the accepted calls of the last minute, at most `limit`. */
  predicate LogOk(log: Log, limit: nat, last: real) {
    && log.first <= |log.accepted| <= log.first + limit
    && (forall i | 0 <= i < log.first :: log.accepted[i] <= last - WINDOW)
    && (forall i | 0 <= i < |log.accepted| :: log.accepted[i] <= last)
    && Nondecreasing(log.accepted)
  }

  /** `limit` calls apart, accepted calls are a minute apart. */
  predicate Spread(accepted: seq<real>, limit: nat) {
    forall i, j | 0 <= i < |accepted| && j == i + limit && j < |accepted| :: accepted[i] + WINDOW <= accepted[j]
  }

  lemma StepKeepsLog(log: Log, limit: nat, last: real, now: real)
    requires limit >= 1 && LogOk(log, limit, last) && last <= now
    ensures LogOk(Step(log, limit, now), limit, now)
  {
  }

  lemma StepKeepsSpread(log: Log, limit: nat, last: real, now: real)
    requires limit >= 1 && LogOk(log, limit, last) && last <= now && Spread(log.accepted, limit)
    ensures Spread(Step(log, limit, now).accepted, limit)
  {
    var first := Oldest(log.accepted, log.first, now - WINDOW);
    var n := |log.accepted|;
    if n - first < limit && limit <= n {
      assert log.accepted[n - limit] <= now - WINDOW;
    }
  }

  lemma {:induction false} AfterOk(times: seq<real>, limit: nat)
    requires limit >= 1 && times != [] && Nondecreasing(times)
    ensures LogOk(After(times, limit), limit, times[|times| - 1]) && Spread(After(times, limit).accepted, limit)
  {
    var n := |times| - 1;
    if n > 0 {
      AfterOk(times[..n], limit);
      StepKeepsLog(After(times[..n], limit), limit, times[n - 1], times[n]);
      StepKeepsSpread(After(times[..n], limit), limit, times[n - 1], times[n]);
    } else {
      assert times[..0] == [];
      StepKeepsLog(Log([], 0), limit, times[0], times[0]);
      StepKeepsSpread(Log([], 0), limit, times[0], times[0]);
    }
  }

  /** For nondecreasing call times and any limit: accepted call `i + limit` comes at least a
      minute after accepted call `i`. */
  lemma AcceptedAreSpread(times: seq<real>, limit: nat, i: nat)
    requires limit >= 1 && Nondecreasing(times) && i + limit < |After(times, limit).accepted|
    ensures After(times, limit).accepted[i] + WINDOW <= After(times, limit).accepted[i + limit]
  {
    AfterOk(times, limit);
  }

  /** The next call of a run finds a log that is in order up to its own instant. */
  lemma LogAt(times: seq<real>, limit: nat, now: real)
    requires limit >= 1 && Nondecreasing(times + [now])
    ensures LogOk(After(times, limit), limit, now)
  {
    var all := times + [now];
    if times != [] {
      assert forall i | 0 <= i < |times| :: all[i] == times[i];
      AfterOk(times, limit);
      assert all[|times|] == now && all[|times| - 1] <= all[|times|];
    }
  }

  lemma WaitInRange(left: real)
    requires 0.0 < left <= WINDOW
    ensures 1 <= Wait(left) <= 60
    ensures Wait(left) as real >= left <==> left <= 1.0 || left == left.Floor as real
  {
  }

  lemma RefusedAt(log: Log, limit: nat, now: real)
    requires limit >= 1 && LogOk(log, limit, now)
    ensures var wait := Call(Entries(log), limit, now).1;
            var n := |log.accepted|;
            && (wait.Some? <==> n >= limit && log.accepted[n - limit] > now - WINDOW)
            && (wait.Some? ==> wait == Some(Wait(Left(log.accepted[n - limit], now))))
  {
    ExpireIsOldest(log.accepted, log.first, now - WINDOW);
    var first := Oldest(log.accepted, log.first, now - WINDOW);
    assert |log.accepted| - first >= limit ==> first == |log.accepted| - limit;
  }

  /** A call is refused exactly when the limit-th last accepted call lies within the last
      minute, and the wait it is told is 1 to 60 seconds. */
  lemma RefusedIffFull(times: seq<real>, limit: nat, now: real)
    requires limit >= 1 && Nondecreasing(times + [now])
    ensures var accepted := After(times, limit).accepted;
            var wait := Call(Entries(After(times, limit)), limit, now).1;
            && (wait.Some? <==> |accepted| >= limit && accepted[|accepted| - limit] > now - WINDOW)
            && (wait.Some? ==> 1 <= wait.value <= 60)
  {
    var log := After(times, limit);
    LogAt(times, limit, now);
    RefusedAt(log, limit, now);
    if |log.accepted| >= limit && log.accepted[|log.accepted| - limit] > now - WINDOW {
      WaitInRange(Left(log.accepted[|log.accepted| - limit], now));
    }
  }

  predicate LetInAfterWait(entries: seq<real>, limit: nat, now: real)
    requires limit >= 1 && Call(entries, limit, now).1.Some?
  {
    var (kept, wait) := Call(entries, limit, now);
    Call(kept, limit, now + wait.value as real).1.None?
  }

  /** A caller that waits as told, with no call of the key in between, is let in exactly when
      the time left was at most a second or a whole number of seconds: the wait is rounded
      down, so otherwise it is refused again. */
  lemma WaitSufficesIff(times: seq<real>, limit: nat, now: real)
    requires limit >= 1 && Nondecreasing(times + [now])
    requires Call(Entries(After(times, limit)), limit, now).1.Some?
    ensures |After(times, limit).accepted| >= limit
    ensures var accepted := After(times, limit).accepted;
            var left := Left(accepted[|accepted| - limit], now);
            LetInAfterWait(Entries(After(times, limit)), limit, now) <==> left <= 1.0 || left == left.Floor as real
  {
    LogAt(times, limit, now);
    WaitSufficesAt(After(times, limit), limit, now);
  }

  lemma WaitSufficesAt(log: Log, limit: nat, now: real)
    requires limit >= 1 && LogOk(log, limit, now) && Call(Entries(log), limit, now).1.Some?
    ensures |log.accepted| >= limit
    ensures var left := Left(log.accepted[|log.accepted| - limit], now);
            LetInAfterWait(Entries(log), limit, now) <==> left <= 1.0 || left == left.Floor as real
  {
    RefusedAt(log, limit, now);
    CallIsStep(log, limit, now);
    StepKeepsLog(log, limit, now, now);
    var left := Left(log.accepted[|log.accepted| - limit], now);
    WaitInRange(left);
    LaterCall(log, Step(log, limit, now), limit, now, now + Wait(left) as real);
  }

  /** A later call is let in if the entry that filled the window has left it. */
  lemma LaterCall(log: Log, log': Log, limit: nat, now: real, later: real)
    requires limit >= 1 && LogOk(log', limit, now) && log'.accepted == log.accepted && now <= later
    requires |log.accepted| >= limit
    ensures Call(Entries(log'), limit, later).1.None? <==> later - now >= Left(log.accepted[|log.accepted| - limit], now)
  {
    StepLater(log', limit, now, later);
    RefusedAt(log', limit, later);
  }

  lemma StepLater(log: Log, limit: nat, now: real, later: real)
    requires LogOk(log, limit, now) && now <= later
    ensures LogOk(log, limit, later)
  {
  }

  // ---------------------------------------------------------------- the limiter object

  class Limiter {
    var entries: map<nat, seq<real>>

    constructor ()
      ensures entries == map[]
    {
      entries := map[];
    }

    function Of(key: nat): seq<real>
      reads this
    {
      if key in entries then entries[key] else []
    }

    method Check(key: nat, limit: nat, now: real) returns (wait: Option<int>)
      requires limit >= 1
      modifies this
      ensures (Of(key), wait) == Call(old(Of(key)), limit, now)
      ensures forall other | other != key :: Of(other) == old(Of(other))
    {
      var deque := PopExpired(Of(key), now - WINDOW);
      if |deque| >= limit {
        wait := Some(Wait(Left(deque[0], now)));
      } else {
        deque := deque + [now];
        wait := None;
      }
      entries := entries[key := deque];
    }
  }

  method PopExpired(entries: seq<real>, cutoff: real) returns (deque: seq<real>)
    ensures deque == Expire(entries, cutoff)
  {
    deque := entries;
    while deque != [] && deque[0] <= cutoff
      invariant Expire(deque, cutoff) == Expire(entries, cutoff)
      decreases |deque|
    {
      deque := deque[1..];
    }
  }
}
