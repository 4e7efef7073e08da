/**
 The in-memory sliding-window limiters of the FastAPI tree.  `_rate_limited` keeps a
 deque per address and pops what is too old; `_over_limit` filters a list.  Both keep
 only what they still need, and both decide as if they remembered everything.
 */
module WindowLimiter {
  const RATE_LIMIT_MAX := 5
  const RATE_LIMIT_WINDOW := 600.0
  const CODE_SEND_WINDOW := 900.0

  /** The times younger than the window, in order. */
  function Recent(ts: seq<real>, now: real, window: real): (r: seq<real>)
    ensures |r| <= |ts|
  {
    if ts == [] then []
    else
      var front, last := Recent(ts[..|ts| - 1], now, window), ts[|ts| - 1];
      if now - last < window then front + [last] else front
  }

  /** One attempt on a stored list: refused or not, and what is stored afterwards. */
  function Attempt(stored: seq<real>, now: real, window: real, limit: nat): (bool, seq<real>) {
    var recent := Recent(stored, now, window);
    if |recent| >= limit then (true, recent) else (false, recent + [now])
  }

  predicate Sorted(ts: seq<real>) {
    forall i, j :: 0 <= i < j < |ts| ==> ts[i] <= ts[j]
  }

  /** Of a sorted list the recent times are the tail from the first one young enough. */
  lemma {:induction false} RecentIsTail(ts: seq<real>, now: real, window: real) returns (k: nat)
    requires Sorted(ts)
    ensures SplitsAt(ts, k, now, window) && Recent(ts, now, window) == ts[k..]
  {
    if ts == [] {
      return 0;
    }
    var n := |ts| - 1;
    k := RecentIsTail(ts[..n], now, window);
    SplitOneMore(ts, k, now, window);
    if now - ts[n] < window {
      assert ts[k..] == ts[..n][k..] + [ts[n]];
    } else {
      assert ts[..n][n..] == [] && ts[n + 1..] == [];
      k := n + 1;
    }
  }

  lemma SplitOneMore(ts: seq<real>, k: nat, now: real, window: real)
    requires ts != [] && Sorted(ts) && SplitsAt(ts[..|ts| - 1], k, now, window)
    ensures now - ts[|ts| - 1] < window ==> SplitsAt(ts, k, now, window)
    ensures now - ts[|ts| - 1] >= window ==> k == |ts| - 1 && SplitsAt(ts, |ts|, now, window)
  {
    var n := |ts| - 1;
    var front := ts[..n];
    assert forall i :: 0 <= i < n ==> front[i] == ts[i];
    if k < n {
      assert front[n - 1] <= ts[n] && now - front[n - 1] < window;
    }
  }

  /** Too old before k, young enough from k on. */
  predicate SplitsAt(ts: seq<real>, k: int, now: real, window: real) {
    && 0 <= k <= |ts|
    && (forall i :: 0 <= i < k ==> now - ts[i] >= window)
    && (forall i :: k <= i < |ts| ==> now - ts[i] < window)
  }

  /** The times younger than the window are kept, each as often as it was there, and no other. */
  lemma {:induction false} RecentHoldsExactly(ts: seq<real>, now: real, window: real, t: real)
    ensures multiset(Recent(ts, now, window))[t] == if now - t < window then multiset(ts)[t] else 0
  {
    if ts != [] {
      var n := |ts| - 1;
      RecentHoldsExactly(ts[..n], now, window, t);
      assert ts == ts[..n] + [ts[n]];
      var front := Recent(ts[..n], now, window);
      assert multiset(front + [ts[n]]) == multiset(front) + multiset{ts[n]};
    }
  }

  /** How many of the times are younger than the window. */
  function Younger(ts: seq<real>, now: real, window: real): nat {
    if ts == [] then 0
    else Younger(ts[1..], now, window) + if now - ts[0] < window then 1 else 0
  }

  lemma {:induction false} RecentCounts(ts: seq<real>, now: real, window: real)
    ensures |Recent(ts, now, window)| == Younger(ts, now, window)
  {
    if ts != [] {
      var n := |ts| - 1;
      RecentCounts(ts[..n], now, window);
      YoungerOfAppend(ts[..n], ts[n], now, window);
      assert ts == ts[..n] + [ts[n]];
    }
  }

  lemma RefusesIff(stored: seq<real>, now: real, window: real, limit: nat)
    ensures Attempt(stored, now, window, limit).0 <==> Younger(stored, now, window) >= limit
  {
    RecentCounts(stored, now, window);
  }

  lemma {:induction false} YoungerOfAppend(ts: seq<real>, t: real, now: real, window: real)
    ensures Younger(ts + [t], now, window) == Younger(ts, now, window) + if now - t < window then 1 else 0
  {
    if ts == [] {
      assert ts + [t] == [t] && [t][1..] == [];
    } else {
      YoungerOfAppend(ts[1..], t, now, window);
      assert (ts + [t])[1..] == ts[1..] + [t];
    }
  }

  lemma {:induction false} RecentOfAppend(ts: seq<real>, t: real, now: real, window: real)
    ensures Recent(ts + [t], now, window) == Recent(ts, now, window) + (if now - t < window then [t] else [])
  {
    assert (ts + [t])[..|ts|] == ts;
  }

  /** Forgetting what is already too old never matters later. */
  lemma {:induction false} RecentOfRecent(ts: seq<real>, now: real, later: real, window: real)
    requires now <= later
    ensures Recent(Recent(ts, now, window), later, window) == Recent(ts, later, window)
  {
    if ts != [] {
      var front, last := ts[..|ts| - 1], ts[|ts| - 1];
      RecentOfRecent(front, now, later, window);
      if now - last < window {
        RecentOfAppend(Recent(front, now, window), last, later, window);
      }
    }
  }

  // ---- the program ------------------------------------------------------------

  function Lookup(m: map<string, seq<real>>, key: string): seq<real> {
    if key in m then m[key] else []
  }

  predicate Before(ts: seq<real>, now: real) {
    forall i :: 0 <= i < |ts| ==> ts[i] <= now
  }

  predicate Small(ts: seq<real>, limit: nat, now: real) {
    Sorted(ts) && |ts| <= limit && Before(ts, now)
  }

  lemma AttemptStaysSmall(stored: seq<real>, last: real, now: real, window: real, limit: nat)
    requires Small(stored, limit, last) && last <= now
    ensures Small(Attempt(stored, now, window, limit).1, limit, now)
  {
    var k := RecentIsTail(stored, now, window);
  }

  ghost predicate AllSmall(m: map<string, seq<real>>, limit: nat, now: real) {
    forall key :: key in m ==> Small(m[key], limit, now)
  }

  lemma AttemptsStaySmall(m: map<string, seq<real>>, key: string, last: real, now: real, window: real, limit: nat)
    requires AllSmall(m, limit, last) && last <= now
    ensures Sorted(Lookup(m, key)) && AllSmall(m[key := Attempt(Lookup(m, key), now, window, limit).1], limit, now)
  {
    AttemptStaysSmall(Lookup(m, key), last, now, window, limit);
  }

  class FeedbackLimiter {
    var recentByIp: map<string, seq<real>>
    var clock: real

    ghost predicate Valid()
      reads this
    {
      AllSmall(recentByIp, RATE_LIMIT_MAX, clock)
    }

    constructor (now: real)
      ensures Valid() && recentByIp == map[] && clock == now
    {
      recentByIp, clock := map[], now;
    }

    method Admit(ip: string, timestamps: seq<real>, now: real) returns (limited: bool)
      modifies this`recentByIp
      ensures limited <==> |timestamps| >= RATE_LIMIT_MAX
      ensures recentByIp == old(recentByIp)[ip := if limited then timestamps else timestamps + [now]]
    {
      Park(ip, timestamps);
      if |timestamps| >= RATE_LIMIT_MAX {
        return true;
      }
      Park(ip, timestamps + [now]);
      limited := false;
    }

    method RateLimited(ip: string, now: real) returns (limited: bool)
      requires Valid() && clock <= now
      modifies this
      ensures Valid() && clock == now
      ensures (limited, Lookup(recentByIp, ip)) == Attempt(old(Lookup(recentByIp, ip)), now, 600.0, 5)
      ensures limited <==> Younger(if ip in old(recentByIp) then old(recentByIp)[ip] else [], now, 600.0) >= 5
      ensures ip in recentByIp && recentByIp == old(recentByIp)[ip := recentByIp[ip]]
    {
      clock := now;
      AttemptsStaySmall(recentByIp, ip, old(clock), now, RATE_LIMIT_WINDOW, RATE_LIMIT_MAX);
      RefusesIff(Lookup(recentByIp, ip), now, RATE_LIMIT_WINDOW, RATE_LIMIT_MAX);
      var timestamps := PopOld(Lookup(recentByIp, ip), now, RATE_LIMIT_WINDOW);
      limited := Admit(ip, timestamps, now);
    }

    /** Put a deque back; an empty one is dropped and made anew. */
    method Park(ip: string, timestamps: seq<real>)
      modifies this`recentByIp
      ensures recentByIp == old(recentByIp)[ip := timestamps]
    {
      recentByIp := recentByIp[ip := timestamps];
      if timestamps == [] {
        recentByIp := recentByIp - {ip};
        recentByIp := recentByIp[ip := []];
      }
    }
  }

  /** The sweep at the head of the deque: pop while the oldest time has left the window. */
  method PopOld(before: seq<real>, now: real, window: real) returns (timestamps: seq<real>)
    requires Sorted(before)
    ensures timestamps == Recent(before, now, window)
    ensures exists k :: 0 <= k <= |before| && timestamps == before[k..]
  {
    timestamps := before;
    ghost var dropped := 0;
    while timestamps != [] && now - timestamps[0] >= window
      invariant 0 <= dropped <= |before| && timestamps == before[dropped..]
      invariant forall i :: 0 <= i < dropped ==> now - before[i] >= window
      decreases |timestamps|
    {
      timestamps := timestamps[1..];
      dropped := dropped + 1;
    }
    ghost var k := RecentIsTail(before, now, window);
    assert dropped < |before| ==> timestamps[0] == before[dropped];
    assert k < |before| ==> now - before[k] < window;
  }

  class CodeSendLimiter {
    var history: map<string, seq<real>>

    method OverLimit(key: string, limit: nat, now: real) returns (over: bool)
      modifies this
      ensures (over, Lookup(history, key)) == Attempt(old(Lookup(history, key)), now, 900.0, limit)
      ensures over <==> Younger(if key in old(history) then old(history)[key] else [], now, 900.0) >= limit
      ensures key in history && history == old(history)[key := history[key]]
    {
      RefusesIff(Lookup(history, key), now, CODE_SEND_WINDOW, limit);
      var sent := Lookup(history, key);
      var recent: seq<real> := [];
      for i := 0 to |sent|
        invariant history == old(history)
        invariant recent == Recent(sent[..i], now, CODE_SEND_WINDOW)
      {
        RecentOfAppend(sent[..i], sent[i], now, CODE_SEND_WINDOW);
        assert sent[..i + 1] == sent[..i] + [sent[i]];
        if now - sent[i] < CODE_SEND_WINDOW {
          recent := recent + [sent[i]];
        }
      }
      assert sent[..|sent|] == sent;
      if |recent| >= limit {
        history := history[key := recent];
        return true;
      }
      recent := recent + [now];
      history := history[key := recent];
      over := false;
    }
  }

  // ---- every run --------------------------------------------------------------

  datatype Call = Call(key: string, at: real)

  predicate NonDecreasing(calls: seq<Call>) {
    forall i, j :: 0 <= i < j < |calls| ==> calls[i].at <= calls[j].at
  }

  /** What the limiter holds for a key after a run. */
  function Stored(calls: seq<Call>, key: string, window: real, limit: nat): seq<real> {
    if calls == [] then []
    else
      var before, call := Stored(calls[..|calls| - 1], key, window, limit), calls[|calls| - 1];
      if call.key == key then Attempt(before, call.at, window, limit).1 else before
  }

  /** The specification: every accepted attempt is remembered, and an attempt is accepted when fewer than
      `limit` accepted ones are younger than the window. */
  function Accepted(calls: seq<Call>, key: string, window: real, limit: nat): seq<real> {
    if calls == [] then []
    else
      var before, call := Accepted(calls[..|calls| - 1], key, window, limit), calls[|calls| - 1];
      if call.key == key && |Recent(before, call.at, window)| < limit then before + [call.at] else before
  }

  /** Any `limit` accepted attempts are followed by a pause: the next is a whole window after the first. */
  predicate Spread(ts: seq<real>, window: real, limit: nat) {
    forall i :: 0 <= i && i + limit < |ts| ==> ts[i + limit] - ts[i] >= window
  }

  lemma {:induction false} StoredIsSmall(calls: seq<Call>, key: string, window: real, limit: nat, now: real)
    requires NonDecreasing(calls) && (calls != [] ==> calls[|calls| - 1].at <= now)
    ensures Small(Stored(calls, key, window, limit), limit, now)
    decreases |calls|
  {
    if calls != [] {
      var front, call := calls[..|calls| - 1], calls[|calls| - 1];
      StoredIsSmall(front, key, window, limit, call.at);
      AttemptStaysSmall(Stored(front, key, window, limit), call.at, call.at, window, limit);
    }
  }

  lemma {:induction false} HistoryIsSpread(calls: seq<Call>, key: string, window: real, limit: nat, now: real)
    requires NonDecreasing(calls) && (calls != [] ==> calls[|calls| - 1].at <= now)
    ensures var history := Accepted(calls, key, window, limit);
            Sorted(history) && Before(history, now) && Spread(history, window, limit)
    decreases |calls|
  {
    if calls != [] {
      var front, call := calls[..|calls| - 1], calls[|calls| - 1];
      HistoryIsSpread(front, key, window, limit, call.at);
      var history := Accepted(front, key, window, limit);
      if call.key == key && |Recent(history, call.at, window)| < limit {
        AppendKeepsSpread(history, call.at, window, limit);
      }
    }
  }

  lemma AppendKeepsSpread(history: seq<real>, t: real, window: real, limit: nat)
    requires Sorted(history) && Before(history, t) && Spread(history, window, limit)
    requires |Recent(history, t, window)| < limit
    ensures Sorted(history + [t]) && Before(history + [t], t) && Spread(history + [t], window, limit)
  {
    var next := history + [t];
    var k := RecentIsTail(history, t, window);
    forall i | 0 <= i && i + limit < |next|
      ensures next[i + limit] - next[i] >= window
    {
      if i + limit < |history| {
        assert history[i + limit] - history[i] >= window;
      } else {
        assert t - history[i] >= window;
      }
    }
  }

  lemma {:induction false} SameRecent(calls: seq<Call>, key: string, window: real, limit: nat, now: real)
    requires NonDecreasing(calls) && (calls != [] ==> calls[|calls| - 1].at <= now)
    ensures Recent(Stored(calls, key, window, limit), now, window)
              == Recent(Accepted(calls, key, window, limit), now, window)
    decreases |calls|
  {
    if calls != [] {
      var front, call := calls[..|calls| - 1], calls[|calls| - 1];
      SameRecent(front, key, window, limit, call.at);
      SameRecent(front, key, window, limit, now);
      var stored, history := Stored(front, key, window, limit), Accepted(front, key, window, limit);
      RecentOfRecent(stored, call.at, now, window);
      RecentOfAppend(Recent(stored, call.at, window), call.at, now, window);
      RecentOfAppend(history, call.at, now, window);
    }
  }

  /** The limiter decides as the full history would, for every non-decreasing clock. */
  lemma LimiterRefinesHistory(calls: seq<Call>, key: string, window: real, limit: nat, now: real)
    requires NonDecreasing(calls + [Call(key, now)])
    ensures Attempt(Stored(calls, key, window, limit), now, window, limit).0
            <==> Younger(Accepted(calls, key, window, limit), now, window) >= limit
    ensures Sorted(Stored(calls, key, window, limit)) && |Stored(calls, key, window, limit)| <= limit
  {
    var all := calls + [Call(key, now)];
    assert forall i :: 0 <= i < |calls| ==> all[i] == calls[i];
    if calls != [] {
      assert all[|calls| - 1].at <= all[|calls|].at;
    }
    RecentCounts(Accepted(calls, key, window, limit), now, window);
    SameRecent(calls, key, window, limit, now);
    StoredIsSmall(calls, key, window, limit, now);
  }

  /** How many of the times lie in the half-open window that starts at `from`. */
  function Inside(ts: seq<real>, from: real, window: real): nat {
    if ts == [] then 0
    else
      var n := |ts| - 1;
      Inside(ts[..n], from, window) + if from <= ts[n] < from + window then 1 else 0
  }

  /** Only the last m times count when all earlier ones lie before the window. */
  lemma {:induction false} InsideTail(ts: seq<real>, m: nat, from: real, window: real)
    requires forall i :: 0 <= i < |ts| - m ==> ts[i] < from
    ensures Inside(ts, from, window) <= m
  {
    if ts != [] {
      var n := |ts| - 1;
      InsideTail(ts[..n], if m == 0 then 0 else m - 1, from, window);
    }
  }

  lemma {:induction false} SpreadInside(ts: seq<real>, from: real, window: real, limit: nat)
    requires Sorted(ts) && Spread(ts, window, limit)
    ensures Inside(ts, from, window) <= limit
  {
    if ts != [] {
      var n := |ts| - 1;
      if from <= ts[n] < from + window {
        forall i | 0 <= i < |ts| - limit
          ensures ts[i] < from
        {
          assert ts[i + limit] - ts[i] >= window;
        }
        InsideTail(ts, limit, from, window);
      } else {
        var front := ts[..n];
        assert forall i :: 0 <= i && i + limit < n ==> front[i + limit] - front[i] == ts[i + limit] - ts[i];
        SpreadInside(front, from, window, limit);
      }
    }
  }

  /** No half-open window, wherever it starts, holds more than `limit` accepted attempts. */
  lemma WindowHoldsAtMostLimit(calls: seq<Call>, key: string, window: real, limit: nat, from: real)
    requires NonDecreasing(calls)
    ensures Inside(Accepted(calls, key, window, limit), from, window) <= limit
  {
    HistoryIsSpread(calls, key, window, limit, if calls == [] then 0.0 else calls[|calls| - 1].at);
    SpreadInside(Accepted(calls, key, window, limit), from, window, limit);
  }
}
