/**
 The Worker's limiter: one table of admitted requests, shared by every bucket, purged
 of rows older than a day.  Times are in milliseconds, windows in seconds.
 */
module WorkerLimiter {
  import opened Basics

  const DAY := 86_400_000

  datatype Hit = Hit(bucket: string, at: int)

  /** Every caller passes a positive limit. */
  type Limit = n: nat | n > 0 witness 1

  /** `DELETE ... WHERE occurred_at < before`. */
  function Purged(table: seq<Hit>, before: int): seq<Hit> {
    if table == [] then []
    else
      var front, last := Purged(table[..|table| - 1], before), table[|table| - 1];
      if last.at < before then front else front + [last]
  }

  /** The times of one bucket from the cutoff on, the cutoff itself included. */
  function InWindow(table: seq<Hit>, bucket: string, cutoff: int): seq<int> {
    if table == [] then []
    else
      var front, last := InWindow(table[..|table| - 1], bucket, cutoff), table[|table| - 1];
      if last.bucket == bucket && last.at >= cutoff then front + [last.at] else front
  }

  function Min(a: int, b: int): int { if a <= b then a else b }

  function Max(a: int, b: int): int { if a >= b then a else b }

  /** `ORDER BY occurred_at ASC`, first row. */
  function Oldest(ats: seq<int>): int
    requires ats != []
  {
    if |ats| == 1 then ats[0] else Min(ats[0], Oldest(ats[1..]))
  }

  lemma {:induction false} OldestIsLeast(ats: seq<int>)
    requires ats != []
    ensures Oldest(ats) in ats && forall i :: 0 <= i < |ats| ==> Oldest(ats) <= ats[i]
  {
    if |ats| > 1 {
      OldestIsLeast(ats[1..]);
      assert forall i :: 0 < i < |ats| ==> ats[i] == ats[1..][i - 1];
    }
  }

  /** Milliseconds to whole seconds, rounded up. */
  function CeilSeconds(ms: int): int {
    if ms >= 0 then (ms + 999) / 1000 else -((-ms) / 1000)
  }

  /** How long one bucket makes the caller wait; 0 also when its oldest row is exactly at the cutoff. */
  function Wait(table: seq<Hit>, bucket: string, limit: Limit, window: int, now: int): int
  {
    var ats := InWindow(table, bucket, now - window * 1000);
    if |ats| < limit then 0 else CeilSeconds(Oldest(ats) + window * 1000 - now)
  }

  function RetryAfter(table: seq<Hit>, buckets: seq<string>, limit: Limit, window: int, now: int): int
  {
    if buckets == [] then 0
    else
      var n := |buckets| - 1;
      Max(RetryAfter(table, buckets[..n], limit, window, now), Wait(table, buckets[n], limit, window, now))
  }

  function Hits(buckets: seq<string>, now: int): seq<Hit> {
    seq(|buckets|, i requires 0 <= i < |buckets| => Hit(buckets[i], now))
  }

  /** None is an admission. */
  function Decision(table: seq<Hit>, buckets: seq<string>, limit: Limit, window: int, now: int): Option<int>
  {
    var retry := RetryAfter(table, buckets, limit, window, now);
    if retry > 0 then Some(retry) else None
  }

  class RateLimitEvents {
    var table: seq<Hit>

    method LongestWait(buckets: seq<string>, limit: Limit, window: int, now: int) returns (retryAfter: int)
      ensures retryAfter == RetryAfter(table, buckets, limit, window, now)
    {
      var cutoff := now - window * 1000;
      retryAfter := 0;
      for i := 0 to |buckets|
        invariant retryAfter == RetryAfter(table, buckets[..i], limit, window, now)
      {
        assert buckets[..i + 1][..i] == buckets[..i];
        RetryIsNatural(table, buckets[..i], limit, window, now);
        var rows := InWindow(table, buckets[i], cutoff);
        if |rows| >= limit {
          retryAfter := Max(retryAfter, CeilSeconds(Oldest(rows) + window * 1000 - now));
        }
      }
      assert buckets[..|buckets|] == buckets;
    }

    /** The rows of the last day are kept; a refusal adds no row, an admission one row for every bucket. */
    method RateLimited(buckets: seq<string>, limit: Limit, window: int, now: int) returns (retry: Option<int>)
      modifies this
      ensures retry == Decision(Purged(old(table), now - DAY), buckets, limit, window, now)
      ensures table == Purged(old(table), now - DAY) + (if retry.None? then Hits(buckets, now) else [])
      ensures Recorded(old(table), table, if retry.None? then buckets else [], now)
    {
      PurgeThenAdd(table, buckets, now);
      PurgeThenAdd(table, [], now);
      table := Purged(table, now - DAY);
      var retryAfter := LongestWait(buckets, limit, window, now);
      if retryAfter > 0 {
        assert Hits([], now) == [];
        return Some(retryAfter);
      }
      Insert(buckets, now);
      retry := None;
    }

    method Insert(buckets: seq<string>, now: int)
      modifies this
      ensures table == old(table) + Hits(buckets, now)
    {
      for i := 0 to |buckets|
        invariant table == old(table) + Hits(buckets[..i], now)
      {
        assert Hits(buckets[..i + 1], now) == Hits(buckets[..i], now) + [Hit(buckets[i], now)];
        table := table + [Hit(buckets[i], now)];
      }
      assert buckets[..|buckets|] == buckets;
    }
  }

  /** Exactly the rows not older than a day, each as often as before. */
  ghost predicate KeepsLastDay(kept: seq<Hit>, table: seq<Hit>, now: int) {
    forall hit: Hit :: multiset(kept)[hit] == if hit.at < now - 86_400_000 then 0 else multiset(table)[hit]
  }

  /** The rows of the last day, then one new row for each of `added`. */
  ghost predicate Recorded(before: seq<Hit>, after: seq<Hit>, added: seq<string>, now: int) {
    exists kept :: KeepsLastDay(kept, before, now) && after == kept + Rows(added, now)
  }

  function Rows(buckets: seq<string>, now: int): (rows: seq<Hit>)
    ensures |rows| == |buckets| && forall i :: 0 <= i < |rows| ==> rows[i] == Hit(buckets[i], now)
  {
    if buckets == [] then [] else [Hit(buckets[0], now)] + Rows(buckets[1..], now)
  }

  lemma PurgeThenAdd(table: seq<Hit>, added: seq<string>, now: int)
    ensures Recorded(table, Purged(table, now - DAY) + Hits(added, now), added, now)
  {
    PurgeKeepsLastDay(table, now);
    assert Hits(added, now) == Rows(added, now);
  }

  lemma PurgeKeepsLastDay(table: seq<Hit>, now: int)
    ensures KeepsLastDay(Purged(table, now - DAY), table, now)
  {
    forall hit: Hit
      ensures multiset(Purged(table, now - DAY))[hit] == if hit.at < now - 86_400_000 then 0 else multiset(table)[hit]
    {
      PurgeRemovesExactly(table, now - DAY, hit);
    }
  }

  lemma {:induction false} RetryIsNatural(table: seq<Hit>, buckets: seq<string>, limit: Limit, window: int, now: int)
    ensures RetryAfter(table, buckets, limit, window, now) >= 0
  {
    if buckets != [] {
      RetryIsNatural(table, buckets[..|buckets| - 1], limit, window, now);
    }
  }

  // ---- what is counted --------------------------------------------------------

  /** Of one bucket, each row from the cutoff on is seen, as often as it is in the table, and no other row. */
  lemma {:induction false} WindowHoldsExactly(table: seq<Hit>, bucket: string, cutoff: int, t: int)
    ensures multiset(InWindow(table, bucket, cutoff))[t]
              == if t >= cutoff then multiset(table)[Hit(bucket, t)] else 0
  {
    if table != [] {
      var n := |table| - 1;
      WindowHoldsExactly(table[..n], bucket, cutoff, t);
      assert table == table[..n] + [table[n]];
      var front := InWindow(table[..n], bucket, cutoff);
      assert multiset(front + [table[n].at]) == multiset(front) + multiset{table[n].at};
    }
  }

  /** The purge removes exactly the rows before the given time. */
  lemma {:induction false} PurgeRemovesExactly(table: seq<Hit>, before: int, hit: Hit)
    ensures multiset(Purged(table, before))[hit] == if hit.at < before then 0 else multiset(table)[hit]
  {
    if table != [] {
      var n := |table| - 1;
      PurgeRemovesExactly(table[..n], before, hit);
      assert table == table[..n] + [table[n]];
      var front := Purged(table[..n], before);
      assert multiset(front + [table[n]]) == multiset(front) + multiset{table[n]};
    }
  }

  /** Two tables that hold the same rows of the buckets asked about. */
  predicate SameRowsOf(a: seq<Hit>, b: seq<Hit>, buckets: seq<string>) {
    forall i :: 0 <= i < |buckets| ==> RowsOf(a, buckets[i]) == RowsOf(b, buckets[i])
  }

  /** `WHERE bucket_key = ?`, in table order. */
  function RowsOf(table: seq<Hit>, bucket: string): seq<Hit> {
    if table == [] then []
    else
      var last := table[|table| - 1];
      RowsOf(table[..|table| - 1], bucket) + if last.bucket == bucket then [last] else []
  }

  lemma {:induction false} WindowSeesOwnRows(table: seq<Hit>, bucket: string, cutoff: int)
    ensures InWindow(table, bucket, cutoff) == InWindow(RowsOf(table, bucket), bucket, cutoff)
  {
    if table != [] {
      var n := |table| - 1;
      WindowSeesOwnRows(table[..n], bucket, cutoff);
      var front := RowsOf(table[..n], bucket);
      if table[n].bucket == bucket {
        assert (front + [table[n]])[..|front|] == front;
      } else {
        assert front + [] == front;
      }
    }
  }

  /** Rows of other buckets never change a decision. */
  lemma BucketsAreIsolated(a: seq<Hit>, b: seq<Hit>, buckets: seq<string>, limit: Limit, window: int, now: int)
    requires SameRowsOf(a, b, buckets)
    ensures Decision(a, buckets, limit, window, now) == Decision(b, buckets, limit, window, now)
  {
    forall i | 0 <= i < |buckets|
      ensures InWindow(a, buckets[i], now - window * 1000) == InWindow(b, buckets[i], now - window * 1000)
    {
      WindowSeesOwnRows(a, buckets[i], now - window * 1000);
      WindowSeesOwnRows(b, buckets[i], now - window * 1000);
    }
    SameOwnWindowsSameRetry(a, b, buckets, limit, window, now, now - window * 1000);
  }

  lemma {:induction false} SameOwnWindowsSameRetry(a: seq<Hit>, b: seq<Hit>, buckets: seq<string>, limit: Limit,
                                                   window: int, now: int, cutoff: int)
    requires cutoff == now - window * 1000
    requires forall i :: 0 <= i < |buckets| ==> InWindow(a, buckets[i], cutoff) == InWindow(b, buckets[i], cutoff)
    ensures RetryAfter(a, buckets, limit, window, now) == RetryAfter(b, buckets, limit, window, now)
  {
    if buckets != [] {
      var n := |buckets| - 1;
      assert forall i :: 0 <= i < n ==> buckets[..n][i] == buckets[i];
      SameOwnWindowsSameRetry(a, b, buckets[..n], limit, window, now, cutoff);
    }
  }

  /** A row of a bucket nobody asks about is such a difference. */
  lemma OtherBucketNeverCounts(table: seq<Hit>, other: Hit, buckets: seq<string>, limit: Limit, window: int, now: int)
    requires other.bucket !in buckets
    ensures Decision(table + [other], buckets, limit, window, now) == Decision(table, buckets, limit, window, now)
  {
    assert (table + [other])[..|table|] == table;
    forall i | 0 <= i < |buckets|
      ensures RowsOf(table + [other], buckets[i]) == RowsOf(table, buckets[i])
    {
      assert RowsOf(table, buckets[i]) + [] == RowsOf(table, buckets[i]);
    }
    BucketsAreIsolated(table + [other], table, buckets, limit, window, now);
  }

  // ---- the purge --------------------------------------------------------------

  lemma {:induction false} PurgeKeepsWindow(table: seq<Hit>, before: int, bucket: string, cutoff: int)
    requires before <= cutoff
    ensures InWindow(Purged(table, before), bucket, cutoff) == InWindow(table, bucket, cutoff)
  {
    if table != [] {
      var front, last := table[..|table| - 1], table[|table| - 1];
      PurgeKeepsWindow(front, before, bucket, cutoff);
      if last.at >= before {
        assert (Purged(front, before) + [last])[..|Purged(front, before)|] == Purged(front, before);
      }
    }
  }

  ghost predicate SameWindows(a: seq<Hit>, b: seq<Hit>, cutoff: int) {
    forall bucket :: InWindow(a, bucket, cutoff) == InWindow(b, bucket, cutoff)
  }

  lemma {:induction false} SameWindowsSameRetry(a: seq<Hit>, b: seq<Hit>, buckets: seq<string>, limit: Limit,
                                                window: int, now: int)
    requires SameWindows(a, b, now - window * 1000)
    ensures RetryAfter(a, buckets, limit, window, now) == RetryAfter(b, buckets, limit, window, now)
  {
    if buckets != [] {
      SameWindowsSameRetry(a, b, buckets[..|buckets| - 1], limit, window, now);
    }
  }

  lemma PurgeIsInvisible(table: seq<Hit>, buckets: seq<string>, limit: Limit, window: int, now: int)
    requires window <= 86_400
    ensures Decision(Purged(table, now - DAY), buckets, limit, window, now)
              == Decision(table, buckets, limit, window, now)
  {
    var cutoff := now - window * 1000;
    forall bucket
      ensures InWindow(Purged(table, now - DAY), bucket, cutoff) == InWindow(table, bucket, cutoff)
    {
      PurgeKeepsWindow(table, now - DAY, bucket, cutoff);
    }
    SameWindowsSameRetry(Purged(table, now - DAY), table, buckets, limit, window, now);
  }

  /** A longer window sees the purge: with one row just over a day old and a limit of one, the row still
      refuses the request, and its purge admits it. */
  lemma LongWindowSeesPurge(window: int) returns (table: seq<Hit>)
    requires window > 86_400
    ensures Decision(table, ["b"], 1, window, 0).Some?
    ensures Decision(Purged(table, 0 - DAY), ["b"], 1, window, 0) == None
  {
    table := [Hit("b", -DAY - 1)];
    var cutoff := 0 - window * 1000;
    assert table[..0] == [] && ["b"][..0] == [];
    assert InWindow(table, "b", cutoff) == [-DAY - 1];
    var oldest := Oldest([-DAY - 1]);
    assert CeilSeconds(oldest + window * 1000) > 0;
    assert RetryAfter(table, ["b"], 1, window, 0) == Max(0, Wait(table, "b", 1, window, 0));
    assert Purged(table, 0 - DAY) == [];
    assert RetryAfter([], ["b"], 1, window, 0) == Max(0, Wait([], "b", 1, window, 0));
  }

  ghost predicate PurgeNeverDecides(window: int) {
    forall table: seq<Hit>, buckets: seq<string>, limit: Limit, now: int ::
      Decision(Purged(table, now - DAY), buckets, limit, window, now) == Decision(table, buckets, limit, window, now)
  }

  /** The day-old purge never changes a decision exactly when the window is at most a day. */
  lemma PurgeIsInvisibleIff(window: int)
    ensures PurgeNeverDecides(window) <==> window <= 86_400
  {
    if window <= 86_400 {
      forall table: seq<Hit>, buckets: seq<string>, limit: Limit, now: int
        ensures Decision(Purged(table, now - DAY), buckets, limit, window, now)
                  == Decision(table, buckets, limit, window, now)
      {
        PurgeIsInvisible(table, buckets, limit, window, now);
      }
    } else {
      var table := LongWindowSeesPurge(window);
      assert Decision(Purged(table, 0 - DAY), ["b"], 1, window, 0) != Decision(table, ["b"], 1, window, 0);
    }
  }

  // ---- every run --------------------------------------------------------------

  datatype Call = Call(buckets: seq<string>, limit: Limit, window: int, at: int)

  /** A call whose window is at most a day, on a clock that does not run back. */
  predicate Follows(calls: seq<Call>, call: Call) {
    call.window <= 86_400 && (calls != [] ==> calls[|calls| - 1].at <= call.at)
  }

  predicate Proper(calls: seq<Call>) {
    calls == [] || (Proper(calls[..|calls| - 1]) && Follows(calls[..|calls| - 1], calls[|calls| - 1]))
  }

  /** The table after one request that finds `table`. */
  function After(table: seq<Hit>, call: Call): seq<Hit>
  {
    if Decision(table, call.buckets, call.limit, call.window, call.at).None?
    then table + Hits(call.buckets, call.at) else table
  }

  /** The table after a run of the program. */
  function Kept(calls: seq<Call>): seq<Hit>
  {
    if calls == [] then []
    else
      var call := calls[|calls| - 1];
      After(Purged(Kept(calls[..|calls| - 1]), call.at - DAY), call)
  }

  /** The table of a limiter that never forgets. */
  function Everything(calls: seq<Call>): seq<Hit>
  {
    if calls == [] then [] else After(Everything(calls[..|calls| - 1]), calls[|calls| - 1])
  }

  lemma {:induction false} InWindowConcat(a: seq<Hit>, b: seq<Hit>, bucket: string, cutoff: int)
    ensures InWindow(a + b, bucket, cutoff) == InWindow(a, bucket, cutoff) + InWindow(b, bucket, cutoff)
  {
    if b == [] {
      assert a + b == a;
    } else {
      InWindowConcat(a, b[..|b| - 1], bucket, cutoff);
      assert (a + b)[..|a + b| - 1] == a + b[..|b| - 1];
    }
  }

  lemma AfterKeepsWindow(a: seq<Hit>, b: seq<Hit>, call: Call, bucket: string, cutoff: int)
    requires InWindow(a, bucket, cutoff) == InWindow(b, bucket, cutoff)
    requires Decision(a, call.buckets, call.limit, call.window, call.at)
               == Decision(b, call.buckets, call.limit, call.window, call.at)
    ensures InWindow(After(a, call), bucket, cutoff) == InWindow(After(b, call), bucket, cutoff)
  {
    InWindowConcat(a, Hits(call.buckets, call.at), bucket, cutoff);
    InWindowConcat(b, Hits(call.buckets, call.at), bucket, cutoff);
  }

  ghost predicate SameSince(a: seq<Hit>, b: seq<Hit>, from: int) {
    forall cutoff :: cutoff >= from ==> SameWindows(a, b, cutoff)
  }

  /** One request on a purged table and on a full one that agree on the last day: same decision, and they
      agree on the last day afterwards. */
  lemma OneCallAgrees(kept: seq<Hit>, all: seq<Hit>, call: Call, from: int)
    requires SameSince(kept, all, from) && from <= call.at - DAY && call.window <= 86_400
    ensures Decision(Purged(kept, call.at - DAY), call.buckets, call.limit, call.window, call.at)
              == Decision(all, call.buckets, call.limit, call.window, call.at)
    ensures SameSince(After(Purged(kept, call.at - DAY), call), After(all, call), call.at - DAY)
  {
    var purged := Purged(kept, call.at - DAY);
    forall cutoff | cutoff >= call.at - DAY
      ensures SameWindows(purged, all, cutoff)
    {
      assert SameWindows(kept, all, cutoff);
      forall bucket
        ensures InWindow(purged, bucket, cutoff) == InWindow(all, bucket, cutoff)
      {
        PurgeKeepsWindow(kept, call.at - DAY, bucket, cutoff);
      }
    }
    SameWindowsSameRetry(purged, all, call.buckets, call.limit, call.window, call.at);
    forall cutoff | cutoff >= call.at - DAY
      ensures SameWindows(After(purged, call), After(all, call), cutoff)
    {
      assert SameWindows(purged, all, cutoff);
      forall bucket
        ensures InWindow(After(purged, call), bucket, cutoff) == InWindow(After(all, call), bucket, cutoff)
      {
        AfterKeepsWindow(purged, all, call, bucket, cutoff);
      }
    }
  }

  /** The time from which the two tables agree. */
  function AgreeFrom(calls: seq<Call>, otherwise: int): int {
    if calls == [] then otherwise else calls[|calls| - 1].at - DAY
  }

  lemma {:induction false} KeptAgrees(calls: seq<Call>, kept: seq<Hit>, all: seq<Hit>, otherwise: int)
    requires Proper(calls) && kept == Kept(calls) && all == Everything(calls)
    ensures SameSince(kept, all, AgreeFrom(calls, otherwise))
    decreases |calls|
  {
    if calls != [] {
      var front, call := calls[..|calls| - 1], calls[|calls| - 1];
      var keptBefore, allBefore := Kept(front), Everything(front);
      KeptAgrees(front, keptBefore, allBefore, call.at - DAY);
      OneCallAgrees(keptBefore, allBefore, call, AgreeFrom(front, call.at - DAY));
    }
  }

  /** Over every run with a clock that does not run back, the purging limiter decides each request as a
      limiter that keeps every row would. */
  lemma LimiterNeverForgets(calls: seq<Call>, call: Call)
    requires Proper(calls) && Follows(calls, call)
    ensures Decision(Purged(Kept(calls), call.at - DAY), call.buckets, call.limit, call.window, call.at)
              == Decision(Everything(calls), call.buckets, call.limit, call.window, call.at)
  {
    KeptAgrees(calls, Kept(calls), Everything(calls), call.at - DAY);
    OneCallAgrees(Kept(calls), Everything(calls), call, AgreeFrom(calls, call.at - DAY));
  }

  // ---- the limit and the edge of the window ------------------------------------

  predicate OnEdge(table: seq<Hit>, bucket: string, cutoff: int) {
    cutoff in InWindow(table, bucket, cutoff)
  }

  /** A bucket lets the request pass when it is below its limit, or when it has a row exactly at the cutoff. */
  predicate Passes(table: seq<Hit>, bucket: string, limit: Limit, cutoff: int) {
    |InWindow(table, bucket, cutoff)| < limit || OnEdge(table, bucket, cutoff)
  }

  lemma {:induction false} InWindowIsRecent(table: seq<Hit>, bucket: string, cutoff: int)
    ensures forall i :: 0 <= i < |InWindow(table, bucket, cutoff)| ==> InWindow(table, bucket, cutoff)[i] >= cutoff
  {
    if table != [] {
      InWindowIsRecent(table[..|table| - 1], bucket, cutoff);
    }
  }

  lemma WaitIsZeroIff(table: seq<Hit>, bucket: string, limit: Limit, window: int, now: int)
    ensures Wait(table, bucket, limit, window, now) >= 0
    ensures Wait(table, bucket, limit, window, now) == 0 <==> Passes(table, bucket, limit, now - window * 1000)
  {
    var cutoff := now - window * 1000;
    var ats := InWindow(table, bucket, cutoff);
    InWindowIsRecent(table, bucket, cutoff);
    if |ats| >= limit {
      OldestIsLeast(ats);
      var oldest := Oldest(ats);
      assert oldest - cutoff >= 0;
      assert CeilSeconds(oldest - cutoff) == 0 <==> oldest == cutoff;
      if cutoff in ats {
        var i :| 0 <= i < |ats| && ats[i] == cutoff;
        assert oldest <= ats[i];
      }
    }
  }

  /** What the limiter admits, exactly. */
  lemma {:induction false} AdmitsIff(table: seq<Hit>, buckets: seq<string>, limit: Limit, window: int, now: int)
    ensures Decision(table, buckets, limit, window, now).None?
            <==> forall i :: 0 <= i < |buckets| ==> Passes(table, buckets[i], limit, now - window * 1000)
  {
    if buckets != [] {
      var n := |buckets| - 1;
      AdmitsIff(table, buckets[..n], limit, window, now);
      WaitIsZeroIff(table, buckets[n], limit, window, now);
      assert forall i :: 0 <= i < n ==> buckets[..n][i] == buckets[i];
    }
  }

  /** The sliding-window rule itself: fewer than `limit` admitted rows younger than the window. */
  predicate BelowLimit(table: seq<Hit>, bucket: string, limit: Limit, cutoff: int) {
    |InWindow(table, bucket, cutoff + 1)| < limit
  }

  /** The rows from the cutoff on are the younger ones and those exactly at the cutoff. */
  lemma {:induction false} EdgeOrYounger(table: seq<Hit>, bucket: string, cutoff: int)
    ensures |InWindow(table, bucket, cutoff + 1)| <= |InWindow(table, bucket, cutoff)|
    ensures OnEdge(table, bucket, cutoff) <==>
              |InWindow(table, bucket, cutoff + 1)| < |InWindow(table, bucket, cutoff)|
  {
    if table != [] {
      EdgeOrYounger(table[..|table| - 1], bucket, cutoff);
      InWindowIsRecent(table, bucket, cutoff + 1);
    }
  }

  /** "At most `limit` per window" is false at the edge.  The decision is the sliding-window rule's exactly
      when some bucket is full without a row on the edge, or no bucket with a row on the edge already holds
      `limit` younger rows; in particular whenever every bucket holds at most `limit` rows from the cutoff on. */
  lemma DecisionIsSlidingWindowIff(table: seq<Hit>, buckets: seq<string>, limit: Limit, window: int, now: int)
    ensures var cutoff := now - window * 1000;
            var admitted := Decision(table, buckets, limit, window, now).None?;
            var rule := forall i :: 0 <= i < |buckets| ==> BelowLimit(table, buckets[i], limit, cutoff);
            && (rule ==> admitted)
            && ((admitted <==> rule) <==>
                  || (exists i :: 0 <= i < |buckets| && !OnEdge(table, buckets[i], cutoff)
                                  && |InWindow(table, buckets[i], cutoff)| >= limit)
                  || forall i :: 0 <= i < |buckets| && OnEdge(table, buckets[i], cutoff) ==>
                       BelowLimit(table, buckets[i], limit, cutoff))
            && ((forall i :: 0 <= i < |buckets| ==> |InWindow(table, buckets[i], cutoff)| <= limit) ==>
                  (admitted <==> rule))
  {
    var cutoff := now - window * 1000;
    AdmitsIff(table, buckets, limit, window, now);
    assert Decision(table, buckets, limit, window, now).None? <==>
             !exists i :: 0 <= i < |buckets| && !OnEdge(table, buckets[i], cutoff)
                          && |InWindow(table, buckets[i], cutoff)| >= limit by {
      assert forall i :: 0 <= i < |buckets| ==>
               (Passes(table, buckets[i], limit, cutoff) <==>
                  !(!OnEdge(table, buckets[i], cutoff) && |InWindow(table, buckets[i], cutoff)| >= limit));
    }
    forall i | 0 <= i < |buckets|
      ensures BelowLimit(table, buckets[i], limit, cutoff) ==> Passes(table, buckets[i], limit, cutoff)
      ensures !OnEdge(table, buckets[i], cutoff) && Passes(table, buckets[i], limit, cutoff) ==>
                BelowLimit(table, buckets[i], limit, cutoff)
      ensures OnEdge(table, buckets[i], cutoff) && |InWindow(table, buckets[i], cutoff)| <= limit ==>
                BelowLimit(table, buckets[i], limit, cutoff)
    {
      EdgeOrYounger(table, buckets[i], cutoff);
    }
  }

  /** At the edge millisecond nothing is refused: after one request at time 0, a limit of one per second
      admits any number of requests at time 1000. */
  lemma {:induction false} EdgeAdmitsAnyNumber(n: nat) returns (calls: seq<Call>)
    ensures |calls| == n + 1 && Proper(calls)
    ensures forall i :: 0 <= i <= n ==> calls[i] == Call(["b"], 1, 1, if i == 0 then 0 else 1000)
    ensures Hit("b", 0) in Kept(calls) && |InWindow(Kept(calls), "b", 1000)| == n
  {
    if n == 0 {
      calls := [Call(["b"], 1, 1, 0)];
      assert calls[..0] == [] && ["b"][..0] == [] && Kept([]) == [] && Purged([], 0 - DAY) == [];
      AdmitsIff([], ["b"], 1, 1, 0);
      assert InWindow([], "b", -1000) == [];
      var kept := [] + Hits(["b"], 0);
      assert kept == [Hit("b", 0)] && kept[..0] == [];
      assert Kept(calls) == kept;
      assert InWindow(kept, "b", 1000) == [];
    } else {
      var before := EdgeAdmitsAnyNumber(n - 1);
      var call := Call(["b"], 1, 1, 1000);
      calls := before + [call];
      assert calls[..n] == before;
      var table := Purged(Kept(before), 1000 - DAY);
      PurgeKeepsRow(Kept(before), 1000 - DAY, Hit("b", 0));
      RowInWindow(table, Hit("b", 0), 0);
      AdmitsIff(table, ["b"], 1, 1, 1000);
      assert OnEdge(table, "b", 0);
      PurgeKeepsWindow(Kept(before), 1000 - DAY, "b", 1000);
      assert Kept(calls) == table + Hits(["b"], 1000);
      InWindowConcat(table, Hits(["b"], 1000), "b", 1000);
      assert Hits(["b"], 1000) == [Hit("b", 1000)] && [Hit("b", 1000)][..0] == [];
      assert InWindow([Hit("b", 1000)], "b", 1000) == [1000];
    }
  }

  lemma {:induction false} PurgeKeepsRow(table: seq<Hit>, before: int, hit: Hit)
    requires hit in table && hit.at >= before
    ensures hit in Purged(table, before)
  {
    if hit != table[|table| - 1] {
      PurgeKeepsRow(table[..|table| - 1], before, hit);
    }
  }

  lemma {:induction false} RowInWindow(table: seq<Hit>, hit: Hit, cutoff: int)
    requires hit in table && hit.at >= cutoff
    ensures hit.at in InWindow(table, hit.bucket, cutoff)
  {
    if hit != table[|table| - 1] {
      RowInWindow(table[..|table| - 1], hit, cutoff);
    }
  }

  // ---- the reported wait ------------------------------------------------------

  lemma {:induction false} LaterWindow(table: seq<Hit>, bucket: string, cutoff: int, later: int)
    requires cutoff <= later
    ensures |InWindow(table, bucket, later)| <= |InWindow(table, bucket, cutoff)|
    ensures (forall t :: t in InWindow(table, bucket, cutoff) ==> t >= later)
            <==> |InWindow(table, bucket, later)| == |InWindow(table, bucket, cutoff)|
    ensures later in InWindow(table, bucket, cutoff) <==> OnEdge(table, bucket, later)
  {
    if table != [] {
      var front, last := table[..|table| - 1], table[|table| - 1];
      LaterWindow(front, bucket, cutoff, later);
      if last.bucket == bucket && last.at >= cutoff {
        var ats := InWindow(front, bucket, cutoff);
        assert InWindow(table, bucket, cutoff) == ats + [last.at];
        assert last.at in ats + [last.at] && forall t :: t in ats ==> t in ats + [last.at];
        assert (forall t :: t in ats + [last.at] ==> t >= later)
               <==> last.at >= later && forall t :: t in ats ==> t >= later;
      }
    }
  }

  /** One bucket that was at its limit passes after k seconds exactly when k covers its own wait. */
  lemma BucketPassesLater(table: seq<Hit>, bucket: string, limit: Limit, window: int, now: int, k: nat)
    requires |InWindow(table, bucket, now - window * 1000)| <= limit
    ensures Passes(table, bucket, limit, now + k * 1000 - window * 1000)
            <==> k >= Wait(table, bucket, limit, window, now)
  {
    var cutoff, later := now - window * 1000, now + k * 1000 - window * 1000;
    var ats := InWindow(table, bucket, cutoff);
    InWindowIsRecent(table, bucket, cutoff);
    LaterWindow(table, bucket, cutoff, later);
    if |ats| >= limit {
      OldestIsLeast(ats);
      var oldest := Oldest(ats);
      assert CeilSeconds(oldest - cutoff) <= k <==> oldest <= later;
      var i :| 0 <= i < |ats| && ats[i] == oldest;
    }
  }

  lemma {:induction false} RetryCoversWaits(table: seq<Hit>, buckets: seq<string>, limit: Limit, window: int,
                                            now: int, k: nat)
    ensures k >= RetryAfter(table, buckets, limit, window, now)
            <==> forall i :: 0 <= i < |buckets| ==> k >= Wait(table, buckets[i], limit, window, now)
  {
    if buckets != [] {
      var n := |buckets| - 1;
      RetryCoversWaits(table, buckets[..n], limit, window, now, k);
      assert forall i :: 0 <= i < n ==> buckets[..n][i] == buckets[i];
    }
  }

  /** The reported wait is exact: if no bucket is over its limit, a retry k seconds later, with nothing
      admitted in between, is admitted exactly when k is at least the reported number of seconds. */
  lemma RetryAfterIsExact(table: seq<Hit>, buckets: seq<string>, limit: Limit, window: int, now: int, k: nat)
    requires forall i :: 0 <= i < |buckets| ==> |InWindow(table, buckets[i], now - window * 1000)| <= limit
    ensures Decision(table, buckets, limit, window, now + k * 1000).None?
            <==> k >= RetryAfter(table, buckets, limit, window, now)
  {
    AdmitsIff(table, buckets, limit, window, now + k * 1000);
    assert Decision(table, buckets, limit, window, now + k * 1000).None?
        <==> AllPass(table, buckets, limit, now + k * 1000 - window * 1000);
    BucketsPassLater(table, buckets, limit, window, now, k);
  }

  predicate AllPass(table: seq<Hit>, buckets: seq<string>, limit: Limit, cutoff: int) {
    forall i :: 0 <= i < |buckets| ==> Passes(table, buckets[i], limit, cutoff)
  }

  lemma BucketsPassLater(table: seq<Hit>, buckets: seq<string>, limit: Limit, window: int, now: int, k: nat)
    requires forall i :: 0 <= i < |buckets| ==> |InWindow(table, buckets[i], now - window * 1000)| <= limit
    ensures AllPass(table, buckets, limit, now + k * 1000 - window * 1000)
            <==> k >= RetryAfter(table, buckets, limit, window, now)
  {
    RetryCoversWaits(table, buckets, limit, window, now, k);
    forall i | 0 <= i < |buckets|
      ensures Passes(table, buckets[i], limit, now + k * 1000 - window * 1000)
              <==> k >= Wait(table, buckets[i], limit, window, now)
    {
      BucketPassesLater(table, buckets[i], limit, window, now, k);
    }
  }
}
