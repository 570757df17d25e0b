/** The sliding-window limiter on values, and what it guarantees over whole runs. */
module RateLimitSpec {

  /** At most `max` attempts per `window`, per key. Times are integers (nanoseconds). */
  datatype Limit = Limit(max: int, window: int)

  /** The remembered hits of each key. */
  type Hits = map<string, seq<int>>

  datatype Call = Call(key: string, now: int)

  function HitsOf(hits: Hits, key: string): seq<int> {
    if key in hits then hits[key] else []
  }

  /** The times strictly after the cutoff, in order. */
  function Kept(times: seq<int>, cutoff: int): seq<int> {
    if times == [] then []
    else
      var n := |times| - 1;
      if times[n] > cutoff then Kept(times[..n], cutoff) + [times[n]] else Kept(times[..n], cutoff)
  }

  /** The hits of a call's key that are still in its window. */
  function Recent(limit: Limit, hits: Hits, c: Call): seq<int> {
    Kept(HitsOf(hits, c.key), c.now - limit.window)
  }

  /** The verdict on an attempt. */
  predicate Passes(limit: Limit, hits: Hits, c: Call) {
    |Recent(limit, hits, c)| < limit.max
  }

  /** The hits remembered after an attempt: pruned, and extended if it passed. */
  function Attempt(limit: Limit, hits: Hits, c: Call): Hits {
    var recent := Recent(limit, hits, c);
    hits[c.key := if Passes(limit, hits, c) then recent + [c.now] else recent]
  }

  function HitsAfter(limit: Limit, calls: seq<Call>): Hits
    decreases |calls|, 1
  {
    if calls == [] then map[] else HitsAfterLast(limit, calls)
  }

  /** What the last call leaves remembered. */
  function HitsAfterLast(limit: Limit, calls: seq<Call>): Hits
    requires calls != []
    decreases |calls|, 0
  {
    Attempt(limit, HitsAfter(limit, calls[..|calls| - 1]), calls[|calls| - 1])
  }

  /** Is the i-th call of a run allowed? */
  predicate Allowed(limit: Limit, calls: seq<Call>, i: nat)
    requires i < |calls|
  {
    Passes(limit, HitsAfter(limit, calls[..i]), calls[i])
  }

  /** The full history: the times of all allowed calls for a key, never pruned. */
  ghost function AllowedTimes(limit: Limit, calls: seq<Call>, key: string): seq<int>
    decreases |calls|, 1
  {
    if calls == [] then [] else AllowedTimesLast(limit, calls, key)
  }

  ghost function AllowedTimesLast(limit: Limit, calls: seq<Call>, key: string): seq<int>
    requires calls != []
    decreases |calls|, 0
  {
    var n := |calls| - 1;
    var before := AllowedTimes(limit, calls[..n], key);
    if calls[n].key == key && Allowed(limit, calls, n) then before + [calls[n].now] else before
  }

  /** The times in the half-open interval from `lo` of the given length. */
  ghost function Within(times: seq<int>, lo: int, length: int): seq<int> {
    if times == [] then []
    else
      var n := |times| - 1;
      if lo <= times[n] < lo + length then Within(times[..n], lo, length) + [times[n]]
      else Within(times[..n], lo, length)
  }

  /** The clock does not step back between two calls for the key. */
  ghost predicate NonDecreasing(calls: seq<Call>, key: string) {
    forall i, j :: 0 <= i < j < |calls| && calls[i].key == key && calls[j].key == key ==> calls[i].now <= calls[j].now
  }

  // ---- filtering ---------------------------------------------------------------------------

  lemma KeptAppend(times: seq<int>, t: int, cutoff: int)
    ensures Kept(times + [t], cutoff) == if t > cutoff then Kept(times, cutoff) + [t] else Kept(times, cutoff)
  {
    assert (times + [t])[..|times|] == times;
  }

  lemma WithinAppend(times: seq<int>, t: int, lo: int, length: int)
    ensures Within(times + [t], lo, length)
            == if lo <= t < lo + length then Within(times, lo, length) + [t] else Within(times, lo, length)
  {
    assert (times + [t])[..|times|] == times;
  }

  /** Filtering twice is filtering at the later cutoff. */
  lemma {:induction false} KeptKept(times: seq<int>, early: int, late: int)
    requires early <= late
    ensures Kept(Kept(times, early), late) == Kept(times, late)
  {
    if times != [] {
      var n := |times| - 1;
      KeptKept(times[..n], early, late);
      KeptAppend(Kept(times[..n], early), times[n], late);
    }
  }

  /** An interval that starts after the cutoff holds no more times than the cutoff keeps. */
  lemma {:induction false} WithinKept(times: seq<int>, lo: int, length: int, cutoff: int)
    requires cutoff < lo
    ensures |Within(times, lo, length)| <= |Kept(times, cutoff)|
  {
    if times != [] {
      WithinKept(times[..|times| - 1], lo, length, cutoff);
    }
  }

  // ---- runs ----------------------------------------------------------------------------------

  lemma OneMore(limit: Limit, calls: seq<Call>, c: Call, key: string)
    ensures HitsOf(HitsAfter(limit, calls + [c]), key)
            == if c.key != key then HitsOf(HitsAfter(limit, calls), key)
               else if Passes(limit, HitsAfter(limit, calls), c) then
                 Recent(limit, HitsAfter(limit, calls), c) + [c.now]
               else Recent(limit, HitsAfter(limit, calls), c)
    ensures AllowedTimes(limit, calls + [c], key)
            == if c.key == key && Passes(limit, HitsAfter(limit, calls), c) then
                 AllowedTimes(limit, calls, key) + [c.now]
               else AllowedTimes(limit, calls, key)
  {
    assert (calls + [c])[..|calls|] == calls;
    assert AllowedTimes(limit, calls + [c], key) == AllowedTimesLast(limit, calls + [c], key);
    assert HitsAfter(limit, calls + [c]) == HitsAfterLast(limit, calls + [c])
           == Attempt(limit, HitsAfter(limit, calls), c);
  }

  /** Pruning the remembered hits at an earlier cutoff, then adding one, keeps them like the full history. */
  lemma PruneThenAdd(remembered: seq<int>, history: seq<int>, early: int, cutoff: int, now: int)
    requires early <= cutoff && Kept(remembered, cutoff) == Kept(history, cutoff)
    ensures Kept(Kept(remembered, early), cutoff) == Kept(history, cutoff)
    ensures Kept(Kept(remembered, early) + [now], cutoff) == Kept(history + [now], cutoff)
  {
    KeptKept(remembered, early, cutoff);
    KeptAppend(Kept(remembered, early), now, cutoff);
    KeptAppend(history, now, cutoff);
  }

  /** One call keeps the remembered hits and the full history alike past any cutoff it does not precede. */
  lemma HistoryStep(limit: Limit, calls: seq<Call>, c: Call, key: string, cutoff: int)
    requires c.key == key ==> c.now - limit.window <= cutoff
    requires Kept(HitsOf(HitsAfter(limit, calls), key), cutoff) == Kept(AllowedTimes(limit, calls, key), cutoff)
    ensures Kept(HitsOf(HitsAfter(limit, calls + [c]), key), cutoff)
            == Kept(AllowedTimes(limit, calls + [c], key), cutoff)
  {
    var hits, history, early :=
      HitsOf(HitsAfter(limit, calls), key), AllowedTimes(limit, calls, key), c.now - limit.window;
    OneMore(limit, calls, c, key);
    if c.key == key {
      assert Recent(limit, HitsAfter(limit, calls), c) == Kept(hits, early);
      PruneThenAdd(hits, history, early, cutoff, c.now);
    }
  }

  /** No call for the key is past its window at the cutoff. */
  ghost predicate NoneBeyond(limit: Limit, calls: seq<Call>, key: string, cutoff: int) {
    forall i :: 0 <= i < |calls| && calls[i].key == key ==> calls[i].now - limit.window <= cutoff
  }

  /** Pruning loses nothing that still matters: past the current cutoff, the remembered hits and the full
      history are the same. */
  lemma {:induction false} RememberedIsHistory(limit: Limit, calls: seq<Call>, key: string, cutoff: int)
    requires NoneBeyond(limit, calls, key, cutoff)
    ensures Kept(HitsOf(HitsAfter(limit, calls), key), cutoff) == Kept(AllowedTimes(limit, calls, key), cutoff)
  {
    if calls != [] {
      var before, c := calls[..|calls| - 1], calls[|calls| - 1];
      assert NoneBeyond(limit, before, key, cutoff);
      RememberedIsHistory(limit, before, key, cutoff);
      HistoryStep(limit, before, c, key, cutoff);
      assert calls == before + [c];
    }
  }

  ghost function Indices(p: nat -> bool, n: nat): set<nat> {
    set j | 0 <= j < n && p(j)
  }

  lemma OneMoreIndex(p: nat -> bool, n: nat)
    ensures |Indices(p, n + 1)| == |Indices(p, n)| + if p(n) then 1 else 0
  {
    assert Indices(p, n + 1) == Indices(p, n) + if p(n) then {n} else {};
  }

  /** The calls that were allowed for the key, later than the cutoff. */
  ghost function AllowedAfter(limit: Limit, calls: seq<Call>, key: string, cutoff: int): nat -> bool {
    (j: nat) => j < |calls| && calls[j].key == key && calls[j].now > cutoff && Allowed(limit, calls, j)
  }

  /** And those in a half-open interval. */
  ghost function AllowedWithin(limit: Limit, calls: seq<Call>, key: string, lo: int, length: int): nat -> bool {
    (j: nat) => j < |calls| && calls[j].key == key && lo <= calls[j].now < lo + length && Allowed(limit, calls, j)
  }

  lemma NextAllowed(limit: Limit, calls: seq<Call>, n: nat, key: string)
    requires n < |calls|
    ensures AllowedTimes(limit, calls[..n + 1], key)
            == AllowedTimes(limit, calls[..n], key)
               + if calls[n].key == key && Allowed(limit, calls, n) then [calls[n].now] else []
  {
    assert calls[..n + 1] == calls[..n] + [calls[n]] && calls[..n + 1][..n] == calls[..n];
    OneMore(limit, calls[..n], calls[n], key);
  }

  lemma OneMoreFiltered(limit: Limit, calls: seq<Call>, n: nat, key: string, lo: int, length: int)
    requires n < |calls|
    ensures var times, more := AllowedTimes(limit, calls[..n], key), AllowedTimes(limit, calls[..n + 1], key);
            var passed := calls[n].key == key && Allowed(limit, calls, n);
            && |Kept(more, lo)| == |Kept(times, lo)| + (if passed && calls[n].now > lo then 1 else 0)
            && |Within(more, lo, length)|
               == |Within(times, lo, length)| + (if passed && lo <= calls[n].now < lo + length then 1 else 0)
  {
    var times := AllowedTimes(limit, calls[..n], key);
    NextAllowed(limit, calls, n, key);
    KeptAppend(times, calls[n].now, lo);
    WithinAppend(times, calls[n].now, lo, length);
    assert times + [] == times;
  }

  /** Filtering the full history counts the calls themselves. */
  lemma {:induction false} KeptCounts(limit: Limit, calls: seq<Call>, n: nat, key: string, cutoff: int)
    requires n <= |calls|
    ensures |Kept(AllowedTimes(limit, calls[..n], key), cutoff)|
         == |Indices(AllowedAfter(limit, calls, key, cutoff), n)|
  {
    if n > 0 {
      KeptCounts(limit, calls, n - 1, key, cutoff);
      OneMoreFiltered(limit, calls, n - 1, key, cutoff, 0);
      OneMoreIndex(AllowedAfter(limit, calls, key, cutoff), n - 1);
    }
  }

  lemma {:induction false} WithinCounts(limit: Limit, calls: seq<Call>, n: nat, key: string, lo: int, length: int)
    requires n <= |calls|
    ensures |Within(AllowedTimes(limit, calls[..n], key), lo, length)|
         == |Indices(AllowedWithin(limit, calls, key, lo, length), n)|
  {
    if n > 0 {
      WithinCounts(limit, calls, n - 1, key, lo, length);
      OneMoreFiltered(limit, calls, n - 1, key, lo, length);
      OneMoreIndex(AllowedWithin(limit, calls, key, lo, length), n - 1);
    }
  }

  lemma AllowedByHistory(limit: Limit, calls: seq<Call>, i: nat)
    requires i < |calls| && NonDecreasing(calls, calls[i].key)
    ensures Allowed(limit, calls, i) <==>
            |Kept(AllowedTimes(limit, calls[..i], calls[i].key), calls[i].now - limit.window)| < limit.max
  {
    assert NoneBeyond(limit, calls[..i], calls[i].key, calls[i].now - limit.window);
    RememberedIsHistory(limit, calls[..i], calls[i].key, calls[i].now - limit.window);
  }

  /** A call is allowed exactly when fewer than `max` earlier calls for its key were allowed, of all there have been, at
      times strictly later than now minus the window. */
  lemma AllowedExactly(limit: Limit, calls: seq<Call>, i: nat)
    requires i < |calls| && NonDecreasing(calls, calls[i].key)
    ensures Allowed(limit, calls, i) <==>
            |set j | 0 <= j < i && calls[j].key == calls[i].key && calls[j].now > calls[i].now - limit.window
                     && Allowed(limit, calls, j)| < limit.max
  {
    AllowedByHistory(limit, calls, i);
    var key, cutoff := calls[i].key, calls[i].now - limit.window;
    KeptCounts(limit, calls, i, key, cutoff);
    assert (set j | 0 <= j < i && calls[j].key == key && calls[j].now > cutoff && Allowed(limit, calls, j))
        == Indices(AllowedAfter(limit, calls, key, cutoff), i);
  }

  /** One allowed call more in an interval that starts after the call's cutoff. */
  lemma CapStep(limit: Limit, before: seq<int>, t: int, lo: int)
    requires |Within(before, lo, limit.window)| <= if limit.max > 0 then limit.max else 0
    requires |Kept(before, t - limit.window)| < limit.max
    ensures |Within(before + [t], lo, limit.window)| <= limit.max
  {
    WithinAppend(before, t, lo, limit.window);
    if lo <= t < lo + limit.window {
      WithinKept(before, lo, limit.window, t - limit.window);
    }
  }

  lemma {:induction false} HistoryIsCapped(limit: Limit, calls: seq<Call>, key: string, lo: int)
    requires NonDecreasing(calls, key)
    ensures |Within(AllowedTimes(limit, calls, key), lo, limit.window)| <= if limit.max > 0 then limit.max else 0
  {
    if calls != [] {
      var n := |calls| - 1;
      HistoryIsCapped(limit, calls[..n], key, lo);
      if calls[n].key == key && Allowed(limit, calls, n) {
        AllowedByHistory(limit, calls, n);
        CapStep(limit, AllowedTimes(limit, calls[..n], key), calls[n].now, lo);
      }
    }
  }

  /** The cap: of the calls for a key, at most `max` were allowed in any half-open interval of the window's length. */
  lemma WindowIsCapped(limit: Limit, calls: seq<Call>, key: string, lo: int)
    requires NonDecreasing(calls, key)
    ensures |set j | 0 <= j < |calls| && calls[j].key == key && lo <= calls[j].now < lo + limit.window
                     && Allowed(limit, calls, j)| <= if limit.max > 0 then limit.max else 0
  {
    HistoryIsCapped(limit, calls, key, lo);
    WithinCounts(limit, calls, |calls|, key, lo, limit.window);
    assert (set j | 0 <= j < |calls| && calls[j].key == key && lo <= calls[j].now < lo + limit.window
                    && Allowed(limit, calls, j))
        == Indices(AllowedWithin(limit, calls, key, lo, limit.window), |calls|);
    assert calls[..|calls|] == calls;
  }

  lemma PassingCall(limit: Limit, calls: seq<Call>, c: Call)
    requires Passes(limit, HitsAfter(limit, calls), c)
    ensures HitsOf(HitsAfter(limit, calls + [c]), c.key) == Recent(limit, HitsAfter(limit, calls), c) + [c.now]
    ensures AllowedTimes(limit, calls + [c], c.key) == AllowedTimes(limit, calls, c.key) + [c.now]
  {
    OneMore(limit, calls, c, c.key);
  }

  /** Why the clock is taken not to step back, as a monotonic clock does not: here it does, and three calls pass
      within one window where two are the limit. */
  lemma SteppingBackBreaksTheCap()
    ensures var calls := [Call("k", 0)] + [Call("k", 1)] + [Call("k", 20)] + [Call("k", 5)];
            && AllowedTimes(Limit(2, 10), calls, "k") == [0] + [1] + [20] + [5]
            && Within([0] + [1] + [20] + [5], 0, 10) == [0] + [1] + [5]
  {
    var limit := Limit(2, 10);
    var a, b, c, d := Call("k", 0), Call("k", 1), Call("k", 20), Call("k", 5);
    PassingCall(limit, [], a);
    assert [] + [a] == [a] && [] + [0] == [0];
    KeptAppend([], 0, -9);
    PassingCall(limit, [a], b);
    KeptAppend([], 0, 10);
    KeptAppend([0], 1, 10);
    PassingCall(limit, [a] + [b], c);
    KeptAppend([], 20, -5);
    assert [] + [20] == [20];
    PassingCall(limit, [a] + [b] + [c], d);
    WithinAppend([], 0, 0, 10);
    WithinAppend([0], 1, 0, 10);
    WithinAppend([0] + [1], 20, 0, 10);
    WithinAppend([0] + [1] + [20], 5, 0, 10);
  }
}
