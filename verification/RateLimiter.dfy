/** ratelimit.go on the heap: one growable slice of hits per key, compacted in place. */
module RateLimiters {
  import opened RateLimitSpec

  /** A Go slice: its backing array and its length. */
  datatype Slice = Slice(buf: array<int>, len: nat)

  class RateLimiter {
    const limit: Limit
    var hits: map<string, Slice>
    ghost var owner: map<array<int>, string> // the one key each backing array belongs to

    constructor (limit: Limit)
      ensures Valid() && Contents() == map[] && this.limit == limit
    {
      this.limit := limit;
      hits := map[];
      owner := map[];
    }

    /** Slices fit their arrays, and no two keys share one. */
    ghost predicate Valid()
      reads this
    {
      forall k :: k in hits ==>
        hits[k].len <= hits[k].buf.Length && hits[k].buf in owner && owner[hits[k].buf] == k
    }

    ghost function Contents(): Hits
      requires Valid()
      reads this, owner.Keys
    {
      map k | k in hits :: hits[k].buf[..hits[k].len]
    }

    /** The slice of a key; a missing key has the nil slice. */
    method SliceOf(key: string) returns (s: Slice)
      requires Valid()
      ensures s.len <= s.buf.Length && s.buf[..s.len] == HitsOf(Contents(), key)
      ensures if key in hits then s == hits[key] else fresh(s.buf)
    {
      if key in hits { return hits[key]; }
      var empty := new int[0];
      s := Slice(empty, 0);
    }

    /** Store a slice whose array no other key uses. */
    method Put(key: string, s: Slice)
      requires Valid() && s.len <= s.buf.Length
      requires forall k :: k in hits && k != key ==> hits[k].buf != s.buf
      modifies this`hits, this`owner
      ensures Valid() && owner == old(owner)[s.buf := key]
      ensures Contents() == old(Contents())[key := s.buf[..s.len]]
    {
      hits, owner := hits[key := s], owner[s.buf := key];
    }

    /** Slide the key's slice in its array; no other key has that array. */
    method SlideKey(key: string, now: int) returns (ok: bool, slid: Slice)
      requires Valid()
      modifies owner.Keys
      ensures Valid() && slid.len <= slid.buf.Length && (slid.buf in owner || fresh(slid.buf))
      ensures forall k :: k in hits && k != key ==> hits[k].buf != slid.buf
      ensures ok == Passes(limit, old(Contents()), Call(key, now))
      ensures Contents()[key := slid.buf[..slid.len]] == Attempt(limit, old(Contents()), Call(key, now))
    {
      ghost var before := Contents();
      var slice := SliceOf(key);
      ok, slid := Slide(slice, now, limit);
      ghost var after := slid.buf[..slid.len];
      assert before[key := after] == Attempt(limit, before, Call(key, now));
      assert Contents()[key := after] == before[key := after];
    }

    /** Record an attempt at time `now`, and say whether it is within the limit. */
    method Allow(key: string, now: int) returns (ok: bool)
      requires Valid()
      modifies this`hits, this`owner, owner.Keys
      ensures Valid()
      ensures ok == Passes(limit, old(Contents()), Call(key, now))
      ensures Contents() == Attempt(limit, old(Contents()), Call(key, now))
      ensures forall b :: b in owner ==> b in old(owner) || fresh(b)
    {
      var slid: Slice;
      ok, slid := SlideKey(key, now);
      Put(key, slid);
    }
  }

  /** The body of Allow on one key's slice: drop what has left the window, then count and append. */
  method Slide(s: Slice, now: int, limit: Limit) returns (ok: bool, r: Slice)
    requires s.len <= s.buf.Length
    modifies s.buf
    ensures var recent := Kept(old(s.buf[..s.len]), now - limit.window);
            && ok == (|recent| < limit.max)
            && r.len <= r.buf.Length
            && r.buf[..r.len] == if ok then recent + [now] else recent
    ensures r.buf == s.buf || fresh(r.buf)
  {
    var kept := Compact(s, now - limit.window);
    if kept.len >= limit.max { return false, kept; }
    r := Append(kept, now);
    ok := true;
  }

  /** Keep the times after the cutoff, writing them over the front of the very array being read. */
  method Compact(s: Slice, cutoff: int) returns (kept: Slice)
    requires s.len <= s.buf.Length
    modifies s.buf
    ensures kept.buf == s.buf && kept.len <= s.len
    ensures kept.buf[..kept.len] == Kept(old(s.buf[..s.len]), cutoff)
  {
    var n := 0;
    ghost var times := s.buf[..s.len];
    ghost var out: seq<int> := [];
    for i := 0 to s.len
      invariant n == |out| <= i && out == Kept(times[..i], cutoff)
      invariant forall j :: i <= j < s.len ==> s.buf[j] == times[j]
      invariant forall j :: 0 <= j < n ==> s.buf[j] == out[j]
    {
      var t := s.buf[i];
      assert times[..i + 1] == times[..i] + [t];
      KeptAppend(times[..i], t, cutoff);
      if t > cutoff {
        s.buf[n] := t;
        n := n + 1;
        out := out + [t];
      }
    }
    assert times[..s.len] == times;
    kept := Slice(s.buf, n);
  }

  /** Go's append: in place while there is capacity, else into a larger copy. */
  method Append(s: Slice, t: int) returns (r: Slice)
    requires s.len <= s.buf.Length
    modifies s.buf
    ensures r.len == s.len + 1 <= r.buf.Length
    ensures r.buf[..r.len] == old(s.buf[..s.len]) + [t]
    ensures r.buf == s.buf || fresh(r.buf)
  {
    if s.len < s.buf.Length {
      s.buf[s.len] := t;
      assert s.buf[..s.len + 1] == old(s.buf[..s.len]) + [t];
      return Slice(s.buf, s.len + 1);
    }
    var buf := new int[2 * s.len + 1];
    for i := 0 to s.len
      invariant buf[..i] == s.buf[..i] && s.buf[..] == old(s.buf[..])
    {
      buf[i] := s.buf[i];
    }
    buf[s.len] := t;
    assert buf[..s.len + 1] == s.buf[..s.len] + [t];
    r := Slice(buf, s.len + 1);
  }

  /** The answers to a run of calls. */
  function Verdicts(limit: Limit, calls: seq<Call>): (v: seq<bool>)
    ensures |v| == |calls|
  {
    if calls == [] then []
    else Verdicts(limit, calls[..|calls| - 1]) + [Allowed(limit, calls, |calls| - 1)]
  }

  lemma {:induction false} VerdictAt(limit: Limit, calls: seq<Call>, i: nat)
    requires i < |calls|
    ensures Verdicts(limit, calls)[i] == Allowed(limit, calls, i)
  {
    var n := |calls| - 1;
    if i < n {
      VerdictAt(limit, calls[..n], i);
      assert calls[..n][..i] == calls[..i];
    }
  }

  lemma ServeStep(limit: Limit, calls: seq<Call>, i: nat)
    requires i < |calls|
    ensures var before := HitsAfter(limit, calls[..i]);
            && Verdicts(limit, calls[..i + 1]) == Verdicts(limit, calls[..i]) + [Passes(limit, before, calls[i])]
            && HitsAfter(limit, calls[..i + 1]) == Attempt(limit, before, calls[i])
  {
    var upTo := calls[..i + 1];
    assert upTo[..i] == calls[..i] && HitsAfter(limit, upTo) == HitsAfterLast(limit, upTo);
  }

  /** Any run of calls on the object remembers what the specification remembers, and answers as it does. */
  method Serve(rl: RateLimiter, calls: seq<Call>) returns (verdicts: seq<bool>)
    requires rl.Valid() && rl.Contents() == map[]
    modifies rl`hits, rl`owner, rl.owner.Keys
    ensures rl.Valid() && rl.Contents() == HitsAfter(rl.limit, calls)
    ensures verdicts == Verdicts(rl.limit, calls)
  {
    verdicts := [];
    for i := 0 to |calls|
      invariant rl.Valid() && rl.Contents() == HitsAfter(rl.limit, calls[..i])
      invariant forall b :: b in rl.owner ==> b in old(rl.owner) || fresh(b)
      invariant verdicts == Verdicts(rl.limit, calls[..i])
    {
      ServeStep(rl.limit, calls, i);
      var ok := rl.Allow(calls[i].key, calls[i].now);
      verdicts := verdicts + [ok];
    }
    assert calls[..|calls|] == calls;
  }
}
