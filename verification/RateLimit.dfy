/** The in-memory sliding-window rate limiter that gates login, recovery,
    profile switch and restore.

    Instants and durations are whole clock ticks.  The clock is read before the
    entry lock is taken, so the readings reach one key in lock order and may
    step back; a run is the sequence of readings in that order. */
module RateLimit {

  datatype Limits = Limits(maxAttempts: nat, window: nat)

  datatype Call = Call(key: string, now: nat)

  /** Saturating difference of two instants. */
  function Age(now: nat, t: nat): nat {
    if now >= t then now - t else 0
  }

  /** The attempts younger than `window`, in their original order. */
  function Retain(ts: seq<nat>, now: nat, window: nat): seq<nat> {
    if ts == [] then []
    else
      var rest := Retain(ts[..|ts| - 1], now, window);
      if Age(now, ts[|ts| - 1]) < window then rest + [ts[|ts| - 1]] else rest
  }

  /** What the limiter stores for one key after the readings `c`. */
  function Stored(l: Limits, c: seq<nat>): seq<nat> {
    if c == [] then []
    else
      var kept := Retain(Stored(l, c[..|c| - 1]), c[|c| - 1], l.window);
      if |kept| >= l.maxAttempts then kept else kept + [c[|c| - 1]]
  }

  /** The verdict on a reading `now` that follows the readings `c`. */
  predicate Admits(l: Limits, c: seq<nat>, now: nat) {
    |Retain(Stored(l, c), now, l.window)| < l.maxAttempts
  }

  predicate AcceptedAt(l: Limits, c: seq<nat>, i: nat)
    requires i < |c|
  {
    Admits(l, c[..i], c[i])
  }

  /** How many calls of the run were accepted at a reading in [lo, hi). */
  function AcceptedIn(l: Limits, c: seq<nat>, lo: int, hi: int): nat {
    if c == [] then 0
    else
      AcceptedIn(l, c[..|c| - 1], lo, hi)
      + if Admits(l, c[..|c| - 1], c[|c| - 1]) && lo <= c[|c| - 1] < hi then 1 else 0
  }

  /** No reading falls more than `d` below an earlier one. */
  ghost predicate Skew(c: seq<nat>, d: nat) {
    forall i, j :: 0 <= i < j < |c| ==> c[i] <= c[j] + d
  }

  // ------------------------------------------------------------ the limiter

  /** The readings that reached key `k`, in lock order. */
  function ReadingsFor(normalize: string -> string, h: seq<Call>, k: string): seq<nat> {
    if h == [] then []
    else
      var rest := ReadingsFor(normalize, h[..|h| - 1], k);
      if normalize(h[|h| - 1].key) == k then rest + [h[|h| - 1].now] else rest
  }

  function EntryOf(m: map<string, seq<nat>>, k: string): seq<nat> {
    if k in m then m[k] else []
  }

  lemma {:induction false} StoredSnoc(l: Limits, c: seq<nat>, now: nat)
    ensures var kept := Retain(Stored(l, c), now, l.window);
            Stored(l, c + [now]) == if |kept| >= l.maxAttempts then kept else kept + [now]
  {
    assert (c + [now])[..|c|] == c;
  }

  lemma {:induction false} ReadingsSnoc(normalize: string -> string, h: seq<Call>, call: Call, k: string)
    ensures ReadingsFor(normalize, h + [call], k)
         == ReadingsFor(normalize, h, k) + if normalize(call.key) == k then [call.now] else []
  {
    assert (h + [call])[..|h|] == h;
  }

  /** Every entry is what its own key's readings alone produce. */
  ghost predicate Tracks(m: map<string, seq<nat>>, l: Limits, normalize: string -> string, h: seq<Call>) {
    forall k :: TracksKey(m, l, normalize, h, k)
  }

  ghost predicate TracksKey(m: map<string, seq<nat>>, l: Limits, normalize: string -> string, h: seq<Call>, k: string) {
    && EntryOf(m, k) == Stored(l, ReadingsFor(normalize, h, k))
    && (k in m <==> ReadingsFor(normalize, h, k) != [])
  }

  /** The table after one more call: pruned, and extended when admitted. */
  function Record(m: map<string, seq<nat>>, l: Limits, k: string, now: nat): map<string, seq<nat>> {
    var kept := Retain(EntryOf(m, k), now, l.window);
    m[k := if |kept| >= l.maxAttempts then kept else kept + [now]]
  }

  lemma {:induction false} RecordTracks(m: map<string, seq<nat>>, l: Limits, normalize: string -> string,
        h: seq<Call>, call: Call)
    requires Tracks(m, l, normalize, h)
    ensures Tracks(Record(m, l, normalize(call.key), call.now), l, normalize, h + [call])
  {
    forall k
      ensures TracksKey(Record(m, l, normalize(call.key), call.now), l, normalize, h + [call], k)
    {
      assert TracksKey(m, l, normalize, h, k);
      ReadingsSnoc(normalize, h, call, k);
      StoredSnoc(l, ReadingsFor(normalize, h, k), call.now);
    }
  }

  class RateLimiter {
    var attempts: map<string, seq<nat>>
    const limits: Limits
    const normalize: string -> string  // to_lowercase
    ghost var history: seq<Call>       // every call so far, in lock order

    ghost predicate Valid()
      reads this
    {
      Tracks(attempts, limits, normalize, history)
    }

    constructor (maxAttempts: nat, window: nat, normalize: string -> string)
      ensures Valid() && history == []
      ensures limits == Limits(maxAttempts, window) && this.normalize == normalize
    {
      attempts := map[];
      limits := Limits(maxAttempts, window);
      this.normalize := normalize;
      history := [];
    }

    /** The verdict depends on the earlier calls of the same normalized key only. */
    method CheckAndRecord(key: string, now: nat) returns (ok: bool)
      requires Valid()
      modifies this
      ensures Valid() && history == old(history) + [Call(key, now)]
      ensures ok == Admits(limits, ReadingsFor(normalize, old(history), normalize(key)), now)
      ensures forall k :: k != normalize(key) ==> EntryOf(attempts, k) == EntryOf(old(attempts), k)
    {
      var normalized := normalize(key);
      assert TracksKey(attempts, limits, normalize, history, normalized);
      RecordTracks(attempts, limits, normalize, history, Call(key, now));
      var entry := Retain(EntryOf(attempts, normalized), now, limits.window);
      history := history + [Call(key, now)];
      if |entry| >= limits.maxAttempts {
        attempts := attempts[normalized := entry];
        return false;
      }
      attempts := attempts[normalized := entry + [now]];
      return true;
    }
  }

  // ------------------------------------------------- the sliding-window bound

  /** How many of the stored instants lie in [lo, hi). */
  function CountIn(ts: seq<nat>, lo: int, hi: int): nat {
    if ts == [] then 0
    else CountIn(ts[..|ts| - 1], lo, hi) + if lo <= ts[|ts| - 1] < hi then 1 else 0
  }

  lemma {:induction false} CountInAtMostLength(ts: seq<nat>, lo: int, hi: int)
    ensures CountIn(ts, lo, hi) <= |ts|
  {
    if ts != [] { CountInAtMostLength(ts[..|ts| - 1], lo, hi); }
  }

  /** A reading below `lo + window` prunes nothing from [lo, hi). */
  lemma {:induction false} RetainKeepsWindow(ts: seq<nat>, now: nat, window: nat, lo: int, hi: int)
    requires now < lo + window && 0 < window
    ensures CountIn(Retain(ts, now, window), lo, hi) == CountIn(ts, lo, hi)
  {
    if ts != [] {
      var n := |ts| - 1;
      RetainKeepsWindow(ts[..n], now, window, lo, hi);
      var rest := Retain(ts[..n], now, window);
      assert (rest + [ts[n]])[..|rest|] == rest;
    }
  }

  /** While no reading has reached `lo + window`, every accepted attempt of
      [lo, hi) is still stored. */
  lemma {:induction false} AcceptedStayStored(l: Limits, c: seq<nat>, lo: int, hi: int)
    requires 0 < l.window
    requires forall i :: 0 <= i < |c| ==> c[i] < lo + l.window
    ensures CountIn(Stored(l, c), lo, hi) == AcceptedIn(l, c, lo, hi)
  {
    if c != [] {
      var n := |c| - 1;
      AcceptedStayStored(l, c[..n], lo, hi);
      RetainKeepsWindow(Stored(l, c[..n]), c[n], l.window, lo, hi);
      var kept := Retain(Stored(l, c[..n]), c[n], l.window);
      assert (kept + [c[n]])[..|kept|] == kept;
    }
  }

  /** Every half-open interval of length `window - d` holds at most
      `maxAttempts` accepted attempts; with d = 0 this is the exact bound. */
  lemma {:induction false} WindowBound(l: Limits, c: seq<nat>, d: nat, lo: int)
    requires Skew(c, d) && d <= l.window
    ensures AcceptedIn(l, c, lo, lo + l.window - d) <= l.maxAttempts
  {
    if c != [] {
      var n, hi := |c| - 1, lo + l.window - d;
      WindowBound(l, c[..n], d, lo);
      if Admits(l, c[..n], c[n]) && lo <= c[n] < hi {
        AcceptedStayStored(l, c[..n], lo, hi);
        RetainKeepsWindow(Stored(l, c[..n]), c[n], l.window, lo, hi);
        CountInAtMostLength(Retain(Stored(l, c[..n]), c[n], l.window), lo, hi);
      }
    }
  }

  lemma {:induction false} AcceptedInSnoc(l: Limits, c: seq<nat>, now: nat, lo: int, hi: int)
    ensures AcceptedIn(l, c + [now], lo, hi)
         == AcceptedIn(l, c, lo, hi) + if Admits(l, c, now) && lo <= now < hi then 1 else 0
  {
    assert (c + [now])[..|c|] == c;
  }

  lemma {:induction false} RetainAll(ts: seq<nat>, now: nat, window: nat)
    requires forall i :: 0 <= i < |ts| ==> Age(now, ts[i]) < window
    ensures Retain(ts, now, window) == ts
  {
    if ts != [] {
      RetainAll(ts[..|ts| - 1], now, window);
      assert ts == ts[..|ts| - 1] + [ts[|ts| - 1]];
    }
  }

  lemma {:induction false} RetainNone(ts: seq<nat>, now: nat, window: nat)
    requires forall i :: 0 <= i < |ts| ==> Age(now, ts[i]) >= window
    ensures Retain(ts, now, window) == []
  {
    if ts != [] { RetainNone(ts[..|ts| - 1], now, window); }
  }

  /** `n` readings at `t`. */
  function Burst(t: nat, n: nat): (r: seq<nat>)
    ensures |r| == n && forall i :: 0 <= i < n ==> r[i] == t
  {
    if n == 0 then [] else [t] + Burst(t, n - 1)
  }

  /** The run leaves `stored` behind and had `n` calls accepted in [lo, hi). */
  ghost predicate Comes(l: Limits, c: seq<nat>, stored: seq<nat>, lo: int, hi: int, n: nat) {
    Stored(l, c) == stored && AcceptedIn(l, c, lo, hi) == n
  }

  lemma {:induction false} OneAccepted(l: Limits, c: seq<nat>, stored: seq<nat>, t: nat, lo: int, hi: int, n: nat)
    requires Comes(l, c, stored, lo, hi, n) && lo <= t < hi && |stored| < l.maxAttempts
    requires forall i :: 0 <= i < |stored| ==> Age(t, stored[i]) < l.window
    ensures Comes(l, c + [t], stored + [t], lo, hi, n + 1)
  {
    RetainAll(stored, t, l.window);
    StoredSnoc(l, c, t);
    AcceptedInSnoc(l, c, t, lo, hi);
  }

  lemma {:induction false} Regroup(c: seq<nat>, t: nat, k: nat)
    requires 0 < k
    ensures c + [t] + Burst(t, k - 1) == c + Burst(t, k)
  {
  }

  /** A burst that still finds room is let through and stored whole. */
  lemma {:induction false} BurstAccepted(l: Limits, c: seq<nat>, stored: seq<nat>, t: nat, k: nat,
        lo: int, hi: int, n: nat)
    requires Comes(l, c, stored, lo, hi, n) && lo <= t < hi && 0 < l.window && |stored| + k <= l.maxAttempts
    requires forall i :: 0 <= i < |stored| ==> Age(t, stored[i]) < l.window
    ensures Comes(l, c + Burst(t, k), stored + Burst(t, k), lo, hi, n + k)
    decreases k
  {
    if k == 0 {
      assert c + Burst(t, 0) == c && stored + Burst(t, 0) == stored;
    } else {
      OneAccepted(l, c, stored, t, lo, hi, n);
      BurstAccepted(l, c + [t], stored + [t], t, k - 1, lo, hi, n + 1);
      Regroup(c, t, k);
      Regroup(stored, t, k);
    }
  }

  /** A reading a whole window after everything stored empties the entry first. */
  lemma {:induction false} AfterTheWindow(l: Limits, c: seq<nat>, stored: seq<nat>, now: nat, lo: int, hi: int, n: nat)
    requires Comes(l, c, stored, lo, hi, n) && 0 < l.maxAttempts && hi <= now
    requires forall i :: 0 <= i < |stored| ==> Age(now, stored[i]) >= l.window
    ensures Comes(l, c + [now], [now], lo, hi, n)
  {
    RetainNone(stored, now, l.window);
    StoredSnoc(l, c, now);
    AcceptedInSnoc(l, c, now, lo, hi);
  }

  /** A full burst at 0, one reading a window later, and a late burst that falls
      back by `d`. */
  function LateBurst(m: nat, window: nat, d: nat): seq<nat>
    requires 0 < m && d <= window
  {
    Burst(0, m) + [window] + Burst(window - d, m - 1)
  }

  lemma {:induction false} FirstBurstIsAccepted(l: Limits, t: nat, k: nat, lo: int, hi: int)
    requires lo <= t < hi && 0 < l.window && k <= l.maxAttempts
    ensures Comes(l, Burst(t, k), Burst(t, k), lo, hi, k)
  {
    BurstAccepted(l, [], [], t, k, lo, hi, 0);
    var burst := Burst(t, k);
    assert [] + burst == burst;
  }

  lemma {:induction false} LateBurstIsAccepted(l: Limits, d: nat)
    requires 2 <= l.maxAttempts && 0 < d <= l.window
    ensures Comes(l, LateBurst(l.maxAttempts, l.window, d), [l.window] + Burst(l.window - d, l.maxAttempts - 1),
                  0, l.window - d + 1, 2 * l.maxAttempts - 1)
  {
    var m, hi := l.maxAttempts, l.window - d + 1;
    var early := Burst(0, m) + [l.window];
    assert Comes(l, early, [l.window], 0, hi, m) by {
      FirstBurstIsAccepted(l, 0, m, 0, hi);
      AfterTheWindow(l, Burst(0, m), Burst(0, m), l.window, 0, hi, m);
    }
    BurstAccepted(l, early, [l.window], l.window - d, m - 1, 0, hi, m);
  }

  /** The bound is tight: one tick more and a skew of `d` lets through almost twice
      the limit, whatever the limit from two on. */
  lemma {:induction false} SkewBoundIsTight(m: nat, window: nat, d: nat)
    requires 2 <= m && 0 < d <= window
    ensures Skew(LateBurst(m, window, d), d)
    ensures AcceptedIn(Limits(m, window), LateBurst(m, window, d), 0, window - d + 1) == 2 * m - 1 > m
  {
    LateBurstIsAccepted(Limits(m, window), d);
  }

  // --------------------------------------------- pruning changes no verdict

  /** How many of the given attempts are younger than `window`. */
  function Young(ts: seq<nat>, now: nat, window: nat): nat {
    if ts == [] then 0
    else Young(ts[..|ts| - 1], now, window) + if Age(now, ts[|ts| - 1]) < window then 1 else 0
  }

  /** The reference limiter: every accepted attempt is kept for ever. */
  function Ledger(l: Limits, c: seq<nat>): seq<nat> {
    if c == [] then []
    else
      var all := Ledger(l, c[..|c| - 1]);
      if Young(all, c[|c| - 1], l.window) < l.maxAttempts then all + [c[|c| - 1]] else all
  }

  lemma {:induction false} RetainCounts(ts: seq<nat>, now: nat, window: nat)
    ensures |Retain(ts, now, window)| == Young(ts, now, window)
  {
    if ts != [] { RetainCounts(ts[..|ts| - 1], now, window); }
  }

  /** What an earlier reading prunes, a later one would prune as well. */
  lemma {:induction false} RetainTwice(ts: seq<nat>, earlier: nat, now: nat, window: nat)
    requires earlier <= now
    ensures Retain(Retain(ts, earlier, window), now, window) == Retain(ts, now, window)
  {
    if ts != [] {
      var n := |ts| - 1;
      RetainTwice(ts[..n], earlier, now, window);
      var rest := Retain(ts[..n], earlier, window);
      assert (rest + [ts[n]])[..|rest|] == rest;
    }
  }

  lemma {:induction false} PruningIsInvisible(l: Limits, c: seq<nat>, now: nat)
    requires Skew(c, 0) && (c != [] ==> c[|c| - 1] <= now)
    ensures Retain(Stored(l, c), now, l.window) == Retain(Ledger(l, c), now, l.window)
    ensures Admits(l, c, now) <==> Young(Ledger(l, c), now, l.window) < l.maxAttempts
  {
    RetainCounts(Ledger(l, c), now, l.window);
    if c != [] {
      var n := |c| - 1;
      var prev, last := c[..n], c[n];
      PruningIsInvisible(l, prev, last);
      PruningIsInvisible(l, prev, now);
      RetainTwice(Stored(l, prev), last, now, l.window);
      var kept, all := Retain(Stored(l, prev), last, l.window), Ledger(l, prev);
      assert (kept + [last])[..|kept|] == kept;
      assert (all + [last])[..|all|] == all;
    }
  }

  // ------------------------------------------------------- rejected calls

  lemma {:induction false} StoredWithinLimit(l: Limits, c: seq<nat>)
    ensures |Stored(l, c)| <= l.maxAttempts
  {
    if c != [] {
      StoredWithinLimit(l, c[..|c| - 1]);
      RetainShrinks(Stored(l, c[..|c| - 1]), c[|c| - 1], l.window);
    }
  }

  lemma {:induction false} RetainShrinks(ts: seq<nat>, now: nat, window: nat)
    ensures |Retain(ts, now, window)| <= |ts|
    ensures |Retain(ts, now, window)| == |ts| ==> Retain(ts, now, window) == ts
  {
    if ts != [] { RetainShrinks(ts[..|ts| - 1], now, window); }
  }

  /** With any clock at all, a rejected call leaves the entry as it was: it
      cannot even have pruned it. */
  lemma {:induction false} RejectedCallIsNoOp(l: Limits, c: seq<nat>, now: nat)
    requires !Admits(l, c, now)
    ensures Stored(l, c + [now]) == Stored(l, c)
  {
    assert (c + [now])[..|c|] == c;
    StoredWithinLimit(l, c);
    RetainShrinks(Stored(l, c), now, l.window);
  }

  /** The first `j` readings without the `i`-th. */
  function Skipping(c: seq<nat>, i: nat, j: nat): seq<nat>
    requires i < j <= |c|
  {
    c[..i] + c[i + 1..j]
  }

  /** Deleting a rejected call from a run changes no later verdict. */
  lemma {:induction false} DeletingRejectedCall(l: Limits, c: seq<nat>, i: nat, j: nat)
    requires i < j < |c| && !AcceptedAt(l, c, i)
    ensures AcceptedAt(l, c, j) <==> AcceptedAt(l, Skipping(c, i, |c|), j - 1)
  {
    StoredWithoutRejected(l, c, i, j);
    assert Skipping(c, i, |c|)[..j - 1] == Skipping(c, i, j);
  }

  lemma {:induction false} SameAfterOneMore(l: Limits, a: seq<nat>, b: seq<nat>, now: nat)
    requires Stored(l, a) == Stored(l, b)
    ensures Stored(l, a + [now]) == Stored(l, b + [now])
  {
    StoredSnoc(l, a, now);
    StoredSnoc(l, b, now);
  }

  lemma {:induction false} SkippingSnoc(c: seq<nat>, i: nat, j: nat)
    requires i < j <= |c|
    ensures j == i + 1 ==> Skipping(c, i, j) == c[..i] && c[..j] == c[..i] + [c[i]]
    ensures i + 1 < j ==> Skipping(c, i, j) == Skipping(c, i, j - 1) + [c[j - 1]] && c[..j] == c[..j - 1] + [c[j - 1]]
  {
  }

  lemma {:induction false} StoredWithoutRejected(l: Limits, c: seq<nat>, i: nat, j: nat)
    requires i < j <= |c| && !AcceptedAt(l, c, i)
    ensures Stored(l, c[..j]) == Stored(l, Skipping(c, i, j))
    decreases j
  {
    SkippingSnoc(c, i, j);
    if j == i + 1 {
      RejectedCallIsNoOp(l, c[..i], c[i]);
    } else {
      StoredWithoutRejected(l, c, i, j - 1);
      SameAfterOneMore(l, c[..j - 1], Skipping(c, i, j - 1), c[j - 1]);
    }
  }
}
