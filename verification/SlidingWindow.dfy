/** lumen/platform/rate_limit.py, `RedisRateLimiter`: a sorted set per key, trimmed on every look and
    expiring as a whole, that must answer like a count over the full history of allowed hits. */
module SlidingWindow {
  import opened Prelude

  /** A Redis sorted set (member to score) and when its key expires. */
  datatype KeyState = KeyState(scores: map<string, real>, expireAt: Option<real>)

  const EMPTY_KEY := KeyState(map[], None)

  /** EXPIRE is given int(window) + 5. */
  function Ttl(window: real): real {
    (Trunc(window) + 5) as real
  }

  /** What the store still holds of a key. */
  function Live(k: KeyState, now: real): map<string, real> {
    if k.expireAt.Some? && now >= k.expireAt.value then map[] else k.scores
  }

  /** ZREMRANGEBYSCORE key 0 cutoff. */
  function Trim(scores: map<string, real>, cutoff: real): map<string, real> {
    map m | m in scores && !(0.0 <= scores[m] <= cutoff) :: scores[m]
  }

  function Current(k: KeyState, now: real, window: real): map<string, real> {
    Trim(Live(k, now), now - window)
  }

  /** The atomic script behind `allow`. */
  function AfterAllow(k: KeyState, now: real, window: real, limit: int, member: string): (KeyState, bool) {
    if limit <= 0 then (k, true)
    else
      var scores := Current(k, now, window);
      if |scores| >= limit then (k.(scores := scores), false)
      else (KeyState(scores[member := now], Some(now + Ttl(window))), true)
  }

  /** `remaining` and `seconds_until_allow` trim as well. */
  function AfterLook(k: KeyState, now: real, window: real, limit: int): KeyState {
    if limit <= 0 then k else k.(scores := Current(k, now, window))
  }

  function RemainingIn(k: KeyState, now: real, window: real, limit: int): int {
    if limit <= 0 then 1_000_000_000 else Max(0, limit - |Current(k, now, window)|)
  }

  ghost predicate IsOldest(scores: map<string, real>, at: real) {
    && (exists m :: m in scores && scores[m] == at)
    && (forall m | m in scores :: at <= scores[m])
  }

  /** What `seconds_until_allow` answers when the oldest score is `oldest` (unused if there is none). */
  function WaitIn(k: KeyState, now: real, window: real, limit: int, oldest: real): int {
    if limit <= 0 then 0
    else
      var scores := Current(k, now, window);
      if |scores| < limit || scores == map[] then 0 else Max(1, Trunc(oldest + window - now) + 1)
  }

  datatype Call = Hitting(now: real, limit: int, member: string) | Looking(now: real, limit: int)

  function AfterCall(k: KeyState, window: real, c: Call): KeyState {
    match c
    case Hitting(now, limit, member) => AfterAllow(k, now, window, limit, member).0
    case Looking(now, limit) => AfterLook(k, now, window, limit)
  }

  /** What other clients do to the key, one command or script at a time. */
  function AfterCalls(k: KeyState, window: real, calls: seq<Call>): KeyState {
    if calls == [] then k else AfterCall(AfterCalls(k, window, calls[..|calls| - 1]), window, calls[|calls| - 1])
  }

  /** `remaining`: ZREMRANGEBYSCORE, and then, after what others did meanwhile, ZCARD. */
  function LeftOf(k: KeyState, limit: int, later: real): int {
    Max(0, limit - |Live(k, later)|)
  }

  /** `seconds_until_allow` after its three commands: the oldest score that ZRANGE saw, if it saw any, and
      what ZCARD counted. */
  function WaitOf(oldest: Option<real>, count: nat, limit: int, window: real, now: real): int {
    if count < limit || oldest.None? then 0 else Max(1, Trunc(oldest.value + window - now) + 1)
  }

  class RedisRateLimiter {
    var keys: map<string, KeyState>

    constructor ()
      ensures keys == map[]
    {
      keys := map[];
    }

    function At(key: string): KeyState
      reads this
    {
      if key in keys then keys[key] else EMPTY_KEY
    }

    method Allow(key: string, limit: int, window: real, now: real, member: string) returns (allowed: bool)
      modifies this
      ensures (At(key), allowed) == AfterAllow(old(At(key)), now, window, limit, member)
      ensures forall other | other != key :: At(other) == old(At(other))
    {
      if limit <= 0 {
        return true;
      }
      var k := At(key);
      var scores := Trim(Live(k, now), now - window);
      if |scores| >= limit {
        keys := keys[key := k.(scores := scores)];
        return false;
      }
      keys := keys[key := KeyState(scores[member := now], Some(now + Ttl(window)))];
      allowed := true;
    }

    method ZRemRangeByScore(key: string, now: real, window: real)
      modifies this
      ensures At(key) == old(At(key)).(scores := Current(old(At(key)), now, window))
      ensures forall other | other != key :: At(other) == old(At(other))
    {
      var k := At(key);
      keys := keys[key := k.(scores := Trim(Live(k, now), now - window))];
    }

    method ZCard(key: string, now: real) returns (n: nat)
      ensures n == |Live(At(key), now)|
    {
      n := |Live(At(key), now)|;
    }

    method Others(key: string, window: real, calls: seq<Call>)
      modifies this
      ensures At(key) == AfterCalls(old(At(key)), window, calls)
      ensures forall other | other != key :: At(other) == old(At(other))
    {
      for i := 0 to |calls|
        invariant At(key) == AfterCalls(old(At(key)), window, calls[..i])
        invariant forall other | other != key :: At(other) == old(At(other))
      {
        assert calls[..i + 1][..i] == calls[..i];
        match calls[i] {
          case Hitting(now, limit, member) =>
            var _ := Allow(key, limit, window, now, member);
          case Looking(now, limit) =>
            if limit > 0 {
              ZRemRangeByScore(key, now, window);
            }
        }
      }
      assert calls[..|calls|] == calls;
    }

    /** Two commands; `others` is what other clients do between them, and `later` when the second one runs. */
    method Remaining(key: string, limit: int, window: real, now: real, others: seq<Call>, later: real)
            returns (left: int)
      modifies this
      ensures limit <= 0 ==> left == 1_000_000_000 && At(key) == old(At(key))
      ensures limit > 0 ==>
        && At(key) == AfterCalls(AfterLook(old(At(key)), now, window, limit), window, others)
        && left == LeftOf(At(key), limit, later)
      ensures forall other | other != key :: At(other) == old(At(other))
    {
      if limit <= 0 {
        return 1_000_000_000;
      }
      ZRemRangeByScore(key, now, window);
      Others(key, window, others);
      var used := ZCard(key, later);
      left := Max(0, limit - used);
    }

    /** Three commands, with other clients between them. */
    method SecondsUntilAllow(key: string, limit: int, window: real, now: real,
                             others1: seq<Call>, then1: real, others2: seq<Call>, then2: real)
      returns (wait: int, ghost oldest: Option<real>)
      modifies this
      ensures limit <= 0 ==> wait == 0 && At(key) == old(At(key))
      ensures limit > 0 ==>
        var seen := AfterCalls(AfterLook(old(At(key)), now, window, limit), window, others1);
        && At(key) == AfterCalls(seen, window, others2)
        && (oldest.None? <==> Live(seen, then1) == map[])
        && (oldest.Some? ==> IsOldest(Live(seen, then1), oldest.value))
        && wait == WaitOf(oldest, |Live(At(key), then2)|, limit, window, now)
      ensures forall other | other != key :: At(other) == old(At(other))
    {
      oldest := None;
      if limit <= 0 {
        return 0, None;
      }
      ZRemRangeByScore(key, now, window);
      Others(key, window, others1);
      var members := ZRangeFirst(key, then1);
      oldest := members;
      Others(key, window, others2);
      var count := ZCard(key, then2);
      if count < limit || members.None? {
        return 0, oldest;
      }
      wait := Max(1, Trunc(members.value + window - now) + 1);
    }

    /** ZRANGE key 0 0 WITHSCORES. */
    method ZRangeFirst(key: string, now: real) returns (at: Option<real>)
      ensures at.None? <==> Live(At(key), now) == map[]
      ensures at.Some? ==> IsOldest(Live(At(key), now), at.value)
    {
      var members := Live(At(key), now);
      if members == map[] {
        return None;
      }
      var first := First(members);
      at := Some(first);
    }
  }

  /** The smallest score. */
  method First(scores: map<string, real>) returns (at: real)
    requires scores != map[]
    ensures IsOldest(scores, at)
  {
    var m :| m in scores;
    at := scores[m];
    var rest := scores.Keys;
    while rest != {}
      invariant rest <= scores.Keys
      invariant exists n :: n in scores && scores[n] == at
      invariant forall n | n in scores && n !in rest :: at <= scores[n]
      decreases |rest|
    {
      var n :| n in rest;
      if scores[n] < at {
        at := scores[n];
      }
      rest := rest - {n};
    }
  }

  // ------------------------------------------------------------------ the untrimmed history

  /** Every allowed hit ever made, by member. */
  type History = map<string, real>

  /** The hits in (lo, hi]. */
  function Between(hits: History, lo: real, hi: real): set<string> {
    set m | m in hits && lo < hits[m] <= hi
  }

  /** The hits in the window that ends at t. */
  function InWindow(hits: History, window: real, t: real): set<string> {
    Between(hits, t - window, t)
  }

  /** The hits later than `edge`. */
  function Since(hits: History, edge: real): History {
    map m | m in hits && hits[m] > edge :: hits[m]
  }

  /** The limiter's key, the hits it let through, and its last answer. */
  datatype Run = Run(key: KeyState, hits: History, answer: bool)

  const START := Run(EMPTY_KEY, map[], true)

  function Next(window: real, r: Run, c: Call): Run {
    match c
    case Hitting(now, limit, member) =>
      var (k, ok) := AfterAllow(r.key, now, window, limit, member);
      Run(k, if ok && limit > 0 then r.hits[member := now] else r.hits, ok)
    case Looking(now, limit) => r.(key := AfterLook(r.key, now, window, limit))
  }

  function Exec(window: real, calls: seq<Call>): Run {
    if calls == [] then START else Next(window, Exec(window, calls[..|calls| - 1]), calls[|calls| - 1])
  }

  /** What others do to a key between two commands is such a run of calls. */
  lemma {:induction false} RunsAreCalls(window: real, calls: seq<Call>)
    ensures AfterCalls(EMPTY_KEY, window, calls) == Exec(window, calls).key
  {
    if calls != [] {
      RunsAreCalls(window, calls[..|calls| - 1]);
    }
  }

  function Latest(calls: seq<Call>): real {
    if calls == [] then 0.0 else calls[|calls| - 1].now
  }

  /** Clocks do not run backwards from zero, and no two hits use the same member. */
  ghost predicate Regular(calls: seq<Call>) {
    && (forall i | 0 <= i < |calls| :: calls[i].now >= 0.0)
    && (forall i, j | 0 <= i < j < |calls| :: calls[i].now <= calls[j].now)
    && (forall i, j | 0 <= i < j < |calls| && calls[i].Hitting? && calls[j].Hitting? ::
          calls[i].member != calls[j].member)
  }

  /** The set holds only recorded hits, misses none that is still in the window, and does not expire
      before its newest hit has left every window. */
  ghost predicate Tracks(window: real, r: Run, last: real) {
    && (forall m | m in r.hits :: 0.0 <= r.hits[m] <= last)
    && (forall m | m in r.key.scores :: m in r.hits && r.key.scores[m] == r.hits[m])
    && (forall m | m in r.hits && r.hits[m] > last - window :: m in r.key.scores)
    && (r.key.expireAt.Some? ==> forall m | m in r.hits :: r.hits[m] + Ttl(window) <= r.key.expireAt.value)
  }

  /** A key's lifetime exceeds its window. */
  lemma TtlOutlivesWindow(window: real)
    ensures Ttl(window) > window
  {
  }

  /** At any later moment the trimmed and possibly expired set is the exact window of the history. */
  lemma CurrentIsWindow(window: real, r: Run, last: real, now: real)
    requires Tracks(window, r, last) && last <= now
    ensures Current(r.key, now, window) == Since(r.hits, now - window)
    ensures |Current(r.key, now, window)| == |Between(r.hits, now - window, now)|
  {
    TtlOutlivesWindow(window);
    var scores, recent := Current(r.key, now, window), Since(r.hits, now - window);
    assert scores == recent;
    assert recent.Keys == Between(r.hits, now - window, now);
  }

  lemma NextTracks(window: real, r: Run, last: real, c: Call)
    requires Tracks(window, r, last) && last <= c.now && c.now >= 0.0
    requires c.Hitting? ==> c.member !in r.hits
    ensures Tracks(window, Next(window, r, c), c.now)
  {
    CurrentIsWindow(window, r, last, c.now);
  }

  predicate Used(calls: seq<Call>, m: string) {
    exists j | 0 <= j < |calls| :: calls[j].Hitting? && calls[j].member == m
  }

  lemma {:induction false} RunTracks(window: real, calls: seq<Call>)
    requires Regular(calls)
    ensures Tracks(window, Exec(window, calls), Latest(calls))
    ensures forall m | m in Exec(window, calls).hits :: Used(calls, m)
  {
    if calls != [] {
      var n := |calls| - 1;
      var most := calls[..n];
      RunTracks(window, most);
      forall m | Used(most, m) ensures Used(calls, m) && (calls[n].Hitting? ==> m != calls[n].member) {
        var j :| 0 <= j < |most| && most[j].Hitting? && most[j].member == m;
        assert calls[j] == most[j];
      }
      NextTracks(window, Exec(window, most), Latest(most), calls[n]);
      if calls[n].Hitting? {
        assert Used(calls, calls[n].member);
      }
    }
  }

  /** Refinement: whatever was trimmed or expired before, `allow` answers like a count of the hits in
      (now - window, now] over the full history, and `remaining` reports the exact number left. */
  lemma AnswersLikeFullHistory(window: real, calls: seq<Call>, now: real, limit: int, member: string)
    requires Regular(calls) && 0.0 <= now && Latest(calls) <= now
    ensures var r := Exec(window, calls);
            var used := |Between(r.hits, now - window, now)|;
            && (AfterAllow(r.key, now, window, limit, member).1 <==> limit <= 0 || used < limit)
            && (limit > 0 ==> RemainingIn(r.key, now, window, limit) == Max(0, limit - used))
  {
    RunTracks(window, calls);
    CurrentIsWindow(window, Exec(window, calls), Latest(calls), now);
  }

  lemma NextHolds(window: real, r: Run, last: real, c: Call)
    requires Tracks(window, r, last) && last <= c.now && c.limit > 0 && window > 0.0
    ensures Next(window, r, c).key.scores == Since(Next(window, r, c).hits, c.now - window)
  {
    hide Tracks, Current;
    CurrentIsWindow(window, r, last, c.now);
  }

  /** What is kept is exactly what still counts: after any call under a positive limit, a refused one and a
      look included, the set holds the hits of the window that ends then, and no older one. */
  lemma HoldsExactlyTheWindow(window: real, calls: seq<Call>)
    requires Regular(calls) && calls != [] && window > 0.0
    requires calls[|calls| - 1].limit > 0
    ensures var r := Exec(window, calls);
            r.key.scores == Since(r.hits, Latest(calls) - window)
  {
    hide Tracks, Next, Since;
    var n := |calls| - 1;
    RunTracks(window, calls[..n]);
    NextHolds(window, Exec(window, calls[..n]), Latest(calls[..n]), calls[n]);
  }

  /** The key of an allowed hit lives for the whole seconds of the window and five more, and is gone then. */
  lemma KeyLivesFor(k: KeyState, now: real, window: real, limit: int, member: string, later: real)
    requires limit > 0 && window >= 0.0 && AfterAllow(k, now, window, limit, member).1
    ensures var after := AfterAllow(k, now, window, limit, member).0;
            Live(after, later) == if later < now + (window.Floor + 5) as real then after.scores else map[]
  {
  }

  /** A limit of zero or less is no limit, and leaves the key alone. */
  lemma NoLimitNoTrace(k: KeyState, now: real, window: real, limit: int, member: string, oldest: real)
    requires limit <= 0
    ensures AfterAllow(k, now, window, limit, member) == (k, true) && AfterLook(k, now, window, limit) == k
    ensures RemainingIn(k, now, window, limit) == 1_000_000_000 && WaitIn(k, now, window, limit, oldest) == 0
  {
  }

  /** With nobody in between, the commands of `remaining` and `seconds_until_allow` answer as one. */
  lemma UndisturbedLook(k: KeyState, now: real, window: real, limit: int, oldest: Option<real>)
    requires limit > 0
    ensures LeftOf(AfterLook(k, now, window, limit), limit, now) == RemainingIn(k, now, window, limit)
    ensures (oldest.None? <==> Live(AfterLook(k, now, window, limit), now) == map[]) ==>
      WaitOf(oldest, |Live(AfterLook(k, now, window, limit), now)|, limit, window, now) ==
      WaitIn(k, now, window, limit, if oldest.Some? then oldest.value else 0.0)
  {
    assert Live(AfterLook(k, now, window, limit), now) == Current(k, now, window);
  }

  /** Whatever others did between the two commands, a positive `remaining` means that `allow` would succeed
      at the moment of the second one; it is reported exactly when fewer than `limit` scores are held then. */
  lemma RemainingIsSafe(k: KeyState, window: real, limit: int, later: real, member: string)
    requires limit > 0
    ensures LeftOf(k, limit, later) > 0 <==> |Live(k, later)| < limit
    ensures LeftOf(k, limit, later) > 0 ==> AfterAllow(k, later, window, limit, member).1
  {
    SubsetSize(Current(k, later, window).Keys, Live(k, later).Keys);
  }

  /** Zero seconds to wait is right at the moment of the last command, unless the set was empty when ZRANGE
      looked and full when ZCARD counted. */
  lemma ZeroWaitIsRight(k: KeyState, oldest: Option<real>, window: real, limit: int, now: real, then2: real,
          member: string)
    requires limit > 0 && WaitOf(oldest, |Live(k, then2)|, limit, window, now) == 0
    ensures |Live(k, then2)| < limit ==> AfterAllow(k, then2, window, limit, member).1
    ensures |Live(k, then2)| >= limit ==> oldest.None?
  {
    SubsetSize(Current(k, then2, window).Keys, Live(k, then2).Keys);
  }

  /** `remaining` is positive exactly when `allow` would succeed. */
  lemma RemainingIffAllowed(k: KeyState, now: real, window: real, limit: int, member: string)
    ensures RemainingIn(k, now, window, limit) > 0 <==> AfterAllow(k, now, window, limit, member).1
  {
  }

  // ------------------------------------------------------------------ the limit holds in every window

  lemma SubsetSize(a: set<string>, b: set<string>)
    requires a <= b
    ensures |a| <= |b|
  {
    assert b == a + (b - a);
  }

  ghost predicate EveryWindowFits(window: real, hits: History, limit: int) {
    forall t :: |InWindow(hits, window, t)| <= limit
  }

  /** With one limit per key, no window of any run, wherever it starts, holds more hits than that. */
  lemma {:induction false} NoWindowExceedsLimit(window: real, limit: int, calls: seq<Call>)
    requires Regular(calls) && limit > 0
    requires forall i | 0 <= i < |calls| && calls[i].Hitting? :: calls[i].limit == limit
    ensures EveryWindowFits(window, Exec(window, calls).hits, limit)
  {
    if calls != [] {
      var most, c := calls[..|calls| - 1], calls[|calls| - 1];
      forall i | 0 <= i < |most| && most[i].Hitting? ensures most[i].limit == limit {
        assert most[i] == calls[i];
      }
      NoWindowExceedsLimit(window, limit, most);
      RunTracks(window, most);
      NextFits(window, limit, Exec(window, most), Latest(most), c);
    }
  }

  lemma NextFits(window: real, limit: int, r: Run, last: real, c: Call)
    requires limit > 0 && Tracks(window, r, last) && last <= c.now && (c.Hitting? ==> c.limit == limit)
    requires EveryWindowFits(window, r.hits, limit)
    ensures EveryWindowFits(window, Next(window, r, c).hits, limit)
  {
    CurrentIsWindow(window, r, last, c.now);
    if c.Hitting? && Next(window, r, c).answer {
      var hits := Next(window, r, c).hits;
      forall t ensures |InWindow(hits, window, t)| <= limit {
        OneMoreHit(window, r.hits, c.member, c.now, t, limit);
      }
    }
  }

  /** A hit that fits its own window, made after all others, leaves every window within the limit. */
  lemma OneMoreHit(window: real, hits: History, member: string, now: real, t: real, limit: int)
    requires forall m | m in hits :: hits[m] <= now
    requires |Between(hits, now - window, now)| < limit && |InWindow(hits, window, t)| <= limit
    ensures |InWindow(hits[member := now], window, t)| <= limit
  {
    var after := Between(hits[member := now], t - window, t);
    if t < now {
      SubsetSize(after, Between(hits, t - window, t));
    } else {
      SubsetSize(after, Between(hits, now - window, now) + {member});
    }
  }

  // ------------------------------------------------------------------ seconds_until_allow

  /** While nobody else hits the key, a later look holds the scores of this one that are still in the
      window then. */
  lemma LaterLook(window: real, r: Run, last: real, now: real, later: real, limit: int)
    requires Tracks(window, r, last) && last <= now <= later && 0.0 <= now && limit > 0
    ensures Current(AfterLook(r.key, now, window, limit), later, window) ==
            Since(Current(r.key, now, window), later - window)
  {
    CurrentIsWindow(window, r, last, now);
    NextTracks(window, r, last, Looking(now, limit));
    CurrentIsWindow(window, Next(window, r, Looking(now, limit)), now, later);
  }

  /** Zero seconds to wait means exactly that a hit is let in now. */
  lemma ZeroWaitIffAllowed(k: KeyState, now: real, window: real, limit: int, member: string, oldest: real)
    ensures WaitIn(k, now, window, limit, oldest) == 0 <==> AfterAllow(k, now, window, limit, member).1
  {
    assert Current(k, now, window) == map[] ==> |Current(k, now, window)| == 0;
  }

  /** A positive wait is tight: no hit is let in strictly before the oldest one leaves the window, and
      the answer overshoots that moment by at most a second. */
  lemma WaitIsTight(window: real, r: Run, last: real, now: real, later: real, limit: int, member: string, oldest: real)
    requires Tracks(window, r, last) && last <= now <= later && 0.0 <= now
    requires WaitIn(r.key, now, window, limit, oldest) > 0 && IsOldest(Current(r.key, now, window), oldest)
    ensures later < oldest + window ==>
              !AfterAllow(AfterLook(r.key, now, window, limit), later, window, limit, member).1
    ensures oldest + window < now + WaitIn(r.key, now, window, limit, oldest) as real <= oldest + window + 1.0
  {
    CurrentIsWindow(window, r, last, now);
    LaterLook(window, r, last, now, later, limit);
    var scores := Current(r.key, now, window);
    if later < oldest + window {
      assert Since(scores, later - window) == scores;
    }
  }

  /** The hits that are outside the window once its far edge has moved to `edge`. */
  function Leaving(scores: History, edge: real): set<string> {
    set m | m in scores && scores[m] <= edge
  }

  lemma LeavingSplits(scores: History, edge: real)
    ensures |scores| == |Since(scores, edge)| + |Leaving(scores, edge)|
  {
    var left, gone := Since(scores, edge).Keys, Leaving(scores, edge);
    assert scores.Keys == left + gone && left !! gone;
  }

  /** Waiting as long as told is enough exactly when more hits leave the window meanwhile than the set
      holds beyond one less than the limit. */
  lemma WaitSufficesIff(window: real, r: Run, last: real, now: real, limit: int, member: string, oldest: real)
    requires Tracks(window, r, last) && last <= now && 0.0 <= now
    requires WaitIn(r.key, now, window, limit, oldest) > 0
    ensures var later := now + WaitIn(r.key, now, window, limit, oldest) as real;
            var scores := Current(r.key, now, window);
            AfterAllow(AfterLook(r.key, now, window, limit), later, window, limit, member).1 <==>
            |Leaving(scores, later - window)| > |scores| - limit
  {
    var later := now + WaitIn(r.key, now, window, limit, oldest) as real;
    LaterLook(window, r, last, now, later, limit);
    LeavingSplits(Current(r.key, now, window), later - window);
    hide Current, AfterLook, Tracks, Since, Leaving;
  }

  /** So it is always enough when the set holds no more hits than the limit asked about, which is so on
      every run with one limit (`NoWindowExceedsLimit`): the oldest hit is gone by then. */
  lemma WaitIsSufficient(window: real, r: Run, last: real, now: real, limit: int, member: string, oldest: real)
    requires Tracks(window, r, last) && last <= now && 0.0 <= now
    requires WaitIn(r.key, now, window, limit, oldest) > 0 && IsOldest(Current(r.key, now, window), oldest)
    requires |Current(r.key, now, window)| <= limit
    ensures var later := now + WaitIn(r.key, now, window, limit, oldest) as real;
            AfterAllow(AfterLook(r.key, now, window, limit), later, window, limit, member).1
  {
    hide Current, AfterLook, AfterAllow, WaitIn, Tracks;
    var later := now + WaitIn(r.key, now, window, limit, oldest) as real;
    var scores := Current(r.key, now, window);
    WaitIsTight(window, r, last, now, now, limit, member, oldest);
    WaitSufficesIff(window, r, last, now, limit, member, oldest);
    var m :| m in scores && scores[m] == oldest;
    assert m in Leaving(scores, later - window);
  }

  /** On every run with one limit the wait is therefore enough. */
  lemma RunWaitIsSufficient(window: real, calls: seq<Call>, now: real, limit: int, member: string, oldest: real)
    requires Regular(calls) && 0.0 <= now && Latest(calls) <= now && limit > 0
    requires forall i | 0 <= i < |calls| && calls[i].Hitting? :: calls[i].limit == limit
    requires var k := Exec(window, calls).key;
             WaitIn(k, now, window, limit, oldest) > 0 && IsOldest(Current(k, now, window), oldest)
    ensures var k := Exec(window, calls).key;
            var later := now + WaitIn(k, now, window, limit, oldest) as real;
            AfterAllow(AfterLook(k, now, window, limit), later, window, limit, member).1
  {
    hide Exec, Current, AfterAllow, AfterLook, WaitIn, IsOldest, Tracks, Between, Since, Regular;
    var r := Exec(window, calls);
    RunTracks(window, calls);
    NoWindowExceedsLimit(window, limit, calls);
    CurrentIsWindow(window, r, Latest(calls), now);
    assert |InWindow(r.hits, window, now)| <= limit;
    WaitIsSufficient(window, r, Latest(calls), now, limit, member, oldest);
  }

  /** A limit lowered between calls breaks this: two hits more than a second apart under limit two, then a
      look and a later hit under limit one. Only the first has left the window by then. */
  lemma LoweredLimitWaitsTooShort(window: real, t1: real, t2: real, now: real, a: string, b: string, member: string)
    requires a != b && 0.0 <= t1 && t1 + 1.0 < t2 <= now < t1 + window
    ensures var calls := [Hitting(t1, 2, a), Hitting(t2, 2, b)];
            var k := Exec(window, calls).key;
            var wait := WaitIn(k, now, window, 1, t1);
            && Regular(calls) && IsOldest(Current(k, now, window), t1) && wait > 0
            && !AfterAllow(AfterLook(k, now, window, 1), now + wait as real, window, 1, member).1
  {
    var calls := [Hitting(t1, 2, a), Hitting(t2, 2, b)];
    hide Exec, Tracks, Current, Regular;
    TwoHitsHeld(window, t1, t2, now, a, b);
    var r := Exec(window, calls);
    var later := now + WaitIn(r.key, now, window, 1, t1) as real;
    WaitAfterTwo(r.key, window, t1, now, a, b, t2);
    LaterLook(window, r, t2, now, later, 1);
    StillThere(Current(r.key, now, window), b, later - window);
    hide WaitIn, AfterLook, Since;
  }

  lemma TwoHitsHeld(window: real, t1: real, t2: real, now: real, a: string, b: string)
    requires a != b && 0.0 <= t1 < t2 <= now < t1 + window
    ensures var calls := [Hitting(t1, 2, a), Hitting(t2, 2, b)];
            && Regular(calls) && Tracks(window, Exec(window, calls), t2)
            && Current(Exec(window, calls).key, now, window) == map[a := t1, b := t2]
  {
    var calls := [Hitting(t1, 2, a), Hitting(t2, 2, b)];
    assert Regular(calls);
    hide Regular, Since;
    TwoHits(window, t1, t2, a, b);
    RunTracks(window, calls);
    assert Latest(calls) == t2;
    hide Exec, Tracks, Current;
    CurrentIsWindow(window, Exec(window, calls), t2, now);
    SinceBoth(a, t1, b, t2, now - window);
  }

  lemma SinceBoth(a: string, t1: real, b: string, t2: real, edge: real)
    requires edge < t1 < t2
    ensures Since(map[a := t1, b := t2], edge) == map[a := t1, b := t2]
  {
  }

  lemma WaitAfterTwo(k: KeyState, window: real, t1: real, now: real, a: string, b: string, t2: real)
    requires a != b && t1 < t2 && now < t1 + window && Current(k, now, window) == map[a := t1, b := t2]
    ensures IsOldest(Current(k, now, window), t1)
    ensures 0 < WaitIn(k, now, window, 1, t1)
    ensures now + WaitIn(k, now, window, 1, t1) as real - window <= t1 + 1.0
  {
    var scores := map[a := t1, b := t2];
    assert a in scores && b in scores && |scores| == 2;
    hide Current;
  }

  lemma StillThere(scores: History, b: string, edge: real)
    requires b in scores && scores[b] > edge
    ensures |Since(scores, edge)| >= 1
  {
    assert b in Since(scores, edge);
    SubsetSize({b}, Since(scores, edge).Keys);
  }

  lemma TwoHits(window: real, t1: real, t2: real, a: string, b: string)
    requires a != b && 0.0 <= t1 < t2 < t1 + window
    ensures var r := Exec(window, [Hitting(t1, 2, a), Hitting(t2, 2, b)]);
            r.hits == map[a := t1, b := t2]
  {
    var c1, c2 := Hitting(t1, 2, a), Hitting(t2, 2, b);
    assert [c1, c2][..1] == [c1] && [c1][..0] == [];
    TtlOutlivesWindow(window);
    var r1 := Next(window, START, c1);
    assert Exec(window, [c1]) == r1;
    assert r1.key.scores == map[a := t1];
    assert Current(r1.key, t2, window) == map[a := t1];
    assert |map[a := t1]| == 1;
  }
}
