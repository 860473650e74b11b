/** The sliding-window limiter of the gateway (packages/provider-gateway/src/sip_gateway/app.py). */
module RateLimiting {

  const WINDOW := 60.0

  ghost predicate Ascending(s: seq<real>) {
    forall i, j :: 0 <= i < j < |s| ==> s[i] <= s[j]
  }

  /** The part of an ascending history later than `start`. */
  function After(history: seq<real>, start: real): (recent: seq<real>)
    ensures |recent| <= |history|
  {
    if history == [] || history[0] > start then history else After(history[1..], start)
  }

  /** How many entries lie in the half-open window (end - 60, end]. */
  function InWindow(history: seq<real>, end: real): nat {
    if history == [] then 0
    else InWindow(history[..|history| - 1], end) + if end - 60.0 < history[|history| - 1] <= end then 1 else 0
  }

  /** Every acceptance counts once, in exactly the windows that contain it. */
  lemma {:induction false} WindowCounts(a: seq<real>, b: seq<real>, end: real)
    ensures InWindow(a + b, end) == InWindow(a, end) + InWindow(b, end)
    ensures forall x :: InWindow([x], end) == if x <= end < x + 60.0 then 1 else 0
  {
    forall x ensures InWindow([x], end) == if x <= end < x + 60.0 then 1 else 0 {
      assert [x][..0] == [];
    }
    if b == [] {
      assert a + b == a;
    } else {
      WindowCounts(a, b[..|b| - 1], end);
      assert (a + b)[..|a + b| - 1] == a + b[..|b| - 1];
    }
  }

  class RateLimiter {
    const limit: int
    var hits: seq<real>
    /** The times of all calls and of the accepted ones, and the latest reading of the clock. */
    ghost var calls: seq<real>
    ghost var accepted: seq<real>
    ghost var last: real

    constructor (limit: int, ghost start: real)
      ensures Valid() && this.limit == limit && calls == [] && last == start
    {
      this.limit := limit;
      hits := [];
      calls := [];
      accepted := [];
      last := start;
    }

    /** The queue is the accepted history of the last minute, and the limit was never exceeded. */
    ghost predicate Valid()
      reads this
    {
      && accepted == AcceptedBy(limit, calls)
      && Ascending(accepted)
      && (accepted != [] ==> accepted[|accepted| - 1] <= last)
      && SuffixSince(accepted, hits, last - WINDOW)
      && Spaced(accepted, limit)
    }

    /** With a clock that does not run backwards, a call is refused exactly when its window is full. */
    method Allow(now: real) returns (ok: bool)
      requires Valid() && now >= last
      modifies this
      ensures Valid() && last == now && calls == old(calls) + [now]
      ensures ok <==> InWindow(old(accepted), now) < limit
      ensures accepted == if ok then old(accepted) + [now] else old(accepted)
      ensures hits == After(accepted, now - WINDOW)
    {
      hide Ascending, Spaced, SuffixSince, After, InWindow, AcceptedBy;
      var windowStart := now - WINDOW;
      SuffixLater(accepted, hits, last - WINDOW, windowStart);
      while hits != [] && hits[0] <= windowStart
        invariant accepted == old(accepted) && last == old(last) && calls == old(calls)
        invariant SuffixSince(accepted, hits, windowStart)
        decreases |hits|
      {
        DropFirst(accepted, hits, windowStart);
        hits := hits[1..];
      }
      CallOutcome(accepted, hits, limit, now);
      last := now;
      AcceptedNext(limit, calls, now);
      calls := calls + [now];
      if |hits| >= limit {
        return false;
      }
      hits := hits + [now];
      accepted := accepted + [now];
      return true;
    }
  }

  /** Any limit + 1 consecutive acceptances span at least a minute. */
  ghost predicate Spaced(accepted: seq<real>, limit: int) {
    && (limit <= 0 ==> accepted == [])
    && (limit > 0 ==> forall i :: 0 <= i < |accepted| - limit ==> accepted[i] + WINDOW <= accepted[i + limit])
  }

  /** A suffix of the history that leaves out nothing later than `start`. */
  ghost predicate SuffixSince(history: seq<real>, suffix: seq<real>, start: real) {
    && |suffix| <= |history| && suffix == history[|history| - |suffix|..]
    && forall i :: 0 <= i < |history| - |suffix| ==> history[i] <= start
  }

  lemma SuffixLater(history: seq<real>, suffix: seq<real>, start: real, later: real)
    requires SuffixSince(history, suffix, start) && start <= later
    ensures SuffixSince(history, suffix, later)
  {
  }

  lemma DropFirst(history: seq<real>, suffix: seq<real>, start: real)
    requires SuffixSince(history, suffix, start) && suffix != [] && suffix[0] <= start
    ensures SuffixSince(history, suffix[1..], start)
  {
  }

  lemma AscendingSnoc(s: seq<real>, x: real)
    requires Ascending(s) && (s != [] ==> s[|s| - 1] <= x)
    ensures Ascending(s + [x])
  {
    forall i, j | 0 <= i < j < |s + [x]| ensures (s + [x])[i] <= (s + [x])[j] {
      if j == |s| {
        assert i == |s| - 1 || s[i] <= s[|s| - 1];
      }
    }
  }

  lemma SuffixSnoc(history: seq<real>, suffix: seq<real>, start: real, x: real)
    requires SuffixSince(history, suffix, start)
    ensures SuffixSince(history + [x], suffix + [x], start)
  {
    var d := |history| - |suffix|;
    assert (history + [x])[d..] == history[d..] + [x];
  }

  lemma AcceptSuffix(accepted: seq<real>, hits: seq<real>, now: real)
    requires Ascending(accepted) && (accepted != [] ==> accepted[|accepted| - 1] <= now)
    requires SuffixSince(accepted, hits, now - WINDOW) && (hits != [] ==> hits[0] > now - WINDOW)
    ensures Ascending(accepted + [now]) && SuffixSince(accepted + [now], hits + [now], now - WINDOW)
    ensures After(accepted + [now], now - WINDOW) == hits + [now]
  {
    hide After, Ascending, SuffixSince;
    AscendingSnoc(accepted, now);
    SuffixSnoc(accepted, hits, now - WINDOW, now);
    AfterIs(accepted + [now], hits + [now], now - WINDOW);
  }

  /** With the queue pruned: its length counts the window, and one more entry keeps the history in order. */
  lemma CallOutcome(accepted: seq<real>, hits: seq<real>, limit: int, now: real)
    requires Ascending(accepted) && Spaced(accepted, limit) && (accepted != [] ==> accepted[|accepted| - 1] <= now)
    requires SuffixSince(accepted, hits, now - WINDOW) && (hits != [] ==> hits[0] > now - WINDOW)
    ensures |hits| == InWindow(accepted, now) && hits == After(accepted, now - WINDOW)
    ensures |hits| < limit ==>
              && Ascending(accepted + [now]) && Spaced(accepted + [now], limit)
              && SuffixSince(accepted + [now], hits + [now], now - WINDOW)
              && After(accepted + [now], now - WINDOW) == hits + [now]
  {
    hide *;
    AfterIs(accepted, hits, now - WINDOW);
    WindowCount(accepted, now);
    if |hits| < limit {
      AcceptSpaced(accepted, limit, now);
      AcceptSuffix(accepted, hits, now);
    }
  }

  lemma {:induction false} AfterIs(history: seq<real>, suffix: seq<real>, start: real)
    requires SuffixSince(history, suffix, start) && (suffix != [] ==> suffix[0] > start)
    ensures After(history, start) == suffix
  {
    if |suffix| < |history| {
      assert history[1..][|history| - 1 - |suffix|..] == suffix;
      AfterIs(history[1..], suffix, start);
    }
  }

  /** In an ascending history up to now, the last minute is what remains after dropping the rest. */
  lemma {:induction false} WindowCount(history: seq<real>, now: real)
    requires Ascending(history) && (history != [] ==> history[|history| - 1] <= now)
    ensures InWindow(history, now) == |After(history, now - WINDOW)|
  {
    if history != [] {
      var front, x := history[..|history| - 1], history[|history| - 1];
      assert front != [] ==> front[|front| - 1] <= x;
      WindowCount(front, now);
      assert history == front + [x];
      AfterSnoc(front, x, now - WINDOW);
    }
  }

  lemma {:induction false} AfterSnoc(front: seq<real>, x: real, start: real)
    requires Ascending(front + [x])
    ensures |After(front + [x], start)| == |After(front, start)| + if x > start then 1 else 0
  {
    if front != [] {
      assert (front + [x])[1..] == front[1..] + [x];
      assert (front + [x])[|front|] == x && (front + [x])[0] == front[0];
      if front[0] <= start {
        AfterSnoc(front[1..], x, start);
      }
    }
  }

  lemma {:induction false} AfterLater(history: seq<real>, start: real)
    ensures forall i :: 0 <= i < |history| - |After(history, start)| ==> history[i] <= start
  {
    if history != [] && history[0] <= start {
      AfterLater(history[1..], start);
      assert forall i :: 1 <= i < |history| ==> history[i] == history[1..][i - 1];
    }
  }

  lemma AcceptSpaced(accepted: seq<real>, limit: int, now: real)
    requires Spaced(accepted, limit) && |After(accepted, now - WINDOW)| < limit
    ensures Spaced(accepted + [now], limit)
  {
    AfterLater(accepted, now - WINDOW);
  }

  /** Hence no half-open minute, wherever it ends, holds more than `limit` acceptances. */
  lemma {:induction false} WindowBound(accepted: seq<real>, limit: int, end: real)
    requires Ascending(accepted) && Spaced(accepted, limit)
    ensures InWindow(accepted, end) <= if limit > 0 then limit else 0
  {
    if accepted != [] {
      var front, x := accepted[..|accepted| - 1], accepted[|accepted| - 1];
      if end - WINDOW < x <= end {
        WindowCount(accepted, end);
        AfterLater(accepted, end - WINDOW);
        RecentAtMost(accepted, limit, end);
      } else {
        WindowBound(front, limit, end);
      }
    }
  }

  lemma RecentAtMost(accepted: seq<real>, limit: int, end: real)
    requires Ascending(accepted) && Spaced(accepted, limit) && accepted != [] && accepted[|accepted| - 1] <= end
    ensures |After(accepted, end - WINDOW)| <= limit
  {
    var n := |accepted|;
    if n > limit {
      var i := n - 1 - limit;
      assert accepted[i] <= end - WINDOW;
      AfterLength(accepted, i, end - WINDOW);
    }
  }

  lemma {:induction false} AfterLength(history: seq<real>, i: nat, start: real)
    requires Ascending(history) && i < |history| && history[i] <= start
    ensures |After(history, start)| < |history| - i
  {
    if i > 0 {
      assert history[0] <= history[i];
      assert history[1..][i - 1] == history[i];
      AfterLength(history[1..], i - 1, start);
    }
  }

  /** The limiter as a function of the call times: which calls were accepted. */
  function AcceptedBy(limit: int, times: seq<real>): seq<real> {
    if times == [] then []
    else
      var before, now := AcceptedBy(limit, times[..|times| - 1]), times[|times| - 1];
      if InWindow(before, now) < limit then before + [now] else before
  }

  lemma AcceptedNext(limit: int, times: seq<real>, now: real)
    ensures var before := AcceptedBy(limit, times);
            AcceptedBy(limit, times + [now]) == if InWindow(before, now) < limit then before + [now] else before
  {
    assert (times + [now])[..|times|] == times;
  }

  /** One more call keeps an ascending, spaced history so. */
  lemma AcceptedStep(before: seq<real>, limit: int, now: real)
    requires Ascending(before) && Spaced(before, limit) && (before != [] ==> before[|before| - 1] <= now)
    requires InWindow(before, now) < limit
    ensures Ascending(before + [now]) && Spaced(before + [now], limit)
  {
    hide Ascending, Spaced, InWindow, After;
    WindowCount(before, now);
    AcceptSpaced(before, limit, now);
    AscendingSnoc(before, now);
  }

  /** The accepted calls of a run are spaced. */
  lemma {:induction false} AcceptedSpaced(limit: int, times: seq<real>)
    requires Ascending(times)
    ensures var a := AcceptedBy(limit, times);
            && Ascending(a) && Spaced(a, limit)
            && (a != [] ==> times != [] && a[|a| - 1] <= times[|times| - 1])
  {
    if times != [] {
      var front, now := times[..|times| - 1], times[|times| - 1];
      AcceptedSpaced(limit, front);
      var before := AcceptedBy(limit, front);
      assert before != [] ==> before[|before| - 1] <= now;
      if InWindow(before, now) < limit {
        AcceptedStep(before, limit, now);
      }
    }
  }

  /** For every clock and call sequence: accepted calls are spaced and every window obeys the limit. */
  lemma EveryRunObeysLimit(limit: int, times: seq<real>, end: real)
    requires Ascending(times)
    ensures var a := AcceptedBy(limit, times);
            && Ascending(a) && Spaced(a, limit)
            && InWindow(a, end) <= if limit > 0 then limit else 0
  {
    AcceptedSpaced(limit, times);
    WindowBound(AcceptedBy(limit, times), limit, end);
  }
}
