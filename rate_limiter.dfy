/** The sliding-window rate limiter (src/rateLimit/RateLimiter.ts): per caller address, a log of
    request times, a log of violation times and the time a ban ends. The clock is the parameter
    `now`; the rejection callback is reported as the `Notice` it would receive. */
module RateLimiting {
  import opened Results
  import opened Text
  import opened Http

  /** A rate window: at most `cap` requests inside the last `duration` milliseconds. */
  datatype Window = Window(duration: nat, cap: nat)

  /** `CONSTRAINTS.INTERVALS`, in the order `Object.keys` lists integer-like keys: ascending. */
  const Windows: seq<Window> := [Window(1000, 10), Window(5000, 20), Window(10000, 40), Window(30000, 60)]

  /** Entries older than this many milliseconds are dropped from both logs. */
  const MaxInterval: nat := 30000

  /** The length of a ban in milliseconds. */
  const BanDuration: nat := 15000

  /** The number of violations that imposes a ban (written as the literal 3 in the source). */
  const ViolationThreshold: nat := 3

  const UnknownAddress := "<UNKNOWN>"

  // ---------------------------------------------------------------------------------------
  // Caller identity and endpoint

  /** The caller address: the part of `x-forwarded-for` before its first colon, or the
      `<UNKNOWN>` sentinel when that part is empty (which includes a missing header). */
  function AddressFromHeader(forwardedFor: string): (ip: string)
    ensures ip != ""
    ensures ip == UnknownAddress || (ip <= forwardedFor && ':' !in ip)
    ensures ip != UnknownAddress ==> |ip| == |forwardedFor| || forwardedFor[|ip|] == ':'
    ensures forwardedFor == "" || forwardedFor[0] == ':' ==> ip == UnknownAddress
    ensures forwardedFor != "" && forwardedFor[0] != ':' ==>
      ip <= forwardedFor && ':' !in ip && (|ip| == |forwardedFor| || forwardedFor[|ip|] == ':')
  {
    var first := Before(forwardedFor, ':');
    if first == "" then UnknownAddress else first
  }

  /** The endpoint: the last `/`-separated segment of the URL once any query string is cut. */
  function EndpointOf(url: string): (e: string)
    ensures '/' !in e && '?' !in e
    ensures var path := Before(url, '?');
      |e| <= |path| && e == path[|path| - |e|..] && (|e| == |path| || path[|path| - |e| - 1] == '/')
  {
    var path := Before(url, '?');
    var e := AfterLast(path, '/');
    assert forall k :: 0 <= k < |e| ==> e[k] == path[|path| - |e| + k];
    e
  }

  datatype LimiterContext = LimiterContext(ipAddress: string, endpoint: string, verb: string)

  /** `RateLimiter.getContext`: `req.url`, else `req.originalUrl`, else the empty string. */
  function GetContext(req: HttpRequest): LimiterContext {
    var url := if req.url != "" then req.url else req.originalUrl;
    LimiterContext(AddressFromHeader(Header(req, "x-forwarded-for")), EndpointOf(url), req.verb)
  }

  // ---------------------------------------------------------------------------------------
  // Windows over a log

  /** The entries `t` of `log` with `now - t < d`, in their original order (`Array.filter`). */
  function Within(log: seq<int>, now: int, d: int): (r: seq<int>)
    ensures |r| <= |log|
    ensures forall t :: t in r <==> t in log && now - t < d
    decreases |log|
  {
    if log == [] then []
    else (if now - log[0] < d then [log[0]] else []) + Within(log[1..], now, d)
  }

  /** Filtering distributes over concatenation, so it keeps the order of the entries. */
  lemma {:induction false} WithinAppend(a: seq<int>, b: seq<int>, now: int, d: int)
    ensures Within(a + b, now, d) == Within(a, now, d) + Within(b, now, d)
    decreases |a|
  {
    if a == [] {
      assert a + b == b;
    } else {
      assert (a + b)[1..] == a[1..] + b;
      WithinAppend(a[1..], b, now, d);
    }
  }

  /** Filtering with a wider window first changes nothing about a narrower one. */
  lemma {:induction false} WithinNested(log: seq<int>, now: int, narrow: int, wide: int)
    requires narrow <= wide
    ensures Within(Within(log, now, wide), now, narrow) == Within(log, now, narrow)
    decreases |log|
  {
    if log != [] {
      WithinNested(log[1..], now, narrow, wide);
      var head := if now - log[0] < wide then [log[0]] else [];
      WithinAppend(head, Within(log[1..], now, wide), now, narrow);
    }
  }

  /** A log whose entries all lie inside the window is kept whole. */
  lemma {:induction false} WithinAll(log: seq<int>, now: int, d: int)
    requires forall i :: 0 <= i < |log| ==> now - log[i] < d
    ensures Within(log, now, d) == log
    decreases |log|
  {
    if log != [] {
      WithinAll(log[1..], now, d);
    }
  }

  /** The pruning both logs undergo on every call that is not stopped by a ban. */
  function Prune(log: seq<int>, now: int): (r: seq<int>)
    ensures |r| <= |log|
    ensures forall t :: t in r <==> t in log && now - t < MaxInterval
  {
    Within(log, now, MaxInterval)
  }

  /** The number of log entries inside each window, in the order of `Windows`. */
  function Counts(log: seq<int>, now: int): (counts: seq<nat>)
    ensures |counts| == |Windows|
  {
    seq(|Windows|, k requires 0 <= k < |Windows| => |Within(log, now, Windows[k].duration)|)
  }

  /** Counting over the pruned log gives the counts over the whole log: no window is wider
      than the pruning horizon. */
  lemma CountsOfPruned(log: seq<int>, now: int)
    ensures Counts(Prune(log, now), now) == Counts(log, now)
  {
    forall k | 0 <= k < |Windows|
      ensures Counts(Prune(log, now), now)[k] == Counts(log, now)[k]
    {
      WithinNested(log, now, Windows[k].duration, MaxInterval);
    }
  }

  /** The first window, from index `from` on, whose count has reached its cap. */
  function FirstExceeded(counts: seq<nat>, from: nat): (r: Option<nat>)
    requires |counts| == |Windows| && from <= |Windows|
    ensures r.Some? ==> from <= r.value < |Windows| && counts[r.value] >= Windows[r.value].cap
    ensures r.Some? ==> forall j :: from <= j < r.value ==> counts[j] < Windows[j].cap
    ensures r.None? <==> forall j :: from <= j < |Windows| ==> counts[j] < Windows[j].cap
    decreases |Windows| - from
  {
    if from == |Windows| then None
    else if counts[from] >= Windows[from].cap then Some(from)
    else FirstExceeded(counts, from + 1)
  }

  /** The window a call with these counts violates: the first, in ascending order, whose count
      has reached its cap. */
  function Violation(counts: seq<nat>): (r: Option<Reason>)
    requires |counts| == |Windows|
    ensures r.None? <==> forall k :: 0 <= k < |Windows| ==> counts[k] < Windows[k].cap
    ensures r.Some? ==> exists k :: (&& 0 <= k < |Windows| && r.value == Reason(counts[k], Windows[k].duration)
                                    && counts[k] >= Windows[k].cap
                                    && forall j :: 0 <= j < k ==> counts[j] < Windows[j].cap)
  {
    var exceeded := FirstExceeded(counts, 0);
    if exceeded.Some? then Some(Reason(counts[exceeded.value], Windows[exceeded.value].duration)) else None
  }

  /** The loop of `accept` over the windows that stops at the first one whose cap is reached. */
  method FirstViolation(counts: seq<nat>) returns (violation: Option<Reason>)
    requires |counts| == |Windows|
    ensures violation == Violation(counts)
  {
    violation := None;
    var i := 0;
    while i < |Windows|
      invariant 0 <= i <= |Windows|
      invariant FirstExceeded(counts, 0) == FirstExceeded(counts, i)
      invariant violation == None
    {
      if counts[i] >= Windows[i].cap {
        violation := Some(Reason(counts[i], Windows[i].duration));
        return;
      }
      i := i + 1;
    }
  }

  /** The nested loop of `accept` that counts the log entries inside each window. */
  method CountWindows(log: seq<int>, now: int) returns (counts: seq<nat>)
    ensures counts == Counts(log, now)
  {
    counts := seq(|Windows|, _ => 0);
    for i := 0 to |log|
      invariant |counts| == |Windows|
      invariant forall k :: 0 <= k < |Windows| ==> counts[k] == |Within(log[..i], now, Windows[k].duration)|
    {
      var timestamp := log[i];
      assert log[..i + 1] == log[..i] + [timestamp];
      for k := 0 to |Windows|
        invariant |counts| == |Windows|
        invariant forall j :: 0 <= j < k ==> counts[j] == |Within(log[..i + 1], now, Windows[j].duration)|
        invariant forall j :: k <= j < |Windows| ==> counts[j] == |Within(log[..i], now, Windows[j].duration)|
      {
        WithinAppend(log[..i], [timestamp], now, Windows[k].duration);
        if now - timestamp < Windows[k].duration {
          counts := counts[k := counts[k] + 1];
        }
      }
    }
    assert log[..|log|] == log;
  }

  // ---------------------------------------------------------------------------------------
  // One admission decision, per caller

  /** What the limiter holds about one address: its request log, its violation log and the
      end of its latest ban (`None` when it was never banned). */
  datatype Caller = Caller(requests: seq<int>, violations: seq<int>, bannedUntil: Option<int>)

  /** The window a rejected call exceeded: `${count} calls in ${interval} milliseconds`. */
  datatype Reason = Reason(count: nat, interval: nat)

  /** The result of one call: the decision, the caller's new state, the window that was
      exceeded (if any) and whether a ban was imposed. */
  datatype Admission = Admission(accepted: bool, after: Caller, violation: Option<Reason>, banned: bool)

  const Fresh: Caller := Caller([], [], None)

  /** A ban is in force: `nextRequestAt[ip]` is set, non-zero, and still in the future. */
  predicate BanActive(c: Caller, now: int) {
    c.bannedUntil.Some? && c.bannedUntil.value != 0 && now < c.bannedUntil.value
  }

  /** The decision `accept` takes for one caller at time `now`. */
  function Admit(c: Caller, now: int): Admission {
    if BanActive(c, now) then Admission(false, c, None, false)
    else
      var requests := Prune(c.requests, now);
      var violations := Prune(c.violations, now);
      var violation := Violation(Counts(requests, now));
      var violations' := if violation.Some? then violations + [now] else violations;
      if |violations'| >= ViolationThreshold then
        Admission(violation.None?, Caller([], [], Some(now + BanDuration)), violation, true)
      else
        Admission(violation.None?, Caller(requests + [now], violations', c.bannedUntil), violation, false)
  }

  /** While a ban is in force a call is rejected, changes nothing and reports no violation. */
  lemma BanStopsEverything(c: Caller, now: int)
    requires BanActive(c, now)
    ensures var r := Admit(c, now); !r.accepted && r.after == c && r.violation == None && !r.banned
  {
  }

  /** Outside a ban, a call is accepted iff every window, counted over the log as it was before
      the call, is still below its cap; a rejection names the first such window in ascending
      order, with its count. */
  lemma AcceptedIffBelowCaps(c: Caller, now: int)
    requires !BanActive(c, now)
    ensures var r := Admit(c, now);
      && (r.accepted <==> forall k :: 0 <= k < |Windows| ==> |Within(c.requests, now, Windows[k].duration)| < Windows[k].cap)
      && (r.violation.Some? <==> !r.accepted)
      && (r.violation.Some? ==>
            exists k :: (&& 0 <= k < |Windows|
                         && r.violation.value == Reason(|Within(c.requests, now, Windows[k].duration)|, Windows[k].duration)
                         && |Within(c.requests, now, Windows[k].duration)| >= Windows[k].cap
                         && forall j :: 0 <= j < k ==> |Within(c.requests, now, Windows[j].duration)| < Windows[j].cap))
  {
    CountsOfPruned(c.requests, now);
  }

  /** Outside a ban, both logs are pruned, the call's time is appended to the request log
      exactly once (accepted or not) and to the violation log once per rejection; when that
      makes three violations, both logs are emptied and a ban runs until `now + BanDuration`. */
  lemma LogsAfterCall(c: Caller, now: int)
    requires !BanActive(c, now)
    ensures var r := Admit(c, now);
      && (r.banned <==> |Prune(c.violations, now)| + (if r.accepted then 0 else 1) >= ViolationThreshold)
      && (r.banned ==> r.after == Caller([], [], Some(now + BanDuration)))
      && (!r.banned ==>
            r.after == Caller(Prune(c.requests, now) + [now],
                              Prune(c.violations, now) + (if r.accepted then [] else [now]),
                              c.bannedUntil))
  {
  }

  /** After any call that a ban does not stop, fewer than three violations remain; and from a
      state with fewer than three violations, a call that imposes a ban is itself rejected. */
  lemma ViolationsStayBelowThreshold(c: Caller, now: int)
    ensures var r := Admit(c, now);
      && (!BanActive(c, now) ==> |r.after.violations| < ViolationThreshold)
      && (|c.violations| < ViolationThreshold && r.banned ==> !r.accepted)
  {
    var r := Admit(c, now);
    if !BanActive(c, now) && r.banned && r.accepted {
      assert |Prune(c.violations, now)| <= |c.violations|;
    }
  }

  /** The reason handed to the rejection callback. */
  function ReasonText(reason: Reason, banned: bool): string {
    NatText(reason.count) + " calls in " + NatText(reason.interval) + " milliseconds"
      + (if banned then ". Banned for " + NatText(BanDuration) + " milliseconds" else "")
  }

  /** The arguments the rejection callback receives: method, endpoint, address and reason. */
  datatype Notice = Notice(verb: string, endpoint: string, ip: string, reason: string)

  // ---------------------------------------------------------------------------------------
  // The limiter state

  /** The module-level maps `log`, `violations` and `nextRequestAt`, keyed by address. */
  class RateLimiter {
    var log: map<string, seq<int>>
    var violations: map<string, seq<int>>
    var nextRequestAt: map<string, int>

    /** No address ever keeps as many violations as the ban threshold. */
    ghost predicate Valid()
      reads this
    {
      forall ip :: ip in violations ==> |violations[ip]| < ViolationThreshold
    }

    constructor ()
      ensures Valid()
      ensures log == map[] && violations == map[] && nextRequestAt == map[]
    {
      log, violations, nextRequestAt := map[], map[], map[];
    }

    /** The state kept for `ip`; an address never seen has empty logs and no ban. */
    function CallerOf(ip: string): Caller
      reads this
    {
      Caller(if ip in log then log[ip] else [],
             if ip in violations then violations[ip] else [],
             if ip in nextRequestAt then Some(nextRequestAt[ip]) else None)
    }

    /** `RateLimiter.accept` at time `now`; `hasCallback` says whether a rejection callback was
        supplied, and `notice` is the call it receives. */
    method Accept(req: HttpRequest, now: int, hasCallback: bool) returns (accepted: bool, notice: Option<Notice>)
      requires Valid()
      modifies this
      ensures Valid()
      ensures var ctx := GetContext(req);
        var a := Admit(old(CallerOf(ctx.ipAddress)), now);
        && accepted == a.accepted
        && notice == (if hasCallback && a.violation.Some?
                      then Some(Notice(req.verb, ctx.endpoint, ctx.ipAddress, ReasonText(a.violation.value, a.banned)))
                      else None)
        && if BanActive(old(CallerOf(ctx.ipAddress)), now) then
             log == old(log) && violations == old(violations) && nextRequestAt == old(nextRequestAt)
           else
             && log == old(log)[ctx.ipAddress := a.after.requests]
             && violations == old(violations)[ctx.ipAddress := a.after.violations]
             && nextRequestAt == (if a.banned then old(nextRequestAt)[ctx.ipAddress := now + BanDuration] else old(nextRequestAt))
    {
      var ctx := GetContext(req);
      accepted, notice := AcceptFrom(ctx, now, hasCallback);
    }

    /** The body of `accept` once the caller's address, endpoint and method are known. */
    method AcceptFrom(ctx: LimiterContext, now: int, hasCallback: bool) returns (accepted: bool, notice: Option<Notice>)
      requires Valid()
      modifies this
      ensures Valid()
      ensures var a := Admit(old(CallerOf(ctx.ipAddress)), now);
        && accepted == a.accepted
        && notice == (if hasCallback && a.violation.Some?
                      then Some(Notice(ctx.verb, ctx.endpoint, ctx.ipAddress, ReasonText(a.violation.value, a.banned)))
                      else None)
        && if BanActive(old(CallerOf(ctx.ipAddress)), now) then
             log == old(log) && violations == old(violations) && nextRequestAt == old(nextRequestAt)
           else
             && log == old(log)[ctx.ipAddress := a.after.requests]
             && violations == old(violations)[ctx.ipAddress := a.after.violations]
             && nextRequestAt == (if a.banned then old(nextRequestAt)[ctx.ipAddress := now + BanDuration] else old(nextRequestAt))
    {
      var ip := ctx.ipAddress;
      if ip in nextRequestAt && nextRequestAt[ip] != 0 && now < nextRequestAt[ip] {
        return false, None;
      }
      accepted, notice := Record(ctx, now, hasCallback);
    }

    /** The part of `accept` past the ban check: prune, count, record and maybe ban. */
    method Record(ctx: LimiterContext, now: int, hasCallback: bool) returns (accepted: bool, notice: Option<Notice>)
      requires Valid() && !BanActive(CallerOf(ctx.ipAddress), now)
      modifies this
      ensures Valid()
      ensures var a := Admit(old(CallerOf(ctx.ipAddress)), now);
        && accepted == a.accepted
        && notice == (if hasCallback && a.violation.Some?
                      then Some(Notice(ctx.verb, ctx.endpoint, ctx.ipAddress, ReasonText(a.violation.value, a.banned)))
                      else None)
        && log == old(log)[ctx.ipAddress := a.after.requests]
        && violations == old(violations)[ctx.ipAddress := a.after.violations]
        && nextRequestAt == (if a.banned then old(nextRequestAt)[ctx.ipAddress := now + BanDuration] else old(nextRequestAt))
    {
      var ip := ctx.ipAddress;
      var before := CallerOf(ip);
      var a := Decide(before, now);
      ViolationsStayBelowThreshold(before, now);
      Store(ip, a.after, a.banned, now);
      if a.violation.Some? && hasCallback {
        notice := Some(Notice(ctx.verb, ctx.endpoint, ip, ReasonText(a.violation.value, a.banned)));
      } else {
        notice := None;
      }
      accepted := a.accepted;
    }

    /** Writes one caller's new logs back, and its ban when one was imposed. */
    method Store(ip: string, after: Caller, banned: bool, now: int)
      requires Valid() && |after.violations| < ViolationThreshold
      modifies this
      ensures Valid()
      ensures log == old(log)[ip := after.requests]
      ensures violations == old(violations)[ip := after.violations]
      ensures nextRequestAt == (if banned then old(nextRequestAt)[ip := now + BanDuration] else old(nextRequestAt))
    {
      log := log[ip := after.requests];
      violations := violations[ip := after.violations];
      if banned {
        nextRequestAt := nextRequestAt[ip := now + BanDuration];
      }
    }
  }

  /** The steps of `accept` past the ban check, on one caller's logs: prune both, count the
      windows, record a violation for the first exceeded one, append the call, and ban on the
      third violation. */
  method Decide(c: Caller, now: int) returns (a: Admission)
    requires !BanActive(c, now)
    ensures a == Admit(c, now)
  {
    var requests := Prune(c.requests, now);
    var recent := Prune(c.violations, now);
    var counts := CountWindows(requests, now);
    var violation := FirstViolation(counts);
    if violation.Some? {
      recent := recent + [now];
    }
    requests := requests + [now];
    if |recent| >= ViolationThreshold {
      return Admission(violation.None?, Caller([], [], Some(now + BanDuration)), violation, true);
    }
    a := Admission(violation.None?, Caller(requests, recent, c.bannedUntil), violation, false);
  }

  // ---------------------------------------------------------------------------------------
  // A burst of calls

  /** The decisions for calls at `times`, one after the other, from caller state `c`. */
  function Replay(c: Caller, times: seq<int>): seq<bool>
    decreases |times|
  {
    if times == [] then [] else
      var a := Admit(c, times[0]);
      [a.accepted] + Replay(a.after, times[1..])
  }

  /** Eleven calls in order, all inside one second. */
  predicate Burst(times: seq<int>) {
    && |times| == 11
    && (forall i, j :: 0 <= i <= j < |times| ==> times[i] <= times[j])
    && times[10] - times[0] < 1000
  }

  /** A caller with no violations and no ban whose requests all lie inside the last second is
      accepted iff it has made fewer than ten, and an accepted call only extends its log. */
  lemma AdmitWithinOneSecond(c: Caller, now: int)
    requires c.violations == [] && c.bannedUntil == None
    requires forall i :: 0 <= i < |c.requests| ==> now - c.requests[i] < 1000
    ensures Admit(c, now).accepted <==> |c.requests| < 10
    ensures |c.requests| < 10 ==> Admit(c, now).after == Caller(c.requests + [now], [], None)
  {
    AllRecent(c.requests, now);
    var counts := Counts(Prune(c.requests, now), now);
    assert Violation(counts).None? <==> |c.requests| < 10 by {
      assert Windows[0].cap == 10;
    }
  }

  /** Every window counts the whole of a log that lies inside the last second, and pruning
      keeps all of it. */
  lemma AllRecent(log: seq<int>, now: int)
    requires forall i :: 0 <= i < |log| ==> now - log[i] < 1000
    ensures Prune(log, now) == log
    ensures forall k :: 0 <= k < |Windows| ==> Counts(log, now)[k] == |log|
  {
    forall k | 0 <= k < |Windows|
      ensures Within(log, now, Windows[k].duration) == log
    {
      WithinAll(log, now, Windows[k].duration);
    }
    WithinAll(log, now, MaxInterval);
  }

  /** The call at `times[i]` of a burst finds the `i` earlier calls in its log: it is accepted
      iff there are fewer than ten, and the replay goes on from a log one call longer. */
  lemma BurstStep(times: seq<int>, i: nat)
    requires Burst(times) && i <= 10
    ensures Replay(Caller(times[..i], [], None), times[i..])
         == [i < 10] + (if i < 10 then Replay(Caller(times[..i + 1], [], None), times[i + 1..]) else [])
  {
    var c := Caller(times[..i], [], None);
    assert forall k :: 0 <= k < |c.requests| ==> c.requests[k] == times[k];
    AdmitWithinOneSecond(c, times[i]);
    assert times[..i] + [times[i]] == times[..i + 1];
    assert times[i..][1..] == times[i + 1..];
  }

  lemma {:induction false} BurstFrom(times: seq<int>, i: nat)
    requires Burst(times) && i <= 10
    ensures var r := Replay(Caller(times[..i], [], None), times[i..]);
      |r| == 11 - i && forall k :: 0 <= k < |r| ==> (r[k] <==> k < 10 - i)
    decreases 10 - i
  {
    var r := Replay(Caller(times[..i], [], None), times[i..]);
    BurstStep(times, i);
    if i < 10 {
      var r' := Replay(Caller(times[..i + 1], [], None), times[i + 1..]);
      BurstFrom(times, i + 1);
      assert r == [true] + r';
      forall k | 0 <= k < |r|
        ensures r[k] <==> k < 10 - i
      {
        if k > 0 {
          assert r[k] == r'[k - 1];
        }
      }
    } else {
      assert r == [false];
    }
  }

  /** Ten calls inside one second from a new address are accepted and the eleventh is
      rejected. */
  lemma TenPerSecondThenReject(times: seq<int>)
    requires Burst(times)
    ensures Replay(Fresh, times) == [true, true, true, true, true, true, true, true, true, true, false]
  {
    BurstFrom(times, 0);
    assert times[..0] == [] && times[0..] == times;
  }
}
