// The anonymous fixed-window rate limiter: a bounded map from clients to their current windows.
module RateLimit {
  import opened Wrappers

  const DEFAULT_MAX_CLIENTS: int := 100_000

  datatype Window = Window(count: nat, resetAt: int)

  datatype Decision = Decision(allowed: bool, remaining: nat, resetAt: int)

  datatype Config = Config(limit: nat, windowMs: nat, maxClients: nat)

  datatype ConfigError = InvalidLimit | InvalidWindow | InvalidMaxClients

  // ----- one call as a function of the map and the clock -----

  datatype Answer = Answer(windows: map<string, Window>, decision: Decision)

  predicate Valid(cfg: Config) {
    cfg.limit >= 1 && cfg.windowMs >= 1 && cfg.maxClients >= 1
  }

  function Live(windows: map<string, Window>, t: int): map<string, Window> {
    map client | client in windows && windows[client].resetAt > t :: windows[client]
  }

  // The map that a client who has no window is added to.
  function Roomy(cfg: Config, windows: map<string, Window>, t: int): map<string, Window> {
    if |windows| >= cfg.maxClients then Live(windows, t) else windows
  }

  predicate Saturated(cfg: Config, windows: map<string, Window>, client: string, t: int) {
    client !in windows && |Roomy(cfg, windows, t)| >= cfg.maxClients
  }

  function Counted(cfg: Config, windows: map<string, Window>, client: string, state: Window): Answer {
    if state.count >= cfg.limit then Answer(windows, Decision(false, 0, state.resetAt))
    else
      Answer(windows[client := Window(state.count + 1, state.resetAt)],
             Decision(true, cfg.limit - (state.count + 1), state.resetAt))
  }

  function Allowed(cfg: Config, windows: map<string, Window>, client: string, t: int): Answer
    requires Valid(cfg)
  {
    if client in windows && windows[client].resetAt > t then Counted(cfg, windows, client, windows[client])
    else if client in windows then Counted(cfg, windows, client, Window(0, t + cfg.windowMs))
    else if Saturated(cfg, windows, client, t) then Answer(Roomy(cfg, windows, t), Decision(false, 0, t + cfg.windowMs))
    else Counted(cfg, Roomy(cfg, windows, t), client, Window(0, t + cfg.windowMs))
  }

  // ----- the limiter -----

  class FixedWindowRateLimiter {
    const cfg: Config
    var windows: map<string, Window>

    constructor (cfg: Config)
      ensures this.cfg == cfg && windows == map[]
    {
      this.cfg, windows := cfg, map[];
    }

    method PruneExpired(currentTime: int)
      modifies this
      ensures windows == Live(old(windows), currentTime)
    {
      var rest := windows.Keys;
      while rest != {}
        invariant rest <= windows.Keys <= old(windows).Keys
        invariant forall client :: client in windows ==> windows[client] == old(windows)[client]
        invariant forall client :: client in old(windows) && client !in rest ==>
                    (client in windows <==> old(windows)[client].resetAt > currentTime)
        decreases |rest|
      {
        var client :| client in rest;
        rest := rest - {client};
        if windows[client].resetAt <= currentTime {
          windows := windows - {client};
        }
      }
    }

    method Allow(client: string, currentTime: int) returns (decision: Decision)
      requires Valid(cfg)
      modifies this
      ensures Answer(windows, decision) == Allowed(cfg, old(windows), client, currentTime)
    {
      var known := client in windows;
      if !known || windows[client].resetAt <= currentTime {
        if !known && |windows| >= cfg.maxClients {
          PruneExpired(currentTime);
        }
        if !known && |windows| >= cfg.maxClients {
          return Decision(false, 0, currentTime + cfg.windowMs);
        }
        windows := windows[client := Window(0, currentTime + cfg.windowMs)];
      }
      var state := windows[client];
      if state.count >= cfg.limit {
        return Decision(false, 0, state.resetAt);
      }
      windows := windows[client := Window(state.count + 1, state.resetAt)];
      return Decision(true, cfg.limit - (state.count + 1), state.resetAt);
    }
  }

  predicate PositiveSafe(n: int) {
    1 <= n <= MAX_SAFE_INTEGER
  }

  method CreateFixedWindowRateLimiter(limit: int, windowMs: int, maxClients: Option<int>)
    returns (r: Result<FixedWindowRateLimiter, ConfigError>)
    // positive, and less than 2 to the power of 53
    ensures var most := if maxClients.Some? then maxClients.value else 100_000;
            && (r.Ok? <==> 0 < limit < 0x20_0000_0000_0000 && 0 < windowMs < 0x20_0000_0000_0000
                           && 0 < most < 0x20_0000_0000_0000)
            && (r.Ok? ==>
                  && fresh(r.value) && r.value.windows == map[] && Valid(r.value.cfg)
                  && r.value.cfg == Config(limit, windowMs, most))
    ensures r.Err? ==> match r.error
                       case InvalidLimit => !PositiveSafe(limit)
                       case InvalidWindow => PositiveSafe(limit) && !PositiveSafe(windowMs)
                       case InvalidMaxClients => PositiveSafe(limit) && PositiveSafe(windowMs)
  {
    if !PositiveSafe(limit) {
      return Err(InvalidLimit);
    }
    if !PositiveSafe(windowMs) {
      return Err(InvalidWindow);
    }
    var most := if maxClients.Some? then maxClients.value else DEFAULT_MAX_CLIENTS;
    if !PositiveSafe(most) {
      return Err(InvalidMaxClients);
    }
    var limiter := new FixedWindowRateLimiter(Config(limit, windowMs, most));
    return Ok(limiter);
  }

  // ----- whole traces -----

  datatype Call = Call(client: string, t: int)

  ghost predicate Monotone(trace: seq<Call>) {
    forall i, j :: 0 <= i < j < |trace| ==> trace[i].t <= trace[j].t
  }

  // The map after a trace of calls on a new limiter.
  function After(cfg: Config, trace: seq<Call>): map<string, Window>
    requires Valid(cfg)
  {
    if trace == [] then map[]
    else
      var last := trace[|trace| - 1];
      Allowed(cfg, After(cfg, trace[..|trace| - 1]), last.client, last.t).windows
  }

  function AnswerTo(cfg: Config, trace: seq<Call>, i: nat): Decision
    requires Valid(cfg) && i < |trace|
  {
    Allowed(cfg, After(cfg, trace[..i]), trace[i].client, trace[i].t).decision
  }

  // How often the client was allowed at times from a on and before b.
  function AllowedCount(cfg: Config, trace: seq<Call>, client: string, a: int, b: int): nat
    requires Valid(cfg)
  {
    if trace == [] then 0
    else
      var i := |trace| - 1;
      AllowedCount(cfg, trace[..i], client, a, b)
      + if trace[i].client == client && a <= trace[i].t < b && AnswerTo(cfg, trace, i).allowed then 1 else 0
  }

  // ----- the bound -----

  // n: how often one client was allowed in [a, a + windowMs) until time t; own: its current window.
  ghost predicate CountBounded(cfg: Config, own: Option<Window>, t: int, a: int, n: nat) {
    && (t < a ==> n == 0)
    && match own
       case None =>
         && (t < a + cfg.windowMs ==> n <= cfg.limit - 1)
         && n <= 2 * cfg.limit - 1
       case Some(w) =>
         var start := w.resetAt - cfg.windowMs;
         && start <= t && 1 <= w.count <= cfg.limit
         && (start < a ==> n <= w.count - 1)
         && (a <= start < a + cfg.windowMs ==> n <= cfg.limit - 1 + w.count)
         && n <= 2 * cfg.limit - 1
  }

  function Own(windows: map<string, Window>, client: string): Option<Window> {
    if client in windows then Some(windows[client]) else None
  }

  lemma OwnCallKeepsBound(cfg: Config, windows: map<string, Window>, client: string, t: int, next: int, a: int, n: nat)
    requires Valid(cfg) && t <= next && CountBounded(cfg, Own(windows, client), t, a, n)
    ensures var answer := Allowed(cfg, windows, client, next);
            CountBounded(cfg, Own(answer.windows, client), next, a,
                         n + if a <= next < a + cfg.windowMs && answer.decision.allowed then 1 else 0)
  {
  }

  lemma OtherCallKeepsBound(
    cfg: Config, windows: map<string, Window>, client: string, caller: string, t: int, next: int, a: int, n: nat)
    requires Valid(cfg) && t <= next && caller != client && CountBounded(cfg, Own(windows, client), t, a, n)
    ensures CountBounded(cfg, Own(Allowed(cfg, windows, caller, next).windows, client), next, a, n)
  {
  }

  lemma {:induction false} TraceKeepsBound(cfg: Config, trace: seq<Call>, client: string, a: int, t: int)
    requires Valid(cfg) && Monotone(trace) && (trace != [] ==> t == trace[|trace| - 1].t)
    ensures CountBounded(cfg, Own(After(cfg, trace), client), t, a,
                         AllowedCount(cfg, trace, client, a, a + cfg.windowMs))
  {
    if trace != [] {
      var i := |trace| - 1;
      var front := trace[..i];
      var before := if i > 0 then trace[i - 1].t else t;
      TraceKeepsBound(cfg, front, client, a, before);
      var n := AllowedCount(cfg, front, client, a, a + cfg.windowMs);
      if trace[i].client == client {
        OwnCallKeepsBound(cfg, After(cfg, front), client, before, t, a, n);
      } else {
        OtherCallKeepsBound(cfg, After(cfg, front), client, trace[i].client, before, t, a, n);
      }
    }
  }

  // Main theorem: in any interval of one window's length, a client is allowed fewer than twice the
  // limit, whatever the other clients do and whenever windows are pruned.
  lemma RateIsBounded(cfg: Config, trace: seq<Call>, client: string, a: int)
    requires Valid(cfg) && Monotone(trace)
    ensures AllowedCount(cfg, trace, client, a, a + cfg.windowMs) <= 2 * cfg.limit - 1
  {
    TraceKeepsBound(cfg, trace, client, a, if trace == [] then 0 else trace[|trace| - 1].t);
  }

  // ----- the bound is met -----

  ghost predicate EndsBy(trace: seq<Call>, t: int) {
    Monotone(trace) && forall i :: 0 <= i < |trace| ==> trace[i].t <= t
  }

  lemma OneMoreEndsBy(trace: seq<Call>, call: Call, t: int)
    requires EndsBy(trace, t) && t <= call.t
    ensures EndsBy(trace + [call], call.t)
  {
  }

  // After the trace the client has this window, and was allowed n times in [a, a + windowMs).
  ghost predicate Reaches(cfg: Config, trace: seq<Call>, client: string, own: Option<Window>, a: int, n: nat)
    requires Valid(cfg)
  {
    Own(After(cfg, trace), client) == own && AllowedCount(cfg, trace, client, a, a + cfg.windowMs) == n
  }

  function Weight(cfg: Config, a: int, t: int): nat {
    if a <= t < a + cfg.windowMs then 1 else 0
  }

  lemma OneMoreCall(cfg: Config, trace: seq<Call>, more: seq<Call>, call: Call, a: int)
    requires Valid(cfg) && more == trace + [call]
    ensures var answer := Allowed(cfg, After(cfg, trace), call.client, call.t);
            && After(cfg, more) == answer.windows
            && AllowedCount(cfg, more, call.client, a, a + cfg.windowMs)
               == AllowedCount(cfg, trace, call.client, a, a + cfg.windowMs)
                  + if answer.decision.allowed then Weight(cfg, a, call.t) else 0
  {
    assert more[..|more| - 1] == trace;
  }

  // A client with room left in its window spends one call of it.
  lemma OneMoreAllowed(
      cfg: Config, trace: seq<Call>, more: seq<Call>, client: string, t: int, a: int, own: Window, n: nat)
    requires Valid(cfg) && Reaches(cfg, trace, client, Some(own), a, n) && more == trace + [Call(client, t)]
    requires t < own.resetAt && own.count < cfg.limit
    ensures Reaches(cfg, more, client, Some(Window(own.count + 1, own.resetAt)), a, n + Weight(cfg, a, t))
  {
    OneMoreCall(cfg, trace, more, Call(client, t), a);
  }

  // A client without a running window starts a new one, if the map has room.
  lemma NewWindow(
      cfg: Config, trace: seq<Call>, more: seq<Call>, client: string, t: int, a: int, own: Option<Window>, n: nat)
    requires Valid(cfg) && Reaches(cfg, trace, client, own, a, n) && more == trace + [Call(client, t)]
    requires if own.Some? then own.value.resetAt <= t else !Saturated(cfg, After(cfg, trace), client, t)
    ensures Reaches(cfg, more, client, Some(Window(1, t + cfg.windowMs)), a, n + Weight(cfg, a, t))
  {
    OneMoreCall(cfg, trace, more, Call(client, t), a);
  }

  // Whatever each further call keeps true holds after m of them.
  lemma {:induction false} Repeated(
      call: Call, holds: (seq<Call>, nat) -> bool, trace: seq<Call>, m: nat) returns (more: seq<Call>)
    requires holds(trace, 0)
    requires forall before: seq<Call>, i: nat :: i < m && holds(before, i) ==> holds(before + [call], i + 1)
    ensures holds(more, m)
    decreases m
  {
    if m == 0 {
      more := trace;
    } else {
      var before := Repeated(call, holds, trace, m - 1);
      more := before + [call];
    }
  }

  // After i more calls at time t.
  ghost predicate InBurst(cfg: Config, client: string, t: int, a: int, own: Window, n: nat, trace: seq<Call>, i: nat) {
    && Valid(cfg) && EndsBy(trace, t)
    && Reaches(cfg, trace, client, Some(Window(own.count + i, own.resetAt)), a,
               n + if Weight(cfg, a, t) == 1 then i else 0)
  }

  lemma BurstGoesOn(cfg: Config, client: string, t: int, a: int, own: Window, n: nat, before: seq<Call>, i: nat)
    requires InBurst(cfg, client, t, a, own, n, before, i) && t < own.resetAt && own.count + i < cfg.limit
    ensures InBurst(cfg, client, t, a, own, n, before + [Call(client, t)], i + 1)
  {
    var j := n + if Weight(cfg, a, t) == 1 then i else 0;
    OneMoreEndsBy(before, Call(client, t), t);
    OneMoreAllowed(cfg, before, before + [Call(client, t)], client, t, a, Window(own.count + i, own.resetAt), j);
  }

  // m more calls at time t.
  lemma BurstIsAllowed(cfg: Config, trace: seq<Call>, client: string, t: int, m: nat, a: int, own: Window, n: nat)
    returns (more: seq<Call>, k: nat)
    requires Valid(cfg) && Reaches(cfg, trace, client, Some(own), a, n) && EndsBy(trace, t)
    requires t < own.resetAt && own.count + m <= cfg.limit
    ensures k == n + if Weight(cfg, a, t) == 1 then m else 0
    ensures EndsBy(more, t) && Reaches(cfg, more, client, Some(Window(own.count + m, own.resetAt)), a, k)
  {
    var holds := (some: seq<Call>, i: nat) => InBurst(cfg, client, t, a, own, n, some, i);
    forall before: seq<Call>, i: nat | i < m && holds(before, i) ensures holds(before + [Call(client, t)], i + 1) {
      BurstGoesOn(cfg, client, t, a, own, n, before, i);
    }
    more := Repeated(Call(client, t), holds, trace, m);
    k := n + if Weight(cfg, a, t) == 1 then m else 0;
  }

  // A client's first call in a new window at time t, and the rest of that window at time u.
  lemma FullWindowIsUsedUp(
    cfg: Config, trace: seq<Call>, client: string, t: int, u: int, a: int, own: Option<Window>, n: nat)
    returns (more: seq<Call>, k: nat)
    requires Valid(cfg) && Reaches(cfg, trace, client, own, a, n) && EndsBy(trace, t) && t <= u < t + cfg.windowMs
    requires if own.Some? then own.value.resetAt <= t else !Saturated(cfg, After(cfg, trace), client, t)
    ensures k == n + Weight(cfg, a, t) + if Weight(cfg, a, u) == 1 then cfg.limit - 1 else 0
    ensures EndsBy(more, u) && Reaches(cfg, more, client, Some(Window(cfg.limit, t + cfg.windowMs)), a, k)
  {
    var first := trace + [Call(client, t)];
    OneMoreEndsBy(trace, Call(client, t), t);
    NewWindow(cfg, trace, first, client, t, a, own, n);
    more, k := BurstIsAllowed(cfg, first, client, u, cfg.limit - 1, a, Window(1, t + cfg.windowMs),
                              n + Weight(cfg, a, t));
  }

  // The bound cannot be lowered for windows of at least two milliseconds: a trace meets it with one call
  // at 0, the rest of its window at the window's end, and the next window right after it.
  lemma BoundIsMet(cfg: Config, client: string) returns (trace: seq<Call>)
    requires Valid(cfg) && cfg.windowMs >= 2
    ensures Monotone(trace) && AllowedCount(cfg, trace, client, 1, 1 + cfg.windowMs) == 2 * cfg.limit - 1
  {
    var w := cfg.windowMs;
    var one, n := FullWindowIsUsedUp(cfg, [], client, 0, w - 1, 1, None, 0);
    var two, k := FullWindowIsUsedUp(cfg, one, client, w, w, 1, Some(Window(cfg.limit, w)), n);
    trace := two;
  }

  // The least upper bound for any valid limiter with such a window.
  lemma TwoWindowsMeetTheBound(cfg: Config, client: string)
    requires Valid(cfg) && cfg.windowMs >= 2
    ensures exists trace ::
              Monotone(trace) && AllowedCount(cfg, trace, client, 1, 1 + cfg.windowMs) == 2 * cfg.limit - 1
  {
    var trace := BoundIsMet(cfg, client);
  }

  // ----- one window -----

  // How often the client was allowed with this end of its window.
  function AllowedInWindow(cfg: Config, trace: seq<Call>, client: string, resetAt: int): nat
    requires Valid(cfg)
  {
    if trace == [] then 0
    else
      var i := |trace| - 1;
      var answer := AnswerTo(cfg, trace, i);
      AllowedInWindow(cfg, trace[..i], client, resetAt)
      + if trace[i].client == client && answer.allowed && answer.resetAt == resetAt then 1 else 0
  }

  ghost predicate WindowCounts(cfg: Config, own: Option<Window>, t: int, resetAt: int, n: nat) {
    && n <= cfg.limit
    && match own
       case None => resetAt > t ==> n == 0
       case Some(w) =>
         && w.resetAt <= t + cfg.windowMs
         && (resetAt == w.resetAt ==> n == w.count) && (resetAt > w.resetAt ==> n == 0)
  }

  lemma OwnCallCounts(
      cfg: Config, windows: map<string, Window>, client: string, t: int, next: int, resetAt: int, n: nat)
    requires Valid(cfg) && t <= next && WindowCounts(cfg, Own(windows, client), t, resetAt, n)
    ensures var answer := Allowed(cfg, windows, client, next);
            WindowCounts(cfg, Own(answer.windows, client), next, resetAt,
                         n + if answer.decision.allowed && answer.decision.resetAt == resetAt then 1 else 0)
  {
  }

  lemma OtherCallCounts(
    cfg: Config, windows: map<string, Window>, client: string, caller: string, t: int, next: int, resetAt: int, n: nat)
    requires Valid(cfg) && t <= next && caller != client && WindowCounts(cfg, Own(windows, client), t, resetAt, n)
    ensures WindowCounts(cfg, Own(Allowed(cfg, windows, caller, next).windows, client), next, resetAt, n)
  {
  }

  lemma {:induction false} TraceCountsWindow(cfg: Config, trace: seq<Call>, client: string, resetAt: int, t: int)
    requires Valid(cfg) && Monotone(trace) && (trace != [] ==> t == trace[|trace| - 1].t)
    ensures WindowCounts(cfg, Own(After(cfg, trace), client), t, resetAt, AllowedInWindow(cfg, trace, client, resetAt))
  {
    if trace != [] {
      var i := |trace| - 1;
      var before := if i > 0 then trace[i - 1].t else t;
      TraceCountsWindow(cfg, trace[..i], client, resetAt, before);
      var n := AllowedInWindow(cfg, trace[..i], client, resetAt);
      if trace[i].client == client {
        OwnCallCounts(cfg, After(cfg, trace[..i]), client, before, t, resetAt, n);
      } else {
        OtherCallCounts(cfg, After(cfg, trace[..i]), client, trace[i].client, before, t, resetAt, n);
      }
    }
  }

  // Every answer tells the truth about its window: an allowed call says how many more of the limit
  // remain, and a call is denied only when its window is used up or the map is full of live clients.
  lemma AnswersTellTheWindow(cfg: Config, trace: seq<Call>, i: nat)
    requires Valid(cfg) && Monotone(trace) && i < |trace|
    ensures var answer := AnswerTo(cfg, trace, i);
            var used := AllowedInWindow(cfg, trace[..i], trace[i].client, answer.resetAt);
            var saturated := Saturated(cfg, After(cfg, trace[..i]), trace[i].client, trace[i].t);
            && (answer.allowed <==> !saturated && used < cfg.limit)
            && (answer.allowed ==> answer.remaining == cfg.limit - used - 1)
            && (!answer.allowed ==> answer.remaining == 0)
            && trace[i].t < answer.resetAt <= trace[i].t + cfg.windowMs
  {
    var answer := AnswerTo(cfg, trace, i);
    TraceCountsWindow(cfg, trace[..i], trace[i].client, answer.resetAt, if i > 0 then trace[i - 1].t else trace[i].t);
  }

  // In windows of one millisecond every instant is a window of its own.
  lemma {:induction false} InstantIsWindow(cfg: Config, trace: seq<Call>, client: string, a: int)
    requires Valid(cfg) && Monotone(trace) && cfg.windowMs == 1
    ensures AllowedCount(cfg, trace, client, a, a + 1) <= AllowedInWindow(cfg, trace, client, a + 1)
  {
    if trace != [] {
      var i := |trace| - 1;
      InstantIsWindow(cfg, trace[..i], client, a);
      AnswersTellTheWindow(cfg, trace, i);
    }
  }

  lemma OneMillisecondIsBounded(cfg: Config, trace: seq<Call>, client: string, a: int)
    requires Valid(cfg) && Monotone(trace) && cfg.windowMs == 1
    ensures AllowedCount(cfg, trace, client, a, a + 1) <= cfg.limit
  {
    InstantIsWindow(cfg, trace, client, a);
    TraceCountsWindow(cfg, trace, client, a + 1, if trace == [] then 0 else trace[|trace| - 1].t);
  }

  // ----- the bounded map -----

  lemma UpdatedSize(windows: map<string, Window>, client: string, w: Window)
    ensures |windows[client := w]| == |windows| + if client in windows then 0 else 1
  {
    assert windows[client := w].Keys == windows.Keys + {client};
    assert client in windows ==> windows.Keys + {client} == windows.Keys;
  }

  lemma AllowKeepsSize(cfg: Config, windows: map<string, Window>, client: string, t: int)
    requires Valid(cfg) && |windows| <= cfg.maxClients
    ensures |Allowed(cfg, windows, client, t).windows| <= cfg.maxClients
  {
    SubsetIsSmaller(Live(windows, t).Keys, windows.Keys);
    var after := Allowed(cfg, windows, client, t).windows;
    if client in after {
      UpdatedSize(windows, client, after[client]);
      UpdatedSize(Roomy(cfg, windows, t), client, after[client]);
    }
  }

  lemma {:induction false} SubsetIsSmaller<T>(a: set<T>, b: set<T>)
    requires a <= b
    ensures |a| <= |b|
  {
    if a != {} {
      var x :| x in a;
      SubsetIsSmaller(a - {x}, b - {x});
    }
  }

  lemma {:induction false} MapStaysSmall(cfg: Config, trace: seq<Call>)
    requires Valid(cfg)
    ensures |After(cfg, trace)| <= cfg.maxClients
  {
    if trace != [] {
      var i := |trace| - 1;
      MapStaysSmall(cfg, trace[..i]);
      AllowKeepsSize(cfg, After(cfg, trace[..i]), trace[i].client, trace[i].t);
    }
  }

  // ----- the limiter that forgets nobody -----

  function UnboundedAllowed(cfg: Config, windows: map<string, Window>, client: string, t: int): Answer {
    Counted(cfg, windows, client,
            if client in windows && windows[client].resetAt > t then windows[client] else Window(0, t + cfg.windowMs))
  }

  function UnboundedAfter(cfg: Config, trace: seq<Call>): map<string, Window> {
    if trace == [] then map[]
    else
      var last := trace[|trace| - 1];
      UnboundedAllowed(cfg, UnboundedAfter(cfg, trace[..|trace| - 1]), last.client, last.t).windows
  }

  function UnboundedAnswerTo(cfg: Config, trace: seq<Call>, i: nat): Decision
    requires i < |trace|
  {
    UnboundedAllowed(cfg, UnboundedAfter(cfg, trace[..i]), trace[i].client, trace[i].t).decision
  }

  // The bounded map lacks only windows that are over.
  ghost predicate Tracks(bounded: map<string, Window>, unbounded: map<string, Window>, t: int) {
    && (forall client :: client in bounded ==> client in unbounded && unbounded[client] == bounded[client])
    && (forall client :: client in unbounded && client !in bounded ==> unbounded[client].resetAt <= t)
  }

  ghost predicate SaturatedAt(cfg: Config, trace: seq<Call>, i: nat)
    requires Valid(cfg) && i < |trace|
  {
    Saturated(cfg, After(cfg, trace[..i]), trace[i].client, trace[i].t)
  }

  ghost predicate NeverSaturated(cfg: Config, trace: seq<Call>)
    requires Valid(cfg)
  {
    forall i :: 0 <= i < |trace| ==> !SaturatedAt(cfg, trace, i)
  }

  lemma CallKeepsTrack(
      cfg: Config, bounded: map<string, Window>, unbounded: map<string, Window>, client: string, t: int, next: int)
    requires Valid(cfg) && Tracks(bounded, unbounded, t) && t <= next
    ensures var b, u := Allowed(cfg, bounded, client, next), UnboundedAllowed(cfg, unbounded, client, next);
            && (b.decision == u.decision <==> !Saturated(cfg, bounded, client, next))
            && (!Saturated(cfg, bounded, client, next) ==> Tracks(b.windows, u.windows, next))
  {
  }

  lemma PrefixNeverSaturated(cfg: Config, trace: seq<Call>, n: nat)
    requires Valid(cfg) && n <= |trace| && forall i :: 0 <= i < n ==> !SaturatedAt(cfg, trace, i)
    ensures NeverSaturated(cfg, trace[..n])
  {
    forall i | 0 <= i < n ensures !SaturatedAt(cfg, trace[..n], i) {
      assert trace[..n][..i] == trace[..i];
      assert !SaturatedAt(cfg, trace, i);
    }
  }

  lemma {:induction false} TraceKeepsTrack(cfg: Config, trace: seq<Call>, t: int)
    requires Valid(cfg) && Monotone(trace) && NeverSaturated(cfg, trace) && (trace != [] ==> t == trace[|trace| - 1].t)
    ensures Tracks(After(cfg, trace), UnboundedAfter(cfg, trace), t)
  {
    if trace != [] {
      var i := |trace| - 1;
      var before := if i > 0 then trace[i - 1].t else t;
      assert !SaturatedAt(cfg, trace, i);
      PrefixNeverSaturated(cfg, trace, i);
      TraceKeepsTrack(cfg, trace[..i], before);
      CallKeepsTrack(cfg, After(cfg, trace[..i]), UnboundedAfter(cfg, trace[..i]), trace[i].client, before, t);
    }
  }

  // Up to the first denial for saturation the answers are those of the limiter that forgets nobody,
  // and that denial is the first answer that differs.
  lemma PruningIsInvisible(cfg: Config, trace: seq<Call>, i: nat)
    requires Valid(cfg) && Monotone(trace) && i < |trace| && forall j :: 0 <= j < i ==> !SaturatedAt(cfg, trace, j)
    ensures AnswerTo(cfg, trace, i) == UnboundedAnswerTo(cfg, trace, i) <==> !SaturatedAt(cfg, trace, i)
  {
    var before := if i > 0 then trace[i - 1].t else trace[i].t;
    PrefixNeverSaturated(cfg, trace, i);
    TraceKeepsTrack(cfg, trace[..i], before);
    CallKeepsTrack(cfg, After(cfg, trace[..i]), UnboundedAfter(cfg, trace[..i]), trace[i].client, before, trace[i].t);
  }

  // ----- when saturation cannot happen -----

  function Clients(trace: seq<Call>): set<string> {
    set i | 0 <= i < |trace| :: trace[i].client
  }

  lemma {:induction false} OnlyCallersHaveWindows(cfg: Config, trace: seq<Call>)
    requires Valid(cfg)
    ensures After(cfg, trace).Keys <= Clients(trace)
  {
    if trace != [] {
      var i := |trace| - 1;
      OnlyCallersHaveWindows(cfg, trace[..i]);
      assert trace[i].client in Clients(trace);
      assert Clients(trace[..i]) <= Clients(trace) by {
        forall c | c in Clients(trace[..i]) ensures c in Clients(trace) {
          var k :| 0 <= k < i && trace[..i][k].client == c;
          assert trace[k].client == c;
        }
      }
    }
  }

  // As long as no more clients call than the map has room for, pruning is never noticed.
  lemma FewClientsNeverSaturate(cfg: Config, trace: seq<Call>)
    requires Valid(cfg) && Monotone(trace) && |Clients(trace)| <= cfg.maxClients
    ensures forall i :: 0 <= i < |trace| ==> AnswerTo(cfg, trace, i) == UnboundedAnswerTo(cfg, trace, i)
  {
    forall i | 0 <= i < |trace| ensures !SaturatedAt(cfg, trace, i) {
      OnlyCallersHaveWindows(cfg, trace[..i]);
      var windows, caller := After(cfg, trace[..i]), trace[i].client;
      if caller !in windows {
        assert trace[i].client in Clients(trace);
        forall c | c in Clients(trace[..i]) ensures c in Clients(trace) {
          var k :| 0 <= k < i && trace[..i][k].client == c;
          assert trace[k].client == c;
        }
        assert windows.Keys + {caller} <= Clients(trace);
        SubsetIsSmaller(windows.Keys + {caller}, Clients(trace));
        assert |windows.Keys + {caller}| == |windows| + 1;
        assert |windows| < cfg.maxClients;
      }
    }
    forall i | 0 <= i < |trace| ensures AnswerTo(cfg, trace, i) == UnboundedAnswerTo(cfg, trace, i) {
      PruningIsInvisible(cfg, trace, i);
    }
  }

  // ----- saturation, told by the answers of the trace -----

  // The clients who were allowed in a window that is not over at time t.
  function LiveClients(cfg: Config, trace: seq<Call>, t: int): set<string>
    requires Valid(cfg)
  {
    set k | 0 <= k < |trace| && AnswerTo(cfg, trace, k).allowed && AnswerTo(cfg, trace, k).resetAt > t ::
      trace[k].client
  }

  // The clients the limiter still knows: a new one is added; when there are maxClients of them, a new
  // client makes the limiter forget those without a live window, and is itself refused if that does not help.
  function Known(cfg: Config, trace: seq<Call>): set<string>
    requires Valid(cfg)
  {
    if trace == [] then {}
    else
      var front, call := trace[..|trace| - 1], trace[|trace| - 1];
      var before := Known(cfg, front);
      if call.client in before then before
      else
        var kept := if |before| < cfg.maxClients then before else before * LiveClients(cfg, front, call.t);
        if |kept| < cfg.maxClients then kept + {call.client} else kept
  }

  ghost predicate InLiveWindow(cfg: Config, trace: seq<Call>, client: string, t: int, k: int)
    requires Valid(cfg)
  {
    0 <= k < |trace| && trace[k].client == client && AnswerTo(cfg, trace, k).allowed
    && AnswerTo(cfg, trace, k).resetAt > t
  }

  // The map holds exactly the live windows the answers told of.
  ghost predicate TellsLive(cfg: Config, trace: seq<Call>, client: string, t: int)
    requires Valid(cfg)
  {
    var own := Own(After(cfg, trace), client);
    && (forall k :: InLiveWindow(cfg, trace, client, t, k) ==>
          own.Some? && own.value.resetAt == AnswerTo(cfg, trace, k).resetAt)
    && (own.Some? && own.value.resetAt > t ==> exists k :: InLiveWindow(cfg, trace, client, t, k))
  }

  lemma EarlierLive(cfg: Config, trace: seq<Call>, client: string, t: int, k: int)
    requires Valid(cfg) && trace != [] && k < |trace| - 1
    ensures InLiveWindow(cfg, trace[..|trace| - 1], client, t, k) <==> InLiveWindow(cfg, trace, client, t, k)
    ensures 0 <= k ==> AnswerTo(cfg, trace[..|trace| - 1], k) == AnswerTo(cfg, trace, k)
  {
    if 0 <= k {
      assert trace[..|trace| - 1][..k] == trace[..k];
    }
  }

  lemma {:induction false} TraceTellsLive(cfg: Config, trace: seq<Call>, client: string, t: int)
    requires Valid(cfg) && Monotone(trace) && (trace != [] ==> trace[|trace| - 1].t <= t)
    ensures TellsLive(cfg, trace, client, t)
  {
    if trace != [] {
      var i := |trace| - 1;
      var front, now := trace[..i], trace[i].t;
      TraceTellsLive(cfg, front, client, now);
      LiveAfterCall(cfg, trace, client, t);
    }
  }

  lemma LiveAfterCall(cfg: Config, trace: seq<Call>, client: string, t: int)
    requires Valid(cfg) && trace != [] && trace[|trace| - 1].t <= t
    requires TellsLive(cfg, trace[..|trace| - 1], client, trace[|trace| - 1].t)
    ensures TellsLive(cfg, trace, client, t)
  {
    var i := |trace| - 1;
    var front, now := trace[..i], trace[i].t;
    var before, own := Own(After(cfg, front), client), Own(After(cfg, trace), client);
    forall k | InLiveWindow(cfg, trace, client, t, k)
      ensures own.Some? && own.value.resetAt == AnswerTo(cfg, trace, k).resetAt
    {
      if k < i {
        EarlierLive(cfg, trace, client, now, k);
        assert InLiveWindow(cfg, front, client, now, k);
      }
    }
    if own.Some? && own.value.resetAt > t {
      if trace[i].client == client && AnswerTo(cfg, trace, i).allowed {
        assert InLiveWindow(cfg, trace, client, t, i);
      } else {
        assert own == before;
        var k :| InLiveWindow(cfg, front, client, now, k);
        EarlierLive(cfg, trace, client, t, k);
        assert InLiveWindow(cfg, trace, client, t, k);
      }
    }
  }

  lemma LiveClientsAre(cfg: Config, trace: seq<Call>, t: int)
    requires Valid(cfg) && Monotone(trace) && (trace != [] ==> trace[|trace| - 1].t <= t)
    ensures LiveClients(cfg, trace, t) == Live(After(cfg, trace), t).Keys
  {
    forall client ensures client in LiveClients(cfg, trace, t) <==> client in Live(After(cfg, trace), t) {
      TraceTellsLive(cfg, trace, client, t);
      assert client in LiveClients(cfg, trace, t) <==> exists k :: InLiveWindow(cfg, trace, client, t, k);
    }
  }

  // The limiter's map has exactly these clients.
  lemma {:induction false} KnownAreKept(cfg: Config, trace: seq<Call>)
    requires Valid(cfg) && Monotone(trace)
    ensures Known(cfg, trace) == After(cfg, trace).Keys
  {
    if trace != [] {
      var i := |trace| - 1;
      KnownAreKept(cfg, trace[..i]);
      LiveClientsAre(cfg, trace[..i], trace[i].t);
      KeysAfterCall(cfg, After(cfg, trace[..i]), trace[i].client, trace[i].t);
    }
  }

  lemma KeysAfterCall(cfg: Config, windows: map<string, Window>, client: string, t: int)
    requires Valid(cfg)
    ensures var live, after := Live(windows, t).Keys, Allowed(cfg, windows, client, t).windows.Keys;
            var kept := if |windows.Keys| < cfg.maxClients then windows.Keys else windows.Keys * live;
            after == if client in windows then windows.Keys
                     else if |kept| < cfg.maxClients then kept + {client} else kept
  {
    if client in windows {
      KnownClientStays(cfg, windows, client, t);
    } else {
      RoomyKeys(cfg, windows, t);
      NewClientIsAdded(cfg, windows, client, t);
    }
  }

  lemma KnownClientStays(cfg: Config, windows: map<string, Window>, client: string, t: int)
    requires Valid(cfg) && client in windows
    ensures Allowed(cfg, windows, client, t).windows.Keys == windows.Keys
  {
  }

  lemma RoomyKeys(cfg: Config, windows: map<string, Window>, t: int)
    ensures Roomy(cfg, windows, t).Keys
            == if |windows.Keys| < cfg.maxClients then windows.Keys else windows.Keys * Live(windows, t).Keys
    ensures |Roomy(cfg, windows, t).Keys| == |Roomy(cfg, windows, t)|
  {
    assert windows.Keys * Live(windows, t).Keys == Live(windows, t).Keys;
  }

  lemma NewClientIsAdded(cfg: Config, windows: map<string, Window>, client: string, t: int)
    requires Valid(cfg) && client !in windows
    ensures var kept := Roomy(cfg, windows, t);
            Allowed(cfg, windows, client, t).windows.Keys
            == if |kept| < cfg.maxClients then kept.Keys + {client} else kept.Keys
  {
  }

  // Every answer from the trace alone: its window is the client's live one, or starts now; the call is
  // denied exactly when the limit of this window is used up, or when the client is not known any more and
  // maxClients others have a live window.
  lemma AnswerIsToldByTrace(cfg: Config, trace: seq<Call>, i: nat)
    requires Valid(cfg) && Monotone(trace) && i < |trace|
    ensures var front, client, t, answer := trace[..i], trace[i].client, trace[i].t, AnswerTo(cfg, trace, i);
            var used, live := AllowedInWindow(cfg, front, client, answer.resetAt), LiveClients(cfg, front, t);
            && (client !in live ==> answer.resetAt == t + cfg.windowMs)
            && (forall k :: InLiveWindow(cfg, front, client, t, k) ==>
                  answer.resetAt == AnswerTo(cfg, front, k).resetAt)
            && (answer.allowed <==> used < cfg.limit && !(client !in Known(cfg, front) && |live| >= cfg.maxClients))
            && answer.remaining == if answer.allowed then cfg.limit - used - 1 else 0
  {
    var front, client, t := trace[..i], trace[i].client, trace[i].t;
    KnownAreKept(cfg, front);
    LiveClientsAre(cfg, front, t);
    TraceTellsLive(cfg, front, client, t);
    AnswersTellTheWindow(cfg, trace, i);
    SaturatedExactly(cfg, After(cfg, front), client, t);
    assert AnswerTo(cfg, trace, i) == Allowed(cfg, After(cfg, front), client, t).decision;
  }

  lemma SaturatedExactly(cfg: Config, windows: map<string, Window>, client: string, t: int)
    ensures Saturated(cfg, windows, client, t)
            <==> client !in windows && |Live(windows, t).Keys| >= cfg.maxClients
  {
    SubsetIsSmaller(Live(windows, t).Keys, windows.Keys);
  }

  // A client who never called before is allowed exactly when fewer than maxClients clients have a live
  // window, however many have called.
  lemma NewClientIsAllowedExactly(cfg: Config, trace: seq<Call>, i: nat)
    requires Valid(cfg) && Monotone(trace) && i < |trace|
    requires forall k :: 0 <= k < i ==> trace[k].client != trace[i].client
    ensures AnswerTo(cfg, trace, i).allowed <==> |LiveClients(cfg, trace[..i], trace[i].t)| < cfg.maxClients
  {
    AnswerIsToldByTrace(cfg, trace, i);
    KnownAreKept(cfg, trace[..i]);
    OnlyCallersHaveWindows(cfg, trace[..i]);
    NeverAllowed(cfg, trace[..i], trace[i].client, AnswerTo(cfg, trace, i).resetAt);
  }

  lemma {:induction false} NeverAllowed(cfg: Config, trace: seq<Call>, client: string, resetAt: int)
    requires Valid(cfg) && forall k :: 0 <= k < |trace| ==> trace[k].client != client
    ensures AllowedInWindow(cfg, trace, client, resetAt) == 0
  {
    if trace != [] {
      NeverAllowed(cfg, trace[..|trace| - 1], client, resetAt);
    }
  }
}
