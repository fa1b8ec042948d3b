/** Time-sliced rate limits on expiring counters, whose keys repeat. */
module RateLimit {
  import opened Options
  import opened Arithmetic

  /** One client of one limiter: `quota` requests may pass in each slice of `period` seconds. The counters'
      keys name the second of a slice's start modulo `slots`. `process` says which process serves a request. */
  datatype Config = Config(period: nat, slots: nat, quota: int, site: bool, process: nat -> nat)

  ghost predicate Valid(c: Config) {
    c.period >= 1 && c.slots >= 1
  }

  /** What ratelimit_agent works with: %S of the slice's start, and a count above `limit` is refused. */
  function AgentConfig(limit: int, sliceSize: nat, process: nat -> nat): Config {
    Config(if sliceSize < 60 then sliceSize else 60, 60, limit, false, process)
  }

  /** What run_sitewide_ratelimits works with: %H%M%S, and the last of `maxReqs` is refused already. */
  function SiteConfig(maxReqs: int, period: nat, process: nat -> nat): Config {
    Config(period, 24 * 60 * 60, maxReqs - 1, true, process)
  }

  /** _get_ratelimit_timeslice: the start of the slice and the seconds to the next one. */
  function SliceStart(c: Config, t: nat): nat
    requires Valid(c)
  {
    t / c.period * c.period
  }

  function RetryAfter(c: Config, t: nat): int
    requires Valid(c)
  {
    c.period - t % c.period
  }

  function Slot(c: Config, t: nat): nat
    requires Valid(c)
  {
    SliceStart(c, t) % c.slots
  }

  /** How long a request that read the clock at `t` asks memcache to keep a counter. */
  function Lifetime(c: Config, t: nat): int
    requires Valid(c)
  {
    if c.site then RetryAfter(c, t) + 1 else c.period + 1
  }

  function Expiry(c: Config, t: nat, now: nat): int
    requires Valid(c)
  {
    now + Lifetime(c, t)
  }

  lemma SliceOf(c: Config, t: nat)
    requires Valid(c)
    ensures SliceStart(c, t) <= t < SliceStart(c, t) + c.period && SliceStart(c, t) % c.period == 0
    ensures SliceStart(c, t) == t - t % c.period
  {
    var q, p := t / c.period, c.period;
    assert t == q * p + t % p;
    ModOfMultiple(q, p);
  }

  lemma {:induction false} ModOfMultiple(q: nat, p: nat)
    requires p >= 1
    ensures q * p % p == 0
  {
    if q > 0 {
      ModOfMultiple(q - 1, p);
      assert q * p == (q - 1) * p + p;
      ModPlus((q - 1) * p, p);
    }
  }

  lemma ModPlus(x: nat, p: nat)
    requires p >= 1
    ensures (x + p) % p == x % p
  {
    var q := x / p;
    assert x + p == (q + 1) * p + x % p;
    DivIs(x + p, p, q + 1, x % p);
  }

  lemma InSlice(c: Config, s: nat, t: nat)
    requires Valid(c) && s % c.period == 0 && s <= t < s + c.period
    ensures SliceStart(c, t) == s
  {
    assert s == s / c.period * c.period;
    DivIs(t, c.period, s / c.period, t - s);
  }

  // ------------------------------------------------------------------ the counters

  datatype Counter = Counter(value: int, expires: int)

  predicate Live(counters: map<nat, Counter>, slot: nat, now: nat) {
    slot in counters && now < counters[slot].expires
  }

  function Added(counters: map<nat, Counter>, slot: nat, value: int, time: int, now: nat): map<nat, Counter> {
    if Live(counters, slot, now) then counters else counters[slot := Counter(value, now + time)]
  }

  function Bumped(counters: map<nat, Counter>, slot: nat, now: nat): map<nat, Counter> {
    if Live(counters, slot, now) then
      counters[slot := Counter(counters[slot].value + 1, counters[slot].expires)]
    else
      counters
  }

  /** LocalCache keeps no times, and counts only what it holds. */
  function LocallyAdded(local: map<nat, int>, slot: nat, value: int): map<nat, int> {
    if slot in local then local else local[slot := value]
  }

  function LocallyBumped(local: map<nat, int>, slot: nat): map<nat, int> {
    if slot in local then local[slot := local[slot] + 1] else local
  }

  // ------------------------------------------------------------------ concurrent requests

  /** `Read` has read the clock, `Ready` has added its counter; `Missed` and `Failed` found no counter to
      increment, and only the site-wide limiter can go on from there. */
  datatype Request = Idle | Read(t: nat) | Ready(t: nat) | Missed(t: nat) | Failed(t: nat) | Counted(t: nat, n: int)

  /** A request that was counted: when it read the clock, and the count it was given. */
  datatype Hit = Hit(t: nat, n: int)

  datatype World = World(now: nat, counters: map<nat, Counter>, requests: seq<Request>,
                         locals: map<nat, map<nat, int>>, log: seq<Hit>)

  datatype Action = Tick(seconds: nat) | Move(r: nat) | Reset(p: nat)

  function Local(c: Config, w: World, r: nat): map<nat, int> {
    if c.process(r) in w.locals then w.locals[c.process(r)] else map[]
  }

  /** The next cache call of the request `r`, which every layer of the chain gets. */
  function Moved(c: Config, w: World, r: nat): World
    requires Valid(c) && r < |w.requests|
  {
    var local, p := Local(c, w, r), c.process(r);
    match w.requests[r]
    case Idle =>
      w.(requests := w.requests[r := Read(w.now)])
    case Read(t) =>
      w.(requests := w.requests[r := Ready(t)],
         counters := Added(w.counters, Slot(c, t), 0, Lifetime(c, t), w.now),
         locals := w.locals[p := LocallyAdded(local, Slot(c, t), 0)])
    case Ready(t) =>
      var v := w.(counters := Bumped(w.counters, Slot(c, t), w.now),
                  locals := w.locals[p := LocallyBumped(local, Slot(c, t))]);
      if Live(w.counters, Slot(c, t), w.now) then
        var n := w.counters[Slot(c, t)].value + 1;
        v.(requests := w.requests[r := Counted(t, n)], log := w.log + [Hit(t, n)])
      else
        v.(requests := w.requests[r := if c.site then Missed(t) else Failed(t)])
    case Missed(t) =>
      w.(requests := w.requests[r := Counted(t, 1)],
         counters := Added(w.counters, Slot(c, t), 1, Lifetime(c, t), w.now),
         locals := w.locals[p := LocallyAdded(local, Slot(c, t), 1)],
         log := w.log + [Hit(t, 1)])
    case _ => w
  }

  function Next(c: Config, w: World, a: Action): World
    requires Valid(c)
  {
    match a
    case Tick(seconds) => w.(now := w.now + seconds)
    case Move(r) => if r < |w.requests| then Moved(c, w, r) else w
    case Reset(p) => w.(locals := w.locals[p := map[]])
  }

  function Run(c: Config, w: World, acts: seq<Action>): World
    requires Valid(c)
    decreases |acts|
  {
    if acts == [] then w else Run(c, Next(c, w, acts[0]), acts[1..])
  }

  ghost predicate Start(w: World) {
    w.counters == map[] && w.log == [] && forall r :: 0 <= r < |w.requests| ==> w.requests[r].Idle?
  }

  /** The request has a cache call to make. */
  predicate Calling(r: Request) {
    r.Read? || r.Ready? || r.Missed?
  }

  /** A request makes its cache calls before its slice ends, or less than `late` seconds after that. */
  ghost predicate Prompt(c: Config, late: nat, w: World, a: Action)
    requires Valid(c)
  {
    a.Move? && a.r < |w.requests| && Calling(w.requests[a.r]) ==>
      w.now < SliceStart(c, w.requests[a.r].t) + c.period + late
  }

  ghost predicate AllPrompt(c: Config, late: nat, w: World, acts: seq<Action>)
    requires Valid(c)
    decreases |acts|
  {
    acts != [] ==> Prompt(c, late, w, acts[0]) && AllPrompt(c, late, Next(c, w, acts[0]), acts[1..])
  }

  /** How many requests of the slice `s` were counted. */
  function CountIn(c: Config, log: seq<Hit>, s: nat): nat
    requires Valid(c)
    decreases |log|
  {
    if log == [] then 0
    else CountIn(c, log[..|log| - 1], s) + (if SliceStart(c, log[|log| - 1].t) == s then 1 else 0)
  }

  /** How many requests that read the clock from `from` until before `to` passed. */
  function PassesIn(c: Config, log: seq<Hit>, from: int, to: int): nat
    decreases |log|
  {
    if log == [] then 0
    else
      var last := log[|log| - 1];
      PassesIn(c, log[..|log| - 1], from, to) + (if from <= last.t < to && last.n <= c.quota then 1 else 0)
  }

  /** Every request is given its place among those of its slice. */
  ghost predicate Exact(c: Config, log: seq<Hit>)
    requires Valid(c)
  {
    forall i :: 0 <= i < |log| ==> log[i].n == CountIn(c, log[..i], SliceStart(c, log[i].t)) + 1
  }

  lemma CountAppend(c: Config, log: seq<Hit>, h: Hit, s: nat)
    requires Valid(c)
    ensures CountIn(c, log + [h], s) == CountIn(c, log, s) + if SliceStart(c, h.t) == s then 1 else 0
  {
  }

  lemma ExactAppend(c: Config, log: seq<Hit>, h: Hit)
    requires Valid(c) && Exact(c, log) && h.n == CountIn(c, log, SliceStart(c, h.t)) + 1
    ensures Exact(c, log + [h])
  {
    forall i | 0 <= i < |log| + 1
      ensures (log + [h])[i].n == CountIn(c, (log + [h])[..i], SliceStart(c, (log + [h])[i].t)) + 1
    {
      assert (log + [h])[..i] == log[..i];
      assert log[..|log|] == log;
    }
  }

  lemma {:induction false} NoneYet(c: Config, log: seq<Hit>, s: nat)
    requires Valid(c) && forall i :: 0 <= i < |log| ==> log[i].t < s
    ensures CountIn(c, log, s) == 0
  {
    if log != [] {
      NoneYet(c, log[..|log| - 1], s);
      SliceOf(c, log[|log| - 1].t);
    }
  }

  // ------------------------------------------------------------------ the limiters themselves

  /** The steps of a request that is the only one. */
  lemma OnlyAdds(c: Config, now: nat, counters: map<nat, Counter>, local: map<nat, int>, t: nat)
    requires Valid(c) && c.process == One
    ensures var k := Slot(c, t); var v := Moved(c, Only(now, counters, local, Read(t)), 0);
      && v.counters == Added(counters, k, 0, Lifetime(c, t), now)
      && v.locals == map[0 := LocallyAdded(local, k, 0)]
  {
  }

  lemma OnlyRaises(c: Config, now: nat, counters: map<nat, Counter>, local: map<nat, int>, t: nat)
    requires Valid(c) && c.process == One
    ensures var k := Slot(c, t); var v := Moved(c, Only(now, counters, local, Ready(t)), 0);
      if Live(counters, k, now) then
        var n := counters[k].value + 1;
        && v.counters == counters[k := Counter(n, counters[k].expires)]
        && v.locals == map[0 := LocallyBumped(local, k)] && v.requests == [Counted(t, n)]
      else
        v == Only(now, counters, LocallyBumped(local, k), if c.site then Missed(t) else Failed(t))
  {
  }

  lemma OnlyFallsBack(c: Config, now: nat, counters: map<nat, Counter>, local: map<nat, int>, t: nat)
    requires Valid(c) && c.process == One
    ensures var k := Slot(c, t); var v := Moved(c, Only(now, counters, local, Missed(t)), 0);
      && v.counters == Added(counters, k, 1, Lifetime(c, t), now)
      && v.locals == map[0 := LocallyAdded(local, k, 1)] && v.requests == [Counted(t, 1)]
  {
  }

  /** A local cache in front of memcache, and the clock. */
  class MemcacheChain {
    var local: map<nat, int>
    var shared: map<nat, Counter>
    var now: nat

    method Add(slot: nat, value: int, time: int)
      modifies this`local, this`shared
      ensures local == LocallyAdded(old(local), slot, value)
      ensures shared == Added(old(shared), slot, value, time, now)
      ensures shared == if slot in old(shared) && now < old(shared)[slot].expires then old(shared)
        else old(shared)[slot := Counter(value, now + time)]
    {
      if slot !in local {
        local := local[slot := value];
      }
      if slot !in shared || shared[slot].expires <= now {
        shared := shared[slot := Counter(value, now + time)];
      }
    }

    /** None is memcache's NotFound; the local cache has been incremented before it is raised. */
    method Incr(slot: nat) returns (n: Option<int>)
      modifies this`local, this`shared
      ensures local == LocallyBumped(old(local), slot) && shared == Bumped(old(shared), slot, now)
      ensures n.Some? <==> Live(old(shared), slot, now)
      ensures n.Some? <==> slot in old(shared) && now < old(shared)[slot].expires
      ensures n.Some? ==>
        && n.value == old(shared)[slot].value + 1
        && shared == old(shared)[slot := Counter(n.value, old(shared)[slot].expires)]
      ensures n.None? ==> shared == old(shared)
    {
      if slot in local {
        local := local[slot := local[slot] + 1];
      }
      if slot !in shared || shared[slot].expires <= now {
        return None;
      }
      shared := shared[slot := Counter(shared[slot].value + 1, shared[slot].expires)];
      return Some(shared[slot].value);
    }

    /** Whatever other requests do to the counters until this one makes its next call. */
    method Meanwhile()
      modifies this`shared, this`now
      ensures now >= old(now)
    {
      var counters: map<nat, Counter>, seconds: nat := *, *;
      shared, now := counters, now + seconds;
    }

    /** ratelimit_agent: the steps Read and Ready of the machine, with anything in between. */
    method RatelimitAgent(limit: int, sliceSize: nat) returns (answer: Answer, ghost trace: Trace)
      requires sliceSize >= 1
      modifies this
      // a request passes exactly if the incr finds a live counter under its slice's key, below the limit
      ensures var p := if sliceSize < 60 then sliceSize else 60; var key := old(now) / p * p % 60;
        answer == Pass <==>
          key in trace.found && trace.later < trace.found[key].expires && trace.found[key].value + 1 <= limit
      ensures AgentEffect(limit, sliceSize, old(now), old(shared), trace, shared, answer)
      ensures AgentSteps(limit, sliceSize, old(now), old(shared), old(local), trace, shared, local, answer)
    {
      hide AgentSteps, LocallyAdded, LocallyBumped;
      ghost var t, before, first := now, shared, local;
      var period := if sliceSize < 60 then sliceSize else 60;
      var start, retryAfter := now / period * period, period - now % period;
      var slot := start % 60;
      Add(slot, 0, period + 1);
      ghost var added := shared;
      Meanwhile();
      trace := Trace(added, shared, now);
      var n := Incr(slot);
      answer := if n.None? then Broken else if n.value > limit then TooMany(retryAfter) else Pass;
      AgentEffectIsSteps(limit, sliceSize, t, before, first, trace, shared, local, answer);
    }

    /** run_sitewide_ratelimits from the counter on: the same two steps, and the step Missed where the counter
        was gone. */
    method SitewideRatelimits(maxReqs: int, period: nat, enforce: bool)
        returns (answer: Answer, headers: Headers, ghost trace: Trace)
      requires period >= 1
      modifies this
      // the last of `maxReqs` requests is refused already
      ensures answer.TooMany? <==> enforce && headers.used >= maxReqs
      ensures var key := old(now) / period * period % 86400;
        headers.used ==
          if key in trace.found && trace.later < trace.found[key].expires then trace.found[key].value + 1 else 1
      ensures SiteEffect(maxReqs, period, enforce, old(now), old(shared), trace, shared, answer, headers)
      ensures SiteSteps(maxReqs, period, enforce, old(now), old(shared), old(local), trace, shared, local, answer,
                        headers)
    {
      hide SiteSteps, LocallyAdded, LocallyBumped;
      ghost var t, before, first := now, shared, local;
      var start, retryAfter := now / period * period, period - now % period;
      var slot := start % 86400;
      Add(slot, 0, retryAfter + 1);
      ghost var added := shared;
      Meanwhile();
      trace := Trace(added, shared, now);
      var n := Incr(slot);
      var recent;
      if n.Some? {
        recent := n.value;
      } else {
        Add(slot, 1, retryAfter + 1);
        recent := 1;
      }
      var remaining := if maxReqs - recent > 0 then maxReqs - recent else 0;
      headers := Headers(recent, remaining, retryAfter);
      answer := if remaining <= 0 && enforce then TooMany(retryAfter) else Pass;
      SiteEffectIsSteps(maxReqs, period, enforce, t, before, first, trace, shared, local, answer, headers);
    }
  }

  /** What the agents' limiter does to memcache, and what it answers. `t` is when it read the clock, `before`
      and `after` are the counters before its first and after its last call. */
  ghost predicate AgentEffect(limit: int, sliceSize: nat, t: nat, before: map<nat, Counter>, trace: Trace,
                              after: map<nat, Counter>, answer: Answer)
    requires sliceSize >= 1
  {
    var p := if sliceSize < 60 then sliceSize else 60;
    var key := t / p * p % 60;
    && t <= trace.later
    && trace.added == (if key in before && t < before[key].expires then before
                       else before[key := Counter(0, t + p + 1)])
    && if key in trace.found && trace.later < trace.found[key].expires then
         var n := trace.found[key].value + 1;
         && after == trace.found[key := Counter(n, trace.found[key].expires)]
         && answer == if n <= limit then Pass else TooMany(p - t % p)
       else
         after == trace.found && answer == Broken
  }

  /** The same as the steps of the machine. */
  ghost predicate AgentSteps(limit: int, sliceSize: nat, t: nat, before: map<nat, Counter>, local: map<nat, int>,
                             trace: Trace, after: map<nat, Counter>, localAfter: map<nat, int>, answer: Answer)
    requires sliceSize >= 1
  {
    var c := AgentConfig(limit, sliceSize, One);
    var first := Moved(c, Only(t, before, local, Read(t)), 0);
    var second := Moved(c, Only(trace.later, trace.found, first.locals[0], Ready(t)), 0);
    && trace.added == first.counters && after == second.counters && localAfter == second.locals[0]
    && answer == AnswerTo(c, second.requests[0], true)
  }

  lemma AgentEffectIsSteps(limit: int, sliceSize: nat, t: nat, before: map<nat, Counter>, local: map<nat, int>,
                           trace: Trace, after: map<nat, Counter>, localAfter: map<nat, int>, answer: Answer)
    requires sliceSize >= 1 && AgentEffect(limit, sliceSize, t, before, trace, after, answer)
    requires var p := if sliceSize < 60 then sliceSize else 60;
      var k := t / p * p % 60;
      localAfter == LocallyBumped(LocallyAdded(local, k, 0), k)
    ensures AgentSteps(limit, sliceSize, t, before, local, trace, after, localAfter, answer)
  {
    var c := AgentConfig(limit, sliceSize, One);
    var k := t / c.period * c.period % 60;
    hide Moved, LocallyAdded, LocallyBumped;
    OnlyAdds(c, t, before, local, t);
    OnlyRaises(c, trace.later, trace.found, LocallyAdded(local, k, 0), t);
  }

  /** What the site-wide limiter does to memcache, and what it answers. `t` is when it read the clock, `before`
      and `after` are the counters before its first and after its last call. */
  ghost predicate SiteEffect(maxReqs: int, period: nat, enforce: bool, t: nat, before: map<nat, Counter>,
                             trace: Trace, after: map<nat, Counter>, answer: Answer, headers: Headers)
    requires period >= 1
  {
    var key, reset := t / period * period % 86400, period - t % period;
    && t <= trace.later
    && trace.added == (if key in before && t < before[key].expires then before
                       else before[key := Counter(0, t + reset + 1)])
    && (if key in trace.found && trace.later < trace.found[key].expires then
          && headers.used == trace.found[key].value + 1
          && after == trace.found[key := Counter(headers.used, trace.found[key].expires)]
        else
          headers.used == 1 && after == trace.found[key := Counter(1, trace.later + reset + 1)])
    && headers.reset == reset
    && headers.remaining == (if headers.used <= maxReqs then maxReqs - headers.used else 0)
    && answer == if enforce && headers.used >= maxReqs then TooMany(reset) else Pass
  }

  /** The same as the steps of the machine. */
  ghost predicate SiteSteps(maxReqs: int, period: nat, enforce: bool, t: nat, before: map<nat, Counter>,
                            local: map<nat, int>, trace: Trace, after: map<nat, Counter>,
                            localAfter: map<nat, int>, answer: Answer, headers: Headers)
    requires period >= 1
  {
    var c := SiteConfig(maxReqs, period, One);
    var first := Moved(c, Only(t, before, local, Read(t)), 0);
    var second := Moved(c, Only(trace.later, trace.found, first.locals[0], Ready(t)), 0);
    var last := if second.requests[0].Missed? then Moved(c, second, 0) else second;
    && trace.added == first.counters && after == last.counters && localAfter == last.locals[0]
    && last.requests == [Counted(t, headers.used)] && answer == AnswerTo(c, last.requests[0], enforce)
  }

  lemma SiteTimes(maxReqs: int, period: nat, t: nat)
    requires period >= 1
    ensures var c := SiteConfig(maxReqs, period, One);
      && Valid(c) && c.process == One && c.site && c.quota == maxReqs - 1
      && Slot(c, t) == t / period * period % 86400
      && RetryAfter(c, t) == period - t % period && Lifetime(c, t) == period - t % period + 1
  {
  }

  lemma SiteEffectIsSteps(maxReqs: int, period: nat, enforce: bool, t: nat, before: map<nat, Counter>,
                          local: map<nat, int>, trace: Trace, after: map<nat, Counter>, localAfter: map<nat, int>,
                          answer: Answer, headers: Headers)
    requires period >= 1
    requires SiteEffect(maxReqs, period, enforce, t, before, trace, after, answer, headers)
    requires var k := t / period * period % 86400; var l := LocallyBumped(LocallyAdded(local, k, 0), k);
      localAfter == if Live(trace.found, k, trace.later) then l else LocallyAdded(l, k, 1)
    ensures SiteSteps(maxReqs, period, enforce, t, before, local, trace, after, localAfter, answer, headers)
  {
    hide Moved, LocallyAdded, LocallyBumped, SiteConfig, Slot, SliceStart, RetryAfter, Lifetime, Valid;
    var c, k := SiteConfig(maxReqs, period, One), t / period * period % 86400;
    var l := LocallyAdded(local, k, 0);
    SiteTimes(maxReqs, period, t);
    OnlyAdds(c, t, before, local, t);
    OnlyRaises(c, trace.later, trace.found, l, t);
    OnlyFallsBack(c, trace.later, trace.found, LocallyBumped(l, k), t);
  }

  datatype Headers = Headers(used: int, remaining: int, reset: int)

  /** `Broken` is the NotFound that ratelimit_agent does not catch. */
  datatype Answer = Pass | TooMany(retryAfter: int) | Broken

  /** What the counters were after the add, and what the incr found, and when. */
  datatype Trace = Trace(added: map<nat, Counter>, found: map<nat, Counter>, later: nat)

  function One(r: nat): nat {
    0
  }

  function Only(now: nat, counters: map<nat, Counter>, local: map<nat, int>, request: Request): World {
    World(now, counters, [request], map[0 := local], [])
  }

  /** How the limiter answers a request that has been through its last step. */
  function AnswerTo(c: Config, request: Request, enforce: bool): Answer
    requires Valid(c)
  {
    match request
    case Counted(t, n) => if n <= c.quota || !enforce then Pass else TooMany(RetryAfter(c, t))
    case _ => Broken
  }
}
