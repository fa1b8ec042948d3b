/** What the rate limiter promises: which counters outlive their slice, how many requests pass, and exactly
    when it fails. */
module RateProperties {
  import opened Options
  import opened Arithmetic
  import opened RateLimit

  // ------------------------------------------------------------------ counters that outlive their slice

  lemma MultiplesApart(p: nat, s: nat, s': nat)
    requires p >= 1 && s < s' && s % p == 0 && s' % p == 0
    ensures s + p <= s' && (s' != s + p ==> s + 2 * p <= s')
  {
    var i, j := s / p, s' / p;
    assert s == i * p && s' == j * p;
    assert i < j;
    assert (j - i) * p == s' - s;
    if j - i >= 2 {
      assert (j - i) * p >= 2 * p;
    }
  }

  lemma SharedSlot(s: nat, p: nat, m: nat)
    requires m >= 1
    ensures (s + p) % m == s % m <==> p % m == 0
  {
    var q, r := p / m, p % m;
    var i, j := s / m, s % m;
    assert s + p == (i + q) * m + (j + r);
    if j + r < m {
      DivIs(s + p, m, i + q, j + r);
    } else {
      assert s + p == (i + q + 1) * m + (j + r - m);
      DivIs(s + p, m, i + q + 1, j + r - m);
    }
  }

  /** The slice `j` periods later has the same key. */
  predicate Returns(c: Config, j: nat)
    requires Valid(c)
  {
    j * c.period % c.slots == 0
  }

  /** After how many slices, `j` at least, a key comes back. */
  function CycleFrom(c: Config, j: nat): (n: nat)
    requires Valid(c) && 1 <= j <= c.slots
    ensures j <= n <= c.slots
    decreases c.slots - j
  {
    if j == c.slots || Returns(c, j) then j else CycleFrom(c, j + 1)
  }

  function Cycle(c: Config): nat
    requires Valid(c)
  {
    CycleFrom(c, 1)
  }

  lemma ReturnsInTheEnd(c: Config)
    requires Valid(c)
    ensures Returns(c, c.slots)
  {
    ModOfMultiple(c.period, c.slots);
    assert c.period * c.slots == c.slots * c.period;
  }

  lemma {:induction false} CycleFromIsLeast(c: Config, j: nat)
    requires Valid(c) && 1 <= j <= c.slots
    ensures Returns(c, CycleFrom(c, j))
    ensures forall i :: j <= i < CycleFrom(c, j) ==> !Returns(c, i)
    decreases c.slots - j
  {
    hide Returns;
    ReturnsInTheEnd(c);
    if j < c.slots && !Returns(c, j) {
      CycleFromIsLeast(c, j + 1);
    }
  }

  /** The slice `later` begins after `now`, and its counter has the key `k`. */
  ghost predicate LaterWithKey(c: Config, now: nat, k: nat, later: nat)
    requires Valid(c)
  {
    now < later && later % c.period == 0 && later % c.slots == k
  }

  ghost predicate CarriesInto(c: Config, s: nat, expires: int, later: nat)
    requires Valid(c)
  {
    LaterWithKey(c, s, s % c.slots, later) && later < expires
  }

  lemma PeriodsLater(c: Config, s: nat, later: nat) returns (j: int)
    requires Valid(c) && s % c.period == 0 && s < later && later % c.period == 0
    ensures j >= 1 && later == s + j * c.period
    ensures later % c.slots == s % c.slots <==> Returns(c, j)
  {
    var p := c.period;
    j := later / p - s / p;
    assert s == s / p * p && later == later / p * p;
    assert later - s == j * p;
    if j < 1 {
      MulOrder(j, 0, p);
    }
    SharedSlot(s, later - s, c.slots);
  }

  /** The key of a slice comes back a cycle later, and not before. */
  lemma KeyComesBack(c: Config, s: nat, later: nat)
    requires Valid(c) && s % c.period == 0
    ensures LaterWithKey(c, s, s % c.slots, s + Cycle(c) * c.period)
    ensures LaterWithKey(c, s, s % c.slots, later) ==> s + Cycle(c) * c.period <= later
  {
    var n := Cycle(c);
    CycleFromIsLeast(c, 1);
    CycleLater(c, s, n);
    if LaterWithKey(c, s, s % c.slots, later) {
      var j := PeriodsLater(c, s, later);
      hide Returns;
      assert j >= n;
      MulOrder(n, j, c.period);
    }
  }

  lemma CycleLater(c: Config, s: nat, n: nat)
    requires Valid(c) && s % c.period == 0 && n >= 1 && Returns(c, n)
    ensures LaterWithKey(c, s, s % c.slots, s + n * c.period)
  {
    var p := c.period;
    MulOrder(1, n, p);
    SharedSlot(s, n * p, c.slots);
    ModOfMultiple(s / p + n, p);
    assert s == s / p * p && (s / p + n) * p == s / p * p + n * p;
  }

  /** Whoever adds a counter, and however late: it outlives its slice into one with the same key exactly if the
      add comes that many periods, but one, after the request read the clock (site-wide), or after the slice
      began (agents). */
  lemma CarryOverIff(c: Config, s: nat, t: nat, now: nat)
    requires Valid(c) && s % c.period == 0 && s <= t < s + c.period && t <= now
    ensures (exists later :: CarriesInto(c, s, Expiry(c, t, now), later))
      <==> (Cycle(c) - 1) * c.period <= now - (if c.site then t else s)
  {
    InSlice(c, s, t);
    SliceOf(c, t);
    var back, expires := s + Cycle(c) * c.period, Expiry(c, t, now);
    assert (Cycle(c) - 1) * c.period == Cycle(c) * c.period - c.period;
    assert back < expires <==> (Cycle(c) - 1) * c.period <= now - (if c.site then t else s);
    hide Cycle, Expiry;
    KeyComesBack(c, s, back);
    if back < expires {
      assert CarriesInto(c, s, expires, back);
    }
    forall later | CarriesInto(c, s, expires, later) ensures back < expires {
      KeyComesBack(c, s, later);
    }
  }

  /** A counter lives on past the end of its slice, and at most to the end of the next one if it is added in
      time; each second of lateness adds one. */
  lemma Lives(c: Config, late: nat, s: nat, t: nat, now: nat)
    requires Valid(c) && s % c.period == 0 && s <= t < s + c.period && t <= now < s + c.period + late
    ensures s + c.period < Expiry(c, t, now) <= s + 2 * c.period + late
  {
    InSlice(c, s, t);
    SliceOf(c, t);
  }

  /** The limiter is sound for calls that are less than `late` seconds late, if that is at most one second, and
      no key comes back so soon that it finds an old counter. */
  ghost predicate Sound(c: Config, late: nat)
    requires Valid(c)
  {
    && late <= 1
    && c.period % c.slots != 0
    && (late == 1 ==> 2 * c.period % c.slots != 0)
  }

  /** For agents the slice sizes that are not sound are 60 and more, and 30 if calls may be a second late. */
  lemma AgentsSoundIff(limit: int, sliceSize: nat, process: nat -> nat, late: nat)
    requires sliceSize >= 1
    ensures var c := AgentConfig(limit, sliceSize, process);
      Valid(c) && (Sound(c, late) <==> late <= 1 && sliceSize < 60 && !(late == 1 && sliceSize == 30))
  {
  }

  /** For the site-wide limits they are the periods of whole days, and of half days if calls may be late. */
  lemma SiteSoundIff(maxReqs: int, period: nat, process: nat -> nat, late: nat)
    requires period >= 1
    ensures var c := SiteConfig(maxReqs, period, process);
      && Valid(c)
      && (Sound(c, late) <==> late <= 1 && period % 86400 != 0 && !(late == 1 && period % 43200 == 0))
  {
    var q, r := period / 43200, period % 43200;
    DivIs(2 * period, 86400, q, 2 * r);
  }

  // ------------------------------------------------------------------ timely runs

  /** Requests of the slice `s` may be at work. */
  ghost predicate Open(c: Config, late: nat, s: nat, now: nat)
    requires Valid(c)
  {
    s % c.period == 0 && s <= now < s + c.period + late
  }

  /** The counter of the slice `s` is the number of its requests, or nobody has added it yet. */
  ghost predicate Tracks(c: Config, w: World, s: nat)
    requires Valid(c)
  {
    var k := s % c.slots;
    if Live(w.counters, k, w.now) then
      w.counters[k].value == CountIn(c, w.log, s) && w.counters[k].expires > s + c.period
    else
      CountIn(c, w.log, s) == 0 && NoneReady(c, w.requests, s)
  }

  ghost predicate NoneReady(c: Config, requests: seq<Request>, s: nat)
    requires Valid(c)
  {
    forall r :: 0 <= r < |requests| && requests[r].Ready? ==> SliceStart(c, requests[r].t) != s
  }

  /** No counter lives into a slice to come with its key. */
  ghost predicate Expiring(c: Config, counters: map<nat, Counter>, now: nat)
    requires Valid(c)
  {
    forall k, later: nat :: k in counters && LaterWithKey(c, now, k, later) ==> counters[k].expires <= later
  }

  /** All clocks were read before now, and no counter was ever missing. */
  ghost predicate Bounded(w: World) {
    && (forall r :: 0 <= r < |w.requests| ==> !w.requests[r].Missed? && !w.requests[r].Failed?)
    && (forall r :: 0 <= r < |w.requests| && !w.requests[r].Idle? ==> w.requests[r].t <= w.now)
    && (forall i :: 0 <= i < |w.log| ==> w.log[i].t <= w.now)
  }

  ghost predicate Inv(c: Config, late: nat, w: World)
    requires Valid(c)
  {
    && Bounded(w) && Exact(c, w.log) && Expiring(c, w.counters, w.now)
    && forall s: nat :: Open(c, late, s, w.now) ==> Tracks(c, w, s)
  }

  lemma StartsInv(c: Config, late: nat, w: World)
    requires Valid(c) && Start(w)
    ensures Inv(c, late, w)
  {
  }

  /** Slices that are open together have different keys. */
  lemma OpenKeys(c: Config, late: nat, s: nat, s': nat, now: nat)
    requires Valid(c) && Sound(c, late) && Open(c, late, s, now) && Open(c, late, s', now) && s != s'
    ensures s % c.slots != s' % c.slots
  {
    if s < s' {
      MultiplesApart(c.period, s, s');
      SharedSlot(s, c.period, c.slots);
    } else {
      MultiplesApart(c.period, s', s);
      SharedSlot(s', c.period, c.slots);
    }
  }

  lemma NewSliceTracks(c: Config, w: World, later: nat, s: nat)
    requires Valid(c) && Bounded(w) && Expiring(c, w.counters, w.now)
    requires w.now < s <= later && s % c.period == 0
    ensures Tracks(c, w.(now := later), s)
  {
    assert LaterWithKey(c, w.now, s % c.slots, s);
    NoneYet(c, w.log, s);
    forall r | 0 <= r < |w.requests| && w.requests[r].Ready? ensures SliceStart(c, w.requests[r].t) != s {
      SliceOf(c, w.requests[r].t);
    }
  }

  lemma TickKeepsInv(c: Config, late: nat, w: World, seconds: nat)
    requires Valid(c) && late <= 1 && Inv(c, late, w)
    ensures Inv(c, late, Next(c, w, Tick(seconds)))
  {
    var v := Next(c, w, Tick(seconds));
    forall s: nat | Open(c, late, s, v.now) ensures Tracks(c, v, s) {
      if s <= w.now {
        assert Open(c, late, s, w.now);
      } else {
        NewSliceTracks(c, w, v.now, s);
      }
    }
    forall k, later: nat | k in v.counters && LaterWithKey(c, v.now, k, later)
      ensures v.counters[k].expires <= later
    {
      assert LaterWithKey(c, w.now, k, later);
    }
  }

  lemma AddedExpires(c: Config, late: nat, counters: map<nat, Counter>, t: nat, value: int, now: nat)
    requires Valid(c) && Sound(c, late) && t <= now < SliceStart(c, t) + c.period + late
    requires Expiring(c, counters, now)
    ensures Expiring(c, Added(counters, Slot(c, t), value, Lifetime(c, t), now), now)
  {
    var s := SliceStart(c, t);
    SliceOf(c, t);
    Lives(c, late, s, t, now);
    forall later: nat | LaterWithKey(c, now, s % c.slots, later) ensures Expiry(c, t, now) <= later {
      MultiplesApart(c.period, s, later);
      SharedSlot(s, c.period, c.slots);
      SharedSlot(s, 2 * c.period, c.slots);
    }
  }

  lemma BumpExpires(c: Config, counters: map<nat, Counter>, k: nat, now: nat)
    requires Valid(c) && Expiring(c, counters, now)
    ensures Expiring(c, Bumped(counters, k, now), now)
  {
  }

  /** A call of a request of another slice leaves what a slice's counter tells as it is. */
  lemma OthersTrack(c: Config, w: World, v: World, r: nat, x: Request, s: nat)
    requires Valid(c) && Tracks(c, w, s) && v.now == w.now && r < |w.requests| && v.requests == w.requests[r := x]
    requires x.Ready? ==> SliceStart(c, x.t) != s
    requires CountIn(c, v.log, s) == CountIn(c, w.log, s)
    requires var k := s % c.slots;
      (k in w.counters <==> k in v.counters) && (k in w.counters ==> v.counters[k] == w.counters[k])
    ensures Tracks(c, v, s)
  {
    hide CountIn, SliceStart;
  }

  lemma ClockKeepsInv(c: Config, late: nat, w: World, r: nat)
    requires Valid(c) && Inv(c, late, w) && r < |w.requests| && w.requests[r].Idle?
    ensures Inv(c, late, Moved(c, w, r))
  {
    var v := Moved(c, w, r);
    hide Exact, CountIn;
    forall s: nat | Open(c, late, s, v.now) ensures Tracks(c, v, s) {
      OthersTrack(c, w, v, r, v.requests[r], s);
    }
  }

  lemma AddTracks(c: Config, late: nat, w: World, r: nat)
    requires Valid(c) && r < |w.requests| && w.requests[r].Read? && w.requests[r].t <= w.now
    requires w.now < SliceStart(c, w.requests[r].t) + c.period + late
    requires Tracks(c, w, SliceStart(c, w.requests[r].t))
    ensures Tracks(c, Moved(c, w, r), SliceStart(c, w.requests[r].t))
  {
    var t := w.requests[r].t;
    SliceOf(c, t);
    Lives(c, late, SliceStart(c, t), t, w.now);
    hide CountIn, SliceStart, Lifetime;
  }

  lemma AddKeepsInv(c: Config, late: nat, w: World, r: nat)
    requires Valid(c) && Sound(c, late) && Inv(c, late, w)
    requires r < |w.requests| && w.requests[r].Read? && Prompt(c, late, w, Move(r))
    ensures Inv(c, late, Moved(c, w, r))
  {
    var t, v := w.requests[r].t, Moved(c, w, r);
    var s := SliceStart(c, t);
    SliceOf(c, t);
    AddedExpires(c, late, w.counters, t, 0, w.now);
    assert Open(c, late, s, w.now);
    AddTracks(c, late, w, r);
    forall s': nat | Open(c, late, s', v.now) ensures Tracks(c, v, s') {
      if s' != s {
        OpenKeys(c, late, s, s', w.now);
        OthersTrack(c, w, v, r, v.requests[r], s');
      }
    }
  }

  lemma IncrTracks(c: Config, w: World, r: nat)
    requires Valid(c) && r < |w.requests| && w.requests[r].Ready? && Exact(c, w.log)
    requires Tracks(c, w, SliceStart(c, w.requests[r].t))
    ensures var t, v := w.requests[r].t, Moved(c, w, r);
      && v.requests[r].Counted? && v.requests == w.requests[r := v.requests[r]] && v.requests[r].t == t
      && v.log == w.log + [Hit(t, v.requests[r].n)] && Exact(c, v.log)
      && v.counters == Bumped(w.counters, Slot(c, t), w.now) && v.now == w.now
      && Tracks(c, v, SliceStart(c, t))
  {
    var t := w.requests[r].t;
    var s := SliceStart(c, t);
    assert Live(w.counters, s % c.slots, w.now);
    var h := Hit(t, w.counters[s % c.slots].value + 1);
    ExactAppend(c, w.log, h);
    CountAppend(c, w.log, h, s);
    hide Exact, CountIn, SliceStart;
  }

  lemma IncrKeepsInv(c: Config, late: nat, w: World, r: nat)
    requires Valid(c) && Sound(c, late) && Inv(c, late, w)
    requires r < |w.requests| && w.requests[r].Ready? && Prompt(c, late, w, Move(r))
    ensures Inv(c, late, Moved(c, w, r))
  {
    var t, v := w.requests[r].t, Moved(c, w, r);
    var s := SliceStart(c, t);
    SliceOf(c, t);
    assert Open(c, late, s, w.now);
    IncrTracks(c, w, r);
    BumpExpires(c, w.counters, Slot(c, t), w.now);
    hide Exact, CountIn, Expiring, Moved;
    forall s': nat | Open(c, late, s', v.now) ensures Tracks(c, v, s') {
      if s' != s {
        OpenKeys(c, late, s, s', w.now);
        CountAppend(c, w.log, Hit(t, v.requests[r].n), s');
        OthersTrack(c, w, v, r, v.requests[r], s');
      }
    }
  }

  lemma MoveKeepsInv(c: Config, late: nat, w: World, r: nat)
    requires Valid(c) && Sound(c, late) && Inv(c, late, w) && r < |w.requests| && Prompt(c, late, w, Move(r))
    ensures Inv(c, late, Moved(c, w, r))
  {
    match w.requests[r] {
      case Idle => ClockKeepsInv(c, late, w, r);
      case Read(t) => AddKeepsInv(c, late, w, r);
      case Ready(t) => IncrKeepsInv(c, late, w, r);
      case _ =>
    }
  }

  lemma {:induction false} RunKeepsInv(c: Config, late: nat, w: World, acts: seq<Action>)
    requires Valid(c) && Sound(c, late) && Inv(c, late, w) && AllPrompt(c, late, w, acts)
    ensures Inv(c, late, Run(c, w, acts))
    decreases |acts|
  {
    if acts != [] {
      match acts[0] {
        case Tick(seconds) => TickKeepsInv(c, late, w, seconds);
        case Move(r) => if r < |w.requests| { MoveKeepsInv(c, late, w, r); }
        case Reset(p) => ResetKeepsInv(c, late, w, p);
      }
      RunKeepsInv(c, late, Next(c, w, acts[0]), acts[1..]);
    }
  }

  lemma ResetKeepsInv(c: Config, late: nat, w: World, p: nat)
    requires Valid(c) && Inv(c, late, w)
    ensures Inv(c, late, Next(c, w, Reset(p)))
  {
    var v := Next(c, w, Reset(p));
    forall s: nat | Open(c, late, s, v.now) ensures Tracks(c, v, s) {
      assert Open(c, late, s, w.now);
      assert Tracks(c, w, s);
    }
  }

  // ------------------------------------------------------------------ what the limiter promises

  /** Of the requests of a slice that were counted, exactly the first `quota` passed. */
  lemma {:induction false} PassesOfExact(c: Config, log: seq<Hit>, s: nat)
    requires Valid(c) && Exact(c, log) && s % c.period == 0
    ensures PassesIn(c, log, s, s + c.period)
      == if CountIn(c, log, s) <= c.quota then CountIn(c, log, s) else if c.quota < 0 then 0 else c.quota
    decreases |log|
  {
    if log != [] {
      var n := |log| - 1;
      forall i | 0 <= i < n ensures log[..n][..i] == log[..i] {
      }
      PassesOfExact(c, log[..n], s);
      SliceOf(c, log[n].t);
      if s <= log[n].t < s + c.period {
        InSlice(c, s, log[n].t);
      }
    }
  }

  lemma {:induction false} WindowInSlices(c: Config, log: seq<Hit>, from: int, middle: int, to: int,
                                          start: int, end: int)
    requires start <= from <= middle <= end && to <= end
    ensures PassesIn(c, log, from, to) <= PassesIn(c, log, start, middle) + PassesIn(c, log, middle, end)
    decreases |log|
  {
    if log != [] {
      WindowInSlices(c, log[..|log| - 1], from, middle, to, start, end);
    }
  }

  /** With exact counts at most twice the quota passes in any window of one period. */
  lemma WindowOfExact(c: Config, log: seq<Hit>, from: nat)
    requires Valid(c) && Exact(c, log)
    ensures PassesIn(c, log, from, from + c.period) <= 2 * if c.quota < 0 then 0 else c.quota
  {
    var start := SliceStart(c, from);
    SliceOf(c, from);
    ModPlus(start, c.period);
    PassesOfExact(c, log, start);
    PassesOfExact(c, log, start + c.period);
    hide Exact, SliceStart, CountIn, PassesIn;
    WindowInSlices(c, log, from, start + c.period, from + c.period, start, start + 2 * c.period);
  }

  /** Every run of any number of requests whose calls are less than `late` seconds late, where the limiter is
      sound for that: each request is given its place in its slice, exactly the first `quota` of a slice pass,
      no counter is ever missing, and at most twice the quota passes in any window of one period. */
  lemma QuotaHolds(c: Config, late: nat, w: World, acts: seq<Action>, s: nat, from: nat)
    requires Valid(c) && Sound(c, late) && Start(w) && AllPrompt(c, late, w, acts) && s % c.period == 0
    ensures var v := Run(c, w, acts); var quota := if c.quota < 0 then 0 else c.quota;
      && Exact(c, v.log)
      && (forall r :: 0 <= r < |v.requests| ==> !v.requests[r].Missed? && !v.requests[r].Failed?)
      && PassesIn(c, v.log, s, s + c.period)
         == (if CountIn(c, v.log, s) <= c.quota then CountIn(c, v.log, s) else quota)
      && PassesIn(c, v.log, s, s + c.period) <= quota
      && PassesIn(c, v.log, from, from + c.period) <= 2 * quota
  {
    StartsInv(c, late, w);
    RunKeepsInv(c, late, w, acts);
    hide Start, Exact, SliceStart, CountIn, PassesIn, Run, AllPrompt, Expiring, Sound, Tracks, Open;
    PassesOfExact(c, Run(c, w, acts).log, s);
    WindowOfExact(c, Run(c, w, acts).log, from);
  }

  // ------------------------------------------------------------------ what the requests are answered

  /** One, if the request was counted and read the clock from `from` until before `to`. */
  function IsCounted(r: Request, from: int, to: int): nat {
    if r.Counted? && from <= r.t < to then 1 else 0
  }

  /** One, if it was let pass besides. */
  function IsPassed(c: Config, r: Request, from: int, to: int): nat
    requires Valid(c)
  {
    if AnswerTo(c, r, true) == Pass then IsCounted(r, from, to) else 0
  }

  function CountedIn(rs: seq<Request>, from: int, to: int): nat
    decreases |rs|
  {
    if rs == [] then 0 else CountedIn(rs[..|rs| - 1], from, to) + IsCounted(rs[|rs| - 1], from, to)
  }

  function PassedIn(c: Config, rs: seq<Request>, from: int, to: int): nat
    requires Valid(c)
    decreases |rs|
  {
    if rs == [] then 0 else PassedIn(c, rs[..|rs| - 1], from, to) + IsPassed(c, rs[|rs| - 1], from, to)
  }

  lemma {:induction false} OneAnswered(c: Config, rs: seq<Request>, r: nat, x: Request, from: int, to: int)
    requires Valid(c) && r < |rs|
    ensures PassedIn(c, rs[r := x], from, to)
      == PassedIn(c, rs, from, to) - IsPassed(c, rs[r], from, to) + IsPassed(c, x, from, to)
    ensures CountedIn(rs[r := x], from, to)
      == CountedIn(rs, from, to) - IsCounted(rs[r], from, to) + IsCounted(x, from, to)
    decreases |rs|
  {
    var n := |rs| - 1;
    hide IsPassed, IsCounted;
    if r == n {
      assert rs[r := x][..n] == rs[..n];
    } else {
      assert rs[r := x][..n] == rs[..n][r := x];
      OneAnswered(c, rs[..n], r, x, from, to);
    }
  }

  /** The log tells of the slice `s` what its requests were answered. */
  ghost predicate Tallies(c: Config, w: World, s: nat)
    requires Valid(c)
  {
    && PassedIn(c, w.requests, s, s + c.period) == PassesIn(c, w.log, s, s + c.period)
    && CountedIn(w.requests, s, s + c.period) == CountIn(c, w.log, s)
  }

  lemma MoveAnswers(c: Config, w: World, r: nat)
    requires Valid(c) && r < |w.requests|
    ensures var v := Moved(c, w, r);
      && v.requests == w.requests[r := v.requests[r]]
      && if v.requests[r].Counted? && !w.requests[r].Counted? then
           v.log == w.log + [Hit(v.requests[r].t, v.requests[r].n)]
         else
           v.log == w.log && (v.requests[r].Counted? || w.requests[r].Counted? ==> v.requests[r] == w.requests[r])
  {
  }

  lemma MoveTallies(c: Config, w: World, r: nat, s: nat)
    requires Valid(c) && s % c.period == 0 && Tallies(c, w, s) && r < |w.requests|
    ensures Tallies(c, Moved(c, w, r), s)
  {
    hide PassesIn, CountIn, PassedIn, CountedIn, SliceStart, Moved;
    var v := Moved(c, w, r);
    MoveAnswers(c, w, r);
    OneAnswered(c, w.requests, r, v.requests[r], s, s + c.period);
    if v.requests[r].Counted? && !w.requests[r].Counted? {
      var h := Hit(v.requests[r].t, v.requests[r].n);
      PassesAppend(c, w.log, h, s, s + c.period);
      CountAppend(c, w.log, h, s);
      SliceOf(c, h.t);
      if s <= h.t < s + c.period {
        InSlice(c, s, h.t);
      }
    }
  }

  lemma {:induction false} RunTallies(c: Config, w: World, acts: seq<Action>, s: nat)
    requires Valid(c) && s % c.period == 0 && Tallies(c, w, s)
    ensures Tallies(c, Run(c, w, acts), s)
    decreases |acts|
  {
    if acts != [] {
      if acts[0].Move? && acts[0].r < |w.requests| {
        MoveTallies(c, w, acts[0].r, s);
      }
      RunTallies(c, Next(c, w, acts[0]), acts[1..], s);
    }
  }

  lemma {:induction false} NobodyYet(c: Config, rs: seq<Request>, from: int, to: int)
    requires Valid(c) && forall r :: 0 <= r < |rs| ==> rs[r].Idle?
    ensures PassedIn(c, rs, from, to) == 0 && CountedIn(rs, from, to) == 0
    decreases |rs|
  {
    if rs != [] {
      NobodyYet(c, rs[..|rs| - 1], from, to);
    }
  }

  /** Of the requests of a slice exactly the first `quota` that are counted are answered that they may pass. */
  lemma SliceAnswers(c: Config, late: nat, w: World, acts: seq<Action>, s: nat)
    requires Valid(c) && Sound(c, late) && Start(w) && AllPrompt(c, late, w, acts) && s % c.period == 0
    ensures var v := Run(c, w, acts); var counted := CountedIn(v.requests, s, s + c.period);
      PassedIn(c, v.requests, s, s + c.period)
        == if counted <= c.quota then counted else if c.quota < 0 then 0 else c.quota
  {
    NobodyYet(c, w.requests, s, s + c.period);
    assert Tallies(c, w, s);
    RunTallies(c, w, acts, s);
    QuotaHolds(c, late, w, acts, s, 0);
  }

  /** Agents: over every run with calls that come in time, or in the second after their slice, of the requests
      of a slice as many are let pass as are counted, and `limit` at most. */
  lemma AgentLimitHolds(limit: int, sliceSize: nat, process: nat -> nat, late: nat, w: World, acts: seq<Action>, s: nat)
    requires 1 <= sliceSize < 60 && late <= 1 && !(late == 1 && sliceSize == 30) && s % sliceSize == 0
    requires var c := AgentConfig(limit, sliceSize, process);
      Valid(c) && Start(w) && AllPrompt(c, late, w, acts)
    ensures var c := AgentConfig(limit, sliceSize, process); var v := Run(c, w, acts);
      var counted := CountedIn(v.requests, s, s + sliceSize);
      PassedIn(c, v.requests, s, s + sliceSize) == if counted <= limit then counted else if limit < 0 then 0 else limit
  {
    AgentsSoundIff(limit, sliceSize, process, late);
    SliceAnswers(AgentConfig(limit, sliceSize, process), late, w, acts, s);
  }

  /** Site-wide: likewise, and `maxReqs` less one at most. */
  lemma SiteLimitHolds(maxReqs: int, period: nat, process: nat -> nat, late: nat, w: World, acts: seq<Action>, s: nat)
    requires period >= 1 && period % 86400 != 0 && late <= 1 && !(late == 1 && period % 43200 == 0)
    requires s % period == 0
    requires var c := SiteConfig(maxReqs, period, process);
      Valid(c) && Start(w) && AllPrompt(c, late, w, acts)
    ensures var c := SiteConfig(maxReqs, period, process); var v := Run(c, w, acts);
      var counted := CountedIn(v.requests, s, s + period);
      PassedIn(c, v.requests, s, s + period)
        == if counted < maxReqs then counted else if maxReqs < 1 then 0 else maxReqs - 1
  {
    SiteSoundIff(maxReqs, period, process, late);
    SliceAnswers(SiteConfig(maxReqs, period, process), late, w, acts, s);
  }

  // ------------------------------------------------------------------ local caches

  ghost predicate SameButLocals(w: World, v: World) {
    w.now == v.now && w.counters == v.counters && w.requests == v.requests && w.log == v.log
  }

  lemma MovedSame(c: Config, process: nat -> nat, w: World, v: World, r: nat)
    requires Valid(c) && SameButLocals(w, v) && r < |w.requests|
    ensures SameButLocals(Moved(c, w, r), Moved(c.(process := process), v, r))
  {
  }

  /** No count and no decision depends on what any process's local cache holds, or on which process serves a
      request. */
  lemma {:induction false} LocalsDoNotMatter(c: Config, process: nat -> nat, w: World, v: World, acts: seq<Action>)
    requires Valid(c) && SameButLocals(w, v)
    ensures SameButLocals(Run(c, w, acts), Run(c.(process := process), v, acts))
    decreases |acts|
  {
    if acts != [] {
      if acts[0].Move? && acts[0].r < |w.requests| {
        MovedSame(c, process, w, v, acts[0].r);
      }
      LocalsDoNotMatter(c, process, Next(c, w, acts[0]), Next(c.(process := process), v, acts[0]), acts[1..]);
    }
  }

  // ------------------------------------------------------------------ however late a call is

  /** The counter under the key of the slice `s`, if there is one, is the number of the slice's requests. */
  ghost predicate Truthful(c: Config, w: World, s: nat)
    requires Valid(c)
  {
    var k := s % c.slots;
    Live(w.counters, k, w.now) ==> w.counters[k].value == CountIn(c, w.log, s)
  }

  /** The counter of the request's own slice has not lapsed: it is there, or it is about to be added first. */
  ghost predicate Stands(c: Config, w: World, r: nat)
    requires Valid(c) && r < |w.requests| && Calling(w.requests[r])
  {
    var s := SliceStart(c, w.requests[r].t);
    Live(w.counters, s % c.slots, w.now) || (w.requests[r].Read? && CountIn(c, w.log, s) == 0)
  }

  /** The call leaves a counter missing for nobody, gives the request its exact place if it counts it, and
      keeps the slice's counter truthful. */
  ghost predicate GoesRight(c: Config, w: World, r: nat)
    requires Valid(c) && r < |w.requests| && Calling(w.requests[r])
  {
    var s, v := SliceStart(c, w.requests[r].t), Moved(c, w, r);
    && !v.requests[r].Missed? && !v.requests[r].Failed?
    && (v.requests[r].Counted? ==> v.requests[r].n == CountIn(c, w.log, s) + 1)
    && Truthful(c, v, s)
  }

  /** For any period, however late the call: an add or an incr goes right if and only if the counter of the
      request's own slice has not lapsed. After it has, the fallback's count of one is right, and truthful, if
      and only if nobody of the slice was counted and nobody has added a counter since. */
  lemma GoesRightIff(c: Config, w: World, r: nat)
    requires Valid(c) && r < |w.requests| && Calling(w.requests[r])
    requires Truthful(c, w, SliceStart(c, w.requests[r].t))
    ensures !w.requests[r].Missed? ==> (GoesRight(c, w, r) <==> Stands(c, w, r))
    ensures w.requests[r].Missed? ==> (GoesRight(c, w, r) <==>
      var s := SliceStart(c, w.requests[r].t);
      !Live(w.counters, s % c.slots, w.now) && CountIn(c, w.log, s) == 0)
  {
    var t := w.requests[r].t;
    var s := SliceStart(c, t);
    SliceOf(c, t);
    if w.requests[r].Missed? {
      CountAppend(c, w.log, Hit(t, 1), s);
    } else if w.requests[r].Ready? && Live(w.counters, s % c.slots, w.now) {
      CountAppend(c, w.log, Hit(t, w.counters[s % c.slots].value + 1), s);
    }
    hide CountIn, SliceStart;
  }

  // ------------------------------------------------------------------ where the quota does not hold

  lemma {:induction false} RunAppend(c: Config, late: nat, w: World, acts: seq<Action>, more: seq<Action>)
    requires Valid(c)
    ensures Run(c, w, acts + more) == Run(c, Run(c, w, acts), more)
    ensures AllPrompt(c, late, w, acts + more) <==>
      AllPrompt(c, late, w, acts) && AllPrompt(c, late, Run(c, w, acts), more)
    decreases |acts|
  {
    if acts == [] {
      assert acts + more == more;
    } else {
      assert (acts + more)[1..] == acts[1..] + more;
      RunAppend(c, late, Next(c, w, acts[0]), acts[1..], more);
    }
  }

  /** `v` is reached from `w` by `acts`, with no call too late. */
  ghost predicate Leads(c: Config, late: nat, w: World, acts: seq<Action>, v: World)
    requires Valid(c)
  {
    AllPrompt(c, late, w, acts) && Run(c, w, acts) == v
  }

  lemma LeadsOn(c: Config, late: nat, w: World, acts: seq<Action>, v: World, more: seq<Action>, u: World)
    requires Valid(c) && Leads(c, late, w, acts, v) && Leads(c, late, v, more, u)
    ensures Leads(c, late, w, acts + more, u)
  {
    RunAppend(c, late, w, acts, more);
  }

  lemma LeadsOne(c: Config, late: nat, w: World, a: Action)
    requires Valid(c) && Prompt(c, late, w, a)
    ensures Leads(c, late, w, [a], Next(c, w, a))
  {
    assert [a][1..] == [];
  }

  /** `n` requests read the clock. */
  function Reads(n: nat): seq<Action> {
    if n == 0 then [] else Reads(n - 1) + [Move(n - 1)]
  }

  lemma {:induction false} ReadsLead(c: Config, late: nat, w: World, n: nat) returns (v: World)
    requires Valid(c) && n <= |w.requests| && forall i :: 0 <= i < n ==> w.requests[i].Idle?
    ensures Leads(c, late, w, Reads(n), v)
    ensures v.now == w.now && v.counters == w.counters && v.log == w.log && |v.requests| == |w.requests|
    ensures forall i :: 0 <= i < |w.requests| ==> v.requests[i] == if i < n then Read(w.now) else w.requests[i]
  {
    if n == 0 {
      v := w;
    } else {
      var u := ReadsLead(c, late, w, n - 1);
      LeadsOne(c, late, u, Move(n - 1));
      v := Next(c, u, Move(n - 1));
      LeadsOn(c, late, w, Reads(n - 1), u, [Move(n - 1)], v);
    }
  }

  /** `n` requests, from `first` on, make both their calls, one request after the other. */
  function Calls(first: nat, n: nat): seq<Action> {
    if n == 0 then [] else Calls(first, n - 1) + ([Move(first + n - 1)] + [Move(first + n - 1)])
  }

  /** Hits of requests that read the clock at `t`, with the counts from one to `n`. */
  function Hits(t: nat, n: nat): seq<Hit> {
    if n == 0 then [] else Hits(t, n - 1) + [Hit(t, n)]
  }

  /** Two calls of one request that find a counter at `n`, or none if `n` is zero. */
  lemma TwoCalls(c: Config, late: nat, w: World, r: nat, t: nat, n: nat)
      returns (v: World)
    requires Valid(c) && r < |w.requests| && w.requests[r] == Read(t)
    requires t <= w.now < SliceStart(c, t) + c.period + late
    requires var k := Slot(c, t);
      if Live(w.counters, k, w.now) then w.counters[k].value == n else n == 0
    ensures Leads(c, late, w, [Move(r)] + [Move(r)], v)
    ensures v.now == w.now && v.requests == w.requests[r := Counted(t, n + 1)] && v.log == w.log + [Hit(t, n + 1)]
    ensures Live(v.counters, Slot(c, t), v.now) && v.counters[Slot(c, t)].value == n + 1
    ensures Live(w.counters, Slot(c, t), w.now) ==>
      v.counters[Slot(c, t)].expires == w.counters[Slot(c, t)].expires
  {
    SliceOf(c, t);
    var u := Moved(c, w, r);
    v := Moved(c, u, r);
    LeadsOne(c, late, w, Move(r));
    LeadsOne(c, late, u, Move(r));
    LeadsOn(c, late, w, [Move(r)], u, [Move(r)], v);
  }

  lemma {:induction false} CallsLead(c: Config, late: nat, w: World, first: nat, n: nat, t: nat)
      returns (v: World)
    requires Valid(c) && first + n <= |w.requests|
    requires forall i :: first <= i < first + n ==> w.requests[i] == Read(t)
    requires t <= w.now < SliceStart(c, t) + c.period + late
    requires Live(w.counters, Slot(c, t), w.now) ==> w.counters[Slot(c, t)].value == 0
    ensures Leads(c, late, w, Calls(first, n), v)
    ensures v.now == w.now && |v.requests| == |w.requests| && v.log == w.log + Hits(t, n)
    ensures forall i :: 0 <= i < |w.requests| && !(first <= i < first + n) ==> v.requests[i] == w.requests[i]
    ensures if Live(v.counters, Slot(c, t), v.now) then v.counters[Slot(c, t)].value == n else n == 0
    ensures Live(w.counters, Slot(c, t), w.now) ==>
      Live(v.counters, Slot(c, t), v.now) && v.counters[Slot(c, t)].expires == w.counters[Slot(c, t)].expires
  {
    hide Leads, SliceStart;
    if n == 0 {
      v := w;
      LeadsNowhere(c, late, w);
    } else {
      var u := CallsLead(c, late, w, first, n - 1, t);
      v := TwoCalls(c, late, u, first + n - 1, t, n - 1);
      LeadsOn(c, late, w, Calls(first, n - 1), u, [Move(first + n - 1)] + [Move(first + n - 1)], v);
    }
  }

  lemma LeadsNowhere(c: Config, late: nat, w: World)
    requires Valid(c)
    ensures Leads(c, late, w, [], w)
  {
  }

  function Quiet(requests: nat): World {
    World(0, map[], seq(requests, _ => Idle), map[], [])
  }

  /** One request reads the clock at the start of time and adds a counter when it is `a`; then, when it is `t`,
      as many more as `n` read the clock. */
  lemma CounterIsLeft(c: Config, late: nat, n: nat, a: nat, t: nat) returns (acts: seq<Action>, v: World)
    requires Valid(c) && a < c.period + late && a <= t
    ensures Leads(c, late, Quiet(n + 1), acts, v)
    ensures v.now == t && v.log == [] && |v.requests| == n + 1
    ensures forall i :: 0 <= i < n ==> v.requests[i] == Read(t)
    ensures v.counters == map[0 := Counter(0, a + c.period + 1)]
  {
    hide Leads;
    InSlice(c, 0, 0);
    var w := Quiet(n + 1);
    var x := Next(c, w, Move(n));
    LeadsOne(c, late, w, Move(n));
    var y := Next(c, x, Tick(a));
    LeadsOne(c, late, x, Tick(a));
    LeadsOn(c, late, w, [Move(n)], x, [Tick(a)], y);
    var z := Next(c, y, Move(n));
    LeadsOne(c, late, y, Move(n));
    LeadsOn(c, late, w, [Move(n)] + [Tick(a)], y, [Move(n)], z);
    var u := Next(c, z, Tick(t - a));
    LeadsOne(c, late, z, Tick(t - a));
    acts := [Move(n)] + [Tick(a)] + [Move(n)] + [Tick(t - a)];
    LeadsOn(c, late, w, [Move(n)] + [Tick(a)] + [Move(n)], z, [Tick(t - a)], u);
    v := ReadsLead(c, late, u, n);
    LeadsOn(c, late, w, acts, u, Reads(n), v);
    acts := acts + Reads(n);
  }

  /** A counter that was left by somebody who never incremented it lapses while requests of the slice `t` are
      at work: `n` of them are counted by it, and `n` more from one again. */
  lemma Overshoots(c: Config, late: nat, n: nat, a: nat, t: nat) returns (acts: seq<Action>, v: World)
    requires Valid(c) && a < c.period + late && a <= t <= a + c.period && a + 1 < t + late
    requires t % c.period == 0 && t % c.slots == 0
    ensures Leads(c, late, Quiet(2 * n + 1), acts, v) && v.log == Hits(t, n) + Hits(t, n)
  {
    hide Leads, Hits, Calls;
    InSlice(c, t, t);
    var w := Quiet(2 * n + 1);
    var x;
    acts, x := CounterIsLeft(c, late, 2 * n, a, t);
    var y := Next(c, x, Tick(a + c.period - t));
    LeadsOne(c, late, x, Tick(a + c.period - t));
    LeadsOn(c, late, w, acts, x, [Tick(a + c.period - t)], y);
    acts := acts + [Tick(a + c.period - t)];
    var z := CallsLead(c, late, y, 0, n, t);
    LeadsOn(c, late, w, acts, y, Calls(0, n), z);
    acts := acts + Calls(0, n);
    var u := Next(c, z, Tick(1));
    LeadsOne(c, late, z, Tick(1));
    LeadsOn(c, late, w, acts, z, [Tick(1)], u);
    acts := acts + [Tick(1)];
    v := CallsLead(c, late, u, n, n, t);
    LeadsOn(c, late, w, acts, u, Calls(n, n), v);
    acts := acts + Calls(n, n);
    assert [] + Hits(t, n) == Hits(t, n);
  }

  lemma PassesAppend(c: Config, log: seq<Hit>, h: Hit, from: int, to: int)
    ensures PassesIn(c, log + [h], from, to)
      == PassesIn(c, log, from, to) + if from <= h.t < to && h.n <= c.quota then 1 else 0
  {
  }

  lemma {:induction false} HitsPass(c: Config, log: seq<Hit>, t: nat, n: nat, from: int, to: int)
    requires Valid(c) && n <= c.quota && from <= t < to
    ensures PassesIn(c, log + Hits(t, n), from, to) == PassesIn(c, log, from, to) + n
  {
    if n == 0 {
      assert log + [] == log;
    } else {
      HitsPass(c, log, t, n - 1, from, to);
      PassesAppend(c, log + Hits(t, n - 1), Hit(t, n), from, to);
      assert log + Hits(t, n - 1) + [Hit(t, n)] == log + Hits(t, n);
    }
  }

  lemma {:induction false} HitsAre(t: nat, n: nat)
    ensures |Hits(t, n)| == n && forall i :: 0 <= i < n ==> Hits(t, n)[i] == Hit(t, i + 1)
  {
    if n > 0 {
      HitsAre(t, n - 1);
    }
  }

  /** Where the limiter is not sound for calls that late, there is for each quota a run that lets twice the
      quota pass in one slice, and requests are not given their places. */
  lemma UnsoundRun(c: Config, late: nat, n: nat) returns (w: World, acts: seq<Action>, s: nat)
    requires Valid(c) && c.slots >= 2 && !Sound(c, late) && n >= 1
    ensures Start(w) && AllPrompt(c, late, w, acts) && s % c.period == 0
    ensures !Exact(c, Run(c, w, acts).log)
    ensures n == c.quota ==> PassesIn(c, Run(c, w, acts).log, s, s + c.period) == 2 * n
  {
    ModPlus(0, c.period);
    ModPlus(c.period, c.period);
    var a, t := 0, c.period;
    if late >= 2 {
      t := 0;
    } else if c.period % c.slots != 0 {
      a, t := c.period, 2 * c.period;
    }
    var v;
    w := Quiet(2 * n + 1);
    acts, v := Overshoots(c, late, n, a, t);
    s := t;
    NotExact(c, t, n);
    if n == c.quota {
      TwicePasses(c, t, n);
    }
  }

  lemma TwicePasses(c: Config, t: nat, n: nat)
    requires Valid(c) && n <= c.quota
    ensures PassesIn(c, Hits(t, n) + Hits(t, n), t, t + c.period) == 2 * n
  {
    hide Hits, PassesIn;
    NoPasses(c, t, t + c.period);
    HitsPass(c, [], t, n, t, t + c.period);
    assert [] + Hits(t, n) == Hits(t, n);
    HitsPass(c, Hits(t, n), t, n, t, t + c.period);
  }

  lemma NoPasses(c: Config, from: int, to: int)
    ensures PassesIn(c, [], from, to) == 0
  {
  }

  /** The first hit of the second row has a count of one, but is not the first of its slice. */
  lemma NotExact(c: Config, t: nat, n: nat)
    requires Valid(c) && n >= 1 && t % c.period == 0
    ensures !Exact(c, Hits(t, n) + Hits(t, n))
  {
    HitsAre(t, n);
    InSlice(c, t, t);
    hide Hits, SliceStart;
    var log := Hits(t, n) + Hits(t, n);
    assert log[n] == Hit(t, 1) && log[n - 1] == Hit(t, n);
    assert log[..n] == log[..n - 1] + [log[n - 1]];
    CountAppend(c, log[..n - 1], log[n - 1], t);
    hide CountIn;
    assert log[n].n != CountIn(c, log[..n], SliceStart(c, log[n].t)) + 1;
  }

  /** For all runs whose calls are less than `late` seconds late, whatever `late` is: requests are given their
      exact places if and only if the limiter is sound for that. */
  lemma ExactIff(c: Config, late: nat)
    requires Valid(c) && c.slots >= 2
    ensures (forall w, acts :: Start(w) && AllPrompt(c, late, w, acts) ==> Exact(c, Run(c, w, acts).log))
      <==> Sound(c, late)
  {
    if Sound(c, late) {
      forall w, acts | Start(w) && AllPrompt(c, late, w, acts) ensures Exact(c, Run(c, w, acts).log) {
        StartsInv(c, late, w);
        RunKeepsInv(c, late, w, acts);
      }
    } else {
      var w, acts, s := UnsoundRun(c, late, 1);
    }
  }

  function PassesOfSlice(c: Config, log: seq<Hit>, s: nat): nat {
    PassesIn(c, log, s, s + c.period)
  }

  ghost predicate WithinQuota(c: Config, log: seq<Hit>)
    requires Valid(c)
  {
    forall s: nat | s % c.period == 0 :: PassesOfSlice(c, log, s) <= c.quota
  }

  /** And for each quota: no such run lets more than the quota pass in any slice, if and only if it is. */
  lemma QuotaHoldsIff(c: Config, late: nat)
    requires Valid(c) && c.slots >= 2 && c.quota >= 1
    ensures (forall w, acts :: Start(w) && AllPrompt(c, late, w, acts) ==> WithinQuota(c, Run(c, w, acts).log))
      <==> Sound(c, late)
  {
    if Sound(c, late) {
      forall w, acts | Start(w) && AllPrompt(c, late, w, acts) ensures WithinQuota(c, Run(c, w, acts).log) {
        forall s: nat | s % c.period == 0 ensures PassesOfSlice(c, Run(c, w, acts).log, s) <= c.quota {
          QuotaHolds(c, late, w, acts, s, 0);
        }
      }
    } else {
      var w, acts, s := UnsoundRun(c, late, c.quota);
      assert PassesOfSlice(c, Run(c, w, acts).log, s) > c.quota;
    }
  }
}
