/** CassandraCacheChain.mutate at one key: what it does alone, and what many processes do interleaved. */
module Mutate {
  import opened Options
  import opened CacheColumns

  /** One call: the mutation, whether it reads first, and the caller's default. */
  datatype Request = Request(fn: Option<Value> -> Value, willread: bool, default: Option<Value>)

  function Unpack(e: Entry, default: Option<Value>): Option<Value> {
    match e case NoneResult => default case Val(v) => Some(v)
  }

  // ------------------------------------------------------------------ one call on its own

  /** The two layouts of such a chain, with and without memcached. */
  predicate IsPermacache(shape: Shape) {
    shape.kinds == [Local, Permanent] || shape.kinds == [Local, Shared, Permanent]
  }

  /** The value handed to the mutation: memcached's answer, else Cassandra's; None when neither has one. */
  function MutateRead(col: Column, r: Request): Option<Value>
    requires |col| >= 2
  {
    if !r.willread then None
    else if |col| == 3 && col[1].Some? then Unpack(col[1].value, r.default)
    else match col[|col| - 1] case None => None case Some(e) => Unpack(e, r.default)
  }

  function MutateColumn(col: Column, r: Request): (c: Column)
    requires |col| >= 2
  {
    var value := MutateRead(col, r);
    var new_value := r.fn(value);
    seq(|col|, i requires 0 <= i < |col| =>
      if i == |col| - 1 && r.willread && value == Some(new_value) then col[i] else Some(Val(new_value)))
  }

  /** One call, spelled out: what the mutation is given, and what each cache holds afterwards. */
  lemma MutateIs(col: Column, r: Request)
    requires |col| == 2 || |col| == 3
    ensures var found := if |col| == 3 && col[1] != None then col[1] else col[|col| - 1];
      MutateRead(col, r) ==
        if !r.willread || found == None then None
        else if found == Some(NoneResult) then r.default
        else Some(found.value.v)
    ensures var c, value := MutateColumn(col, r), MutateRead(col, r);
      && |c| == |col|
      && (forall i :: 0 <= i < |col| - 1 ==> c[i] == Some(Val(r.fn(value))))
      && c[|col| - 1] ==
           if r.willread && value == Some(r.fn(value)) then col[|col| - 1] else Some(Val(r.fn(value)))
  {
  }

  /** A NoneResult left in memcached makes mutate see the default, whatever Cassandra holds. Cassandra is then
      left as it is exactly when the mutation maps the default to itself or to what Cassandra holds already;
      and it misses the new value, which memcached gets, exactly in the first case without the second. */
  lemma LeftoverNoneResult(col: Column, r: Request)
    requires |col| == 3 && col[1] == Some(NoneResult) && r.willread
    ensures MutateRead(col, r) == r.default
    ensures var c, new_value := MutateColumn(col, r), r.fn(r.default);
      && c[1] == Some(Val(new_value))
      && (c[2] == col[2] <==> r.default == Some(new_value) || col[2] == Some(Val(new_value)))
      && (c[2] == c[1] <==> r.default != Some(new_value) || col[2] == Some(Val(new_value)))
  {
  }

  // ------------------------------------------------------------------ many processes

  /** Where a process stands inside one call. */
  datatype Phase =
    | Idle
    | Waiting(r: Request)                                             // wants the lock
    | Holding(r: Request)                                             // inside, nothing read
    | Missed(r: Request)                                              // memcached had nothing
    | Ready(r: Request, value: Option<Value>)                         // about to run the mutation
    | Computed(r: Request, value: Option<Value>, new_value: Value)    // about to write Cassandra
    | Written(r: Request, new_value: Value)                           // about to set the LocalCache
    | LocalSet(r: Request, new_value: Value)                          // about to set memcached
    | Leaving(r: Request, new_value: Value)                           // about to release the lock
  {
    predicate Inside() { !Idle? && !Waiting? }

    predicate Unwritten() { Holding? || Missed? || Ready? || Computed? }
  }

  /** A mutation that has reached Cassandra, with the lock grant it ran under. */
  datatype Commit = Commit(grant: nat, r: Request, result: Value)

  /** One key as all processes see it. `grants` counts lock grants; `holder` is who holds the lock now. */
  datatype World = World(
    holder: Option<nat>,
    grants: nat,
    memcache: Option<Entry>,
    cassandra: Option<Value>,
    locals: seq<Option<Entry>>,
    phases: seq<Phase>,
    log: seq<Commit>)
  {
    predicate Sized() { |locals| == |phases| }
  }

  datatype Action =
    | Call(p: nat, r: Request)
    | Advance(p: nat)
    | Raise(p: nat)                            // the mutation raises; the lock is released
    | EvictMemcache
    | Meddle(p: nat, e: Option<Entry>)         // anything at all happens to a LocalCache

  /** The next step of process `p`; None when it has none. */
  function StepOf(hasMemcache: bool, w: World, p: nat): Option<World>
    requires w.Sized() && p < |w.phases|
  {
    match w.phases[p]
    case Idle => None
    case Waiting(r) =>
      if w.holder.Some? then None
      else Some(w.(holder := Some(p), grants := w.grants + 1, phases := w.phases[p := Holding(r)]))
    case Holding(r) =>
      if !r.willread then Some(w.(phases := w.phases[p := Ready(r, None)]))
      else if hasMemcache && w.memcache.Some? then
        Some(w.(phases := w.phases[p := Ready(r, Unpack(w.memcache.value, r.default))]))
      else Some(w.(phases := w.phases[p := Missed(r)]))
    case Missed(r) => Some(w.(phases := w.phases[p := Ready(r, w.cassandra)]))
    case Ready(r, value) => Some(w.(phases := w.phases[p := Computed(r, value, r.fn(value))]))
    case Computed(r, value, new_value) =>
      var written := if !r.willread || value != Some(new_value) then Some(new_value) else w.cassandra;
      Some(w.(cassandra := written, phases := w.phases[p := Written(r, new_value)],
              log := w.log + [Commit(w.grants, r, new_value)]))
    case Written(r, new_value) =>
      Some(w.(locals := w.locals[p := Some(Val(new_value))], phases := w.phases[p := LocalSet(r, new_value)]))
    case LocalSet(r, new_value) =>
      Some(w.(memcache := if hasMemcache then Some(Val(new_value)) else None,
              phases := w.phases[p := Leaving(r, new_value)]))
    case Leaving(_, _) => Some(w.(holder := None, phases := w.phases[p := Idle]))
  }

  function Next(hasMemcache: bool, w: World, a: Action): Option<World>
    requires w.Sized()
  {
    match a
    case Call(p, r) =>
      if p < |w.phases| && w.phases[p].Idle? then Some(w.(phases := w.phases[p := Waiting(r)])) else None
    case Advance(p) => if p < |w.phases| then StepOf(hasMemcache, w, p) else None
    case Raise(p) =>
      if p < |w.phases| && w.phases[p].Ready? then Some(w.(holder := None, phases := w.phases[p := Idle])) else None
    case EvictMemcache => Some(w.(memcache := None))
    case Meddle(p, e) => if p < |w.locals| then Some(w.(locals := w.locals[p := e])) else None
  }

  lemma NextIsSized(hasMemcache: bool, w: World, a: Action)
    requires w.Sized() && Next(hasMemcache, w, a).Some?
    ensures Next(hasMemcache, w, a).value.Sized()
  {
  }

  /** Any interleaving: a schedule of actions, None if one of them cannot be taken. */
  function Run(hasMemcache: bool, w: World, schedule: seq<Action>): (o: Option<World>)
    requires w.Sized()
    ensures o.Some? ==> o.value.Sized()
    decreases |schedule|
  {
    if schedule == [] then Some(w)
    else match Next(hasMemcache, w, schedule[0])
      case None => None
      case Some(v) => NextIsSized(hasMemcache, w, schedule[0]); Run(hasMemcache, v, schedule[1..])
  }

  /** The column that the world is for process `p`. */
  function ColumnOf(hasMemcache: bool, w: World, p: nat): Column
    requires w.Sized() && p < |w.locals|
  {
    var authority := match w.cassandra case None => None case Some(v) => Some(Val(v));
    if hasMemcache then [w.locals[p], w.memcache, authority] else [w.locals[p], authority]
  }

  /** Process `p` takes `n` steps in a row. */
  function Alone(hasMemcache: bool, w: World, p: nat, n: nat): (o: Option<World>)
    requires w.Sized() && p < |w.phases|
    decreases n
  {
    if n == 0 then Some(w)
    else match StepOf(hasMemcache, w, p)
      case None => None
      case Some(v) => Alone(hasMemcache, v, p, n - 1)
  }

  /** The second half of a call, from the mutation to the release of the lock. */
  lemma WritesAlone(hasMemcache: bool, w: World, p: nat, r: Request, value: Option<Value>)
    requires w.Sized() && p < |w.phases| && w.phases[p] == Ready(r, value)
    ensures var new_value := r.fn(value);
      Alone(hasMemcache, w, p, 5) == Some(w.(
        holder := None,
        memcache := if hasMemcache then Some(Val(new_value)) else None,
        cassandra := if !r.willread || value != Some(new_value) then Some(new_value) else w.cassandra,
        locals := w.locals[p := Some(Val(new_value))],
        phases := w.phases[p := Idle],
        log := w.log + [Commit(w.grants, r, new_value)]))
  {
    var w1 := StepOf(hasMemcache, w, p).value;
    var w2 := StepOf(hasMemcache, w1, p).value;
    var w3 := StepOf(hasMemcache, w2, p).value;
    var w4 := StepOf(hasMemcache, w3, p).value;
    var w5 := StepOf(hasMemcache, w4, p).value;
    assert Alone(hasMemcache, w5, p, 0) == Some(w5);
    assert Alone(hasMemcache, w4, p, 1) == Some(w5);
    assert Alone(hasMemcache, w3, p, 2) == Some(w5);
    assert Alone(hasMemcache, w2, p, 3) == Some(w5);
    assert w5.phases == w.phases[p := Idle];
  }

  /** A call that runs from start to end with nobody else moving has the effect of the method. */
  lemma AloneIsMutate(hasMemcache: bool, w: World, p: nat, r: Request) returns (n: nat)
    requires w.Sized() && p < |w.phases| && w.phases[p] == Waiting(r) && w.holder.None?
    requires w.memcache.Some? ==> hasMemcache
    ensures Alone(hasMemcache, w, p, n).Some?
    ensures var v := Alone(hasMemcache, w, p, n).value;
      && v.Sized() && p < |v.phases| && v.phases[p].Idle? && v.holder.None?
      && ColumnOf(hasMemcache, v, p) == MutateColumn(ColumnOf(hasMemcache, w, p), r)
      && v.log == w.log + [Commit(w.grants + 1, r, r.fn(MutateRead(ColumnOf(hasMemcache, w, p), r)))]
  {
    n := if r.willread && !(hasMemcache && w.memcache.Some?) then 8 else 7;
    var w1 := StepOf(hasMemcache, w, p).value;
    var w2 := StepOf(hasMemcache, w1, p).value;
    var w3 := if n == 8 then StepOf(hasMemcache, w2, p).value else w2;
    var value := MutateRead(ColumnOf(hasMemcache, w, p), r);
    assert w3 == w.(holder := Some(p), grants := w.grants + 1, phases := w.phases[p := Ready(r, value)]);
    WritesAlone(hasMemcache, w3, p, r, value);
    assert Alone(hasMemcache, w2, p, n - 2) == Alone(hasMemcache, w3, p, 5);
  }

  /** What one mutation makes of a value, and what a history of them makes of the first value. */
  function Apply(r: Request, current: Option<Value>): Value {
    r.fn(if r.willread then current else None)
  }

  function Fold(first: Option<Value>, log: seq<Commit>): Option<Value>
    decreases |log|
  {
    if log == [] then first else Some(Apply(log[|log| - 1].r, Fold(first, log[..|log| - 1])))
  }

  /** No process has called yet, and memcached agrees with Cassandra if it holds the key. */
  predicate Start(hasMemcache: bool, w: World) {
    && w.Sized()
    && w.holder.None? && w.log == []
    && (forall p :: 0 <= p < |w.phases| ==> w.phases[p].Idle?)
    && MemcacheAgrees(hasMemcache, w)
  }

  predicate MemcacheAgrees(hasMemcache: bool, w: World) {
    w.memcache.Some? ==> hasMemcache && w.cassandra.Some? && w.memcache.value == Val(w.cassandra.value)
  }

  /** Cassandra holds the fold of the committed mutations, taken in the order of their lock grants, and
      each of them returned what it made of the fold of those before it. */
  ghost predicate NoLostUpdate(first: Option<Value>, w: World) {
    && w.cassandra == Fold(first, w.log)
    && ResultsOf(first, w.log)
    && InLockOrder(w.log)
  }

  ghost predicate ResultsOf(first: Option<Value>, log: seq<Commit>) {
    forall i :: 0 <= i < |log| ==> log[i].result == Apply(log[i].r, Fold(first, log[..i]))
  }

  ghost predicate InLockOrder(log: seq<Commit>) {
    forall i, j :: 0 <= i < j < |log| ==> log[i].grant < log[j].grant
  }

  /** What the holder of the lock knows, phase by phase. */
  predicate HolderKnows(hasMemcache: bool, w: World, ph: Phase) {
    match ph
    case Idle => false
    case Waiting(_) => false
    case Holding(_) => MemcacheAgrees(hasMemcache, w)
    case Missed(r) => r.willread && MemcacheAgrees(hasMemcache, w)
    case Ready(r, value) => value == (if r.willread then w.cassandra else None) && MemcacheAgrees(hasMemcache, w)
    case Computed(r, value, new_value) =>
      && value == (if r.willread then w.cassandra else None)
      && new_value == r.fn(value) && MemcacheAgrees(hasMemcache, w)
    case Written(_, new_value) => w.cassandra == Some(new_value) && (w.memcache.Some? ==> hasMemcache)
    case LocalSet(_, new_value) => w.cassandra == Some(new_value) && (w.memcache.Some? ==> hasMemcache)
    case Leaving(_, _) => MemcacheAgrees(hasMemcache, w)
  }

  /** Mutual exclusion, and what the holder knows. */
  predicate Controlled(hasMemcache: bool, w: World) {
    && w.Sized()
    && (forall p :: 0 <= p < |w.phases| && w.phases[p].Inside() ==> w.holder == Some(p))
    && match w.holder
       case None => MemcacheAgrees(hasMemcache, w)
       case Some(p) => p < |w.phases| && HolderKnows(hasMemcache, w, w.phases[p])
  }

  /** The history so far; a holder that has not written yet runs under a grant newer than all of it. */
  ghost predicate Serial(first: Option<Value>, w: World) {
    && NoLostUpdate(first, w)
    && Before(w.log, w.grants + 1)
    && (w.holder.Some? && w.holder.value < |w.phases| && w.phases[w.holder.value].Unwritten() ==>
        Before(w.log, w.grants))
  }

  predicate Before(log: seq<Commit>, grant: nat) {
    forall i :: 0 <= i < |log| ==> log[i].grant < grant
  }

  ghost predicate Inv(hasMemcache: bool, first: Option<Value>, w: World) {
    Controlled(hasMemcache, w) && Serial(first, w)
  }

  lemma CommitKeepsHistory(first: Option<Value>, log: seq<Commit>, c: Commit)
    requires ResultsOf(first, log) && InLockOrder(log)
    requires Before(log, c.grant)
    requires c.result == Apply(c.r, Fold(first, log))
    ensures ResultsOf(first, log + [c]) && InLockOrder(log + [c])
    ensures Fold(first, log + [c]) == Some(c.result)
    ensures Before(log + [c], c.grant + 1)
  {
    var log' := log + [c];
    assert log'[..|log|] == log;
    forall i | 0 <= i < |log'| ensures log'[i].result == Apply(log'[i].r, Fold(first, log'[..i])) {
      if i < |log| {
        assert log'[..i] == log[..i];
      }
    }
  }

  lemma StepKeepsControl(hasMemcache: bool, w: World, p: nat)
    requires Controlled(hasMemcache, w) && p < |w.phases| && StepOf(hasMemcache, w, p).Some?
    ensures Controlled(hasMemcache, StepOf(hasMemcache, w, p).value)
  {
    assert w.phases[p].Inside() ==> w.holder == Some(p);
  }

  lemma WriteKeepsHistory(first: Option<Value>, w: World, v: World, c: Commit)
    requires Serial(first, w) && Before(w.log, w.grants)
    requires c.grant == w.grants == v.grants && c.result == Apply(c.r, w.cassandra)
    requires v.log == w.log + [c] && v.cassandra == Some(c.result)
    requires v.holder.Some? && v.holder.value < |v.phases| ==> !v.phases[v.holder.value].Unwritten()
    ensures Serial(first, v)
  {
    CommitKeepsHistory(first, w.log, c);
  }

  lemma StepKeepsHistory(hasMemcache: bool, first: Option<Value>, w: World, p: nat)
    requires Controlled(hasMemcache, w) && Serial(first, w)
    requires p < |w.phases| && StepOf(hasMemcache, w, p).Some?
    ensures Serial(first, StepOf(hasMemcache, w, p).value)
  {
    var v, ph := StepOf(hasMemcache, w, p).value, w.phases[p];
    if ph.Computed? {
      assert ph.Inside() && ph.Unwritten();
      WriteKeepsHistory(first, w, v, Commit(w.grants, ph.r, ph.new_value));
    } else {
      assert ph.Inside() ==> w.holder == Some(p);
      assert v.log == w.log && v.cassandra == w.cassandra;
    }
  }

  lemma NextKeepsInv(hasMemcache: bool, first: Option<Value>, w: World, a: Action)
    requires Inv(hasMemcache, first, w) && Next(hasMemcache, w, a).Some?
    ensures Inv(hasMemcache, first, Next(hasMemcache, w, a).value)
  {
    if a.Advance? {
      StepKeepsControl(hasMemcache, w, a.p);
      StepKeepsHistory(hasMemcache, first, w, a.p);
    } else {
      var v := Next(hasMemcache, w, a).value;
      assert a.Raise? ==> w.phases[a.p].Inside();
      forall q | 0 <= q < |v.phases| && v.phases[q].Inside() ensures v.holder == Some(q) {
        assert w.phases[q].Inside();
      }
    }
  }

  /** Over every interleaving no update is lost, and whenever no process is inside the critical section
      a memcached entry equals Cassandra's. */
  lemma {:induction false} EveryRunIsSerial(hasMemcache: bool, first: Option<Value>, w: World, schedule: seq<Action>)
    requires Inv(hasMemcache, first, w) && Run(hasMemcache, w, schedule).Some?
    ensures var v := Run(hasMemcache, w, schedule).value;
      && Inv(hasMemcache, first, v)
      && NoLostUpdate(first, v)
      && (v.holder.None? ==> MemcacheAgrees(hasMemcache, v))
    decreases |schedule|
  {
    if schedule != [] {
      NextKeepsInv(hasMemcache, first, w, schedule[0]);
      EveryRunIsSerial(hasMemcache, first, Next(hasMemcache, w, schedule[0]).value, schedule[1..]);
    }
  }

  lemma {:induction false} RunsFromStart(hasMemcache: bool, w: World, schedule: seq<Action>)
    requires Start(hasMemcache, w) && Run(hasMemcache, w, schedule).Some?
    ensures var v := Run(hasMemcache, w, schedule).value;
      NoLostUpdate(w.cassandra, v) && (v.holder.None? ==> MemcacheAgrees(hasMemcache, v))
  {
    EveryRunIsSerial(hasMemcache, w.cassandra, w, schedule);
  }

  /** Two worlds that differ at most in the processes' LocalCaches. */
  ghost predicate SameButLocals(v: World, w: World) {
    && v == w.(locals := v.locals) && v.Sized() && w.Sized()
  }

  /** No result depends on any LocalCache. */
  lemma {:induction false} LocalsDoNotMatter(hasMemcache: bool, v: World, w: World, schedule: seq<Action>)
    requires SameButLocals(v, w)
    ensures Run(hasMemcache, v, schedule).Some? <==> Run(hasMemcache, w, schedule).Some?
    ensures Run(hasMemcache, v, schedule).Some? ==>
      SameButLocals(Run(hasMemcache, v, schedule).value, Run(hasMemcache, w, schedule).value)
    decreases |schedule|
  {
    if schedule != [] {
      var v', w' := Next(hasMemcache, v, schedule[0]), Next(hasMemcache, w, schedule[0]);
      assert v'.Some? <==> w'.Some?;
      if v'.Some? {
        LocalsDoNotMatter(hasMemcache, v'.value, w'.value, schedule[1..]);
      }
    }
  }
}
