/** StaleCacheChain: a LocalCache and a real cache, with a stale cache beside them that only readers who
    said so may be answered from. */
module StaleChain {
  import opened Options
  import opened CacheColumns

  /** What the three caches hold at one key. */
  datatype Trio = Trio(local: Option<Value>, stale: Option<Value>, actual: Option<Value>)

  function ReadTrio(t: Trio, stale: bool, allowLocal: bool): Trio {
    if allowLocal && t.local.Some? then t
    else if stale && t.stale.Some? then t
    else if t.actual.Some? then Trio(t.actual, if stale then t.actual else t.stale, t.actual)
    else t
  }

  function Answer(t: Trio, stale: bool, allowLocal: bool): Option<Value> {
    if allowLocal && t.local.Some? then t.local
    else if stale && t.stale.Some? then t.stale
    else t.actual
  }

  /** The chain. Single and multiple reads are described by the same two functions, key by key. */
  class StaleCacheChain {
    var localcache: map<Key, Value>
    var stalecache: map<Key, Value>
    var realcache: map<Key, Value>

    constructor ()
      ensures forall k :: At(k) == Trio(None, None, None)
    {
      localcache, stalecache, realcache := map[], map[], map[];
    }

    function At(k: Key): Trio
      reads this
    {
      Trio(Look(localcache, k), Look(stalecache, k), Look(realcache, k))
    }

    static function Look(m: map<Key, Value>, k: Key): Option<Value> {
      if k in m then Some(m[k]) else None
    }

    /** CacheChain.set over the two caches of the chain; the stale cache is not told. */
    method Set(key: Key, v: Value)
      modifies this
      ensures forall k :: At(k) == if k == key then Trio(Some(v), old(At(k)).stale, Some(v)) else old(At(k))
    {
      localcache := localcache[key := v];
      realcache := realcache[key := v];
    }

    method Delete(key: Key)
      modifies this
      ensures forall k :: At(k) == if k == key then Trio(None, old(At(k)).stale, None) else old(At(k))
    {
      localcache := localcache - {key};
      realcache := realcache - {key};
    }

    method Get(key: Key, default: Option<Value>, stale: bool, allowLocal: bool) returns (r: Option<Value>)
      modifies this
      ensures forall k :: At(k) == if k == key then ReadTrio(old(At(k)), stale, allowLocal) else old(At(k))
      ensures r == var a := Answer(old(At(key)), stale, allowLocal); if a.Some? then a else default
      // the first cache that may answer and can; only an answer of the real cache is kept, and where
      ensures r ==
        if allowLocal && key in old(localcache) then Some(old(localcache)[key])
        else if stale && key in old(stalecache) then Some(old(stalecache)[key])
        else if key in old(realcache) then Some(old(realcache)[key])
        else default
      ensures realcache == old(realcache)
      ensures
        if (allowLocal && key in old(localcache)) || (stale && key in old(stalecache)) || key !in old(realcache) then
          localcache == old(localcache) && stalecache == old(stalecache)
        else
          && localcache == old(localcache)[key := realcache[key]]
          && stalecache == if stale then old(stalecache)[key := realcache[key]] else old(stalecache)
    {
      if allowLocal && key in localcache {
        return Some(localcache[key]);
      }
      if stale && key in stalecache {
        return Some(stalecache[key]);
      }
      // CacheChain.get: the LocalCache has nothing or is skipped, and is filled from the real cache
      if key !in realcache {
        return default;
      }
      var value := realcache[key];
      localcache := localcache[key := value];
      if stale {
        stalecache := stalecache[key := value];
      }
      return Some(value);
    }

    /** Take from `source` the keys it has: they move from `keys` to `ret`. */
    method Collect(source: map<Key, Value>, keys: set<Key>, ret: map<Key, Value>)
        returns (keys': set<Key>, ret': map<Key, Value>)
      ensures forall k :: k in keys' <==> k in keys && k !in source
      ensures forall k :: Look(ret', k) == if k in keys && k in source then Some(source[k]) else Look(ret, k)
    {
      keys', ret' := keys, ret;
      var todo := keys;
      while todo != {}
        invariant todo <= keys
        invariant forall k :: k in keys' <==> k in keys && (k in todo || k !in source)
        invariant forall k ::
          Look(ret', k) == if k in keys && k !in todo && k in source then Some(source[k]) else Look(ret, k)
        decreases |todo|
      {
        var k :| k in todo;
        todo := todo - {k};
        if k in source {
          ret' := ret'[k := source[k]];
          keys' := keys' - {k};
        }
      }
    }

    method SimpleGetMulti(wanted: set<Key>, stale: bool, allowLocal: bool) returns (ret: map<Key, Value>)
      modifies this
      ensures forall k :: At(k) == if k in wanted then ReadTrio(old(At(k)), stale, allowLocal) else old(At(k))
      ensures forall k :: Look(ret, k) == if k in wanted then Answer(old(At(k)), stale, allowLocal) else None
      // key by key the first cache that may answer and can
      ensures forall k :: k in ret <==>
        k in wanted
        && ((allowLocal && k in old(localcache)) || (stale && k in old(stalecache)) || k in old(realcache))
      ensures forall k :: k in ret ==>
        ret[k] ==
          if allowLocal && k in old(localcache) then old(localcache)[k]
          else if stale && k in old(stalecache) then old(stalecache)[k]
          else old(realcache)[k]
      ensures realcache == old(realcache)
    {
      var keys;
      keys, ret := wanted, map[];
      if allowLocal {
        keys, ret := Collect(localcache, keys, ret);
      }
      if stale {
        keys, ret := Collect(stalecache, keys, ret);
      }
      var left, values := Collect(realcache, keys, map[]);
      if stale {
        stalecache := stalecache + values;
      }
      localcache := localcache + values;
      ghost var first := ret;
      ret := ret + values;
      forall k
        ensures At(k) == if k in wanted then ReadTrio(old(At(k)), stale, allowLocal) else old(At(k))
        ensures Look(ret, k) == if k in wanted then Answer(old(At(k)), stale, allowLocal) else None
      {
        assert Look(values, k) == if k in keys && k in realcache then Some(realcache[k]) else None;
        assert Look(ret, k) == if k in values then Some(values[k]) else Look(first, k);
        assert At(k).local == if k in values then Some(values[k]) else old(At(k)).local;
        assert At(k).stale == if stale && k in values then Some(values[k]) else old(At(k)).stale;
      }
    }

    method Reset()
      modifies this
      ensures forall k :: At(k) == old(At(k)).(local := None)
    {
      localcache := map[];
    }
  }

  // ------------------------------------------------------------------ whole runs

  /** What can happen to a chain. A stale cache belongs to a whole application server, so in `Scribble`
      anything at all may happen to it; `Expire` only loses entries. */
  datatype Op =
    | Write(key: Key, v: Value)
    | Remove(key: Key)
    | Read(keys: set<Key>, stale: bool, allowLocal: bool)
    | NewRequest
    | EvictReal(lost: set<Key>)
    | Expire(lost: set<Key>)
    | Scribble(content: map<Key, Value>)

  /** One key of the chain together with its history: the value last written, if it is still there to be
      read, and every value it ever had. */
  datatype Past = Past(t: Trio, latest: Option<Value>, ever: set<Value>)

  function Step(op: Op, k: Key, p: Past): Past {
    match op
    case Write(key, v) => if key == k then Past(Trio(Some(v), p.t.stale, Some(v)), Some(v), p.ever + {v}) else p
    case Remove(key) => if key == k then Past(Trio(None, p.t.stale, None), None, p.ever) else p
    case Read(keys, stale, allowLocal) => if k in keys then p.(t := ReadTrio(p.t, stale, allowLocal)) else p
    case NewRequest => p.(t := p.t.(local := None))
    case EvictReal(lost) => if k in lost then p.(t := p.t.(actual := None)) else p
    case Expire(lost) => if k in lost then p.(t := p.t.(stale := None)) else p
    case Scribble(content) => p.(t := p.t.(stale := StaleCacheChain.Look(content, k)))
  }

  function Run(ops: seq<Op>, k: Key, p: Past): Past
    decreases |ops|
  {
    if ops == [] then p else Run(ops[1..], k, Step(ops[0], k, p))
  }

  /** The two caches that everyone reads hold only the value last written. */
  predicate Isolated(p: Past) {
    (p.t.local.Some? ==> p.t.local == p.latest) && (p.t.actual.Some? ==> p.t.actual == p.latest)
  }

  /** The stale cache holds only values the key really had. */
  predicate StaleButReal(p: Past) {
    (p.latest.Some? ==> p.latest.value in p.ever) && (p.t.stale.Some? ==> p.t.stale.value in p.ever)
  }

  /** Whatever is done to the stale cache, nothing from it enters the local or the real cache, and a read
      that did not ask for stale data answers the value last written or nothing. */
  lemma {:induction false} StaleDataStaysOut(ops: seq<Op>, k: Key, p: Past, allowLocal: bool)
    requires Isolated(p)
    ensures var q := Run(ops, k, p);
      Isolated(q) && (Answer(q.t, false, allowLocal).Some? ==> Answer(q.t, false, allowLocal) == q.latest)
    decreases |ops|
  {
    if ops != [] {
      StaleDataStaysOut(ops[1..], k, Step(ops[0], k, p), allowLocal);
    }
  }

  /** As long as only this chain fills the stale cache, a read that accepts stale data answers a value
      that its key once had. */
  lemma {:induction false} StaleAnswersWereTrue(ops: seq<Op>, k: Key, p: Past, allowLocal: bool)
    requires Isolated(p) && StaleButReal(p)
    requires forall i :: 0 <= i < |ops| ==> !ops[i].Scribble?
    ensures var q := Run(ops, k, p);
      StaleButReal(q) && (Answer(q.t, true, allowLocal).Some? ==> Answer(q.t, true, allowLocal).value in q.ever)
    decreases |ops|
  {
    if ops != [] {
      StaleAnswersWereTrue(ops[1..], k, Step(ops[0], k, p), allowLocal);
    }
  }

  /** A read, spelled out: the first of the caches that may answer and holds the key answers, so a read that
      accepts stale data never does worse; only what the real cache answers is kept, in the local cache and, for
      such a read, in the stale one. */
  lemma ReadIs(t: Trio, stale: bool, allowLocal: bool)
    ensures Answer(t, stale, allowLocal) ==
      if allowLocal && t.local.Some? then t.local
      else if stale && t.stale.Some? then t.stale
      else t.actual
    ensures Answer(t, stale, allowLocal).None? <==>
      t.actual.None? && (stale ==> t.stale.None?) && (allowLocal ==> t.local.None?)
    ensures var u, asked := ReadTrio(t, stale, allowLocal),
                            !(allowLocal && t.local.Some?) && !(stale && t.stale.Some?) && t.actual.Some?;
      && u.actual == t.actual
      && u.local == (if asked then t.actual else t.local)
      && u.stale == if asked && stale then t.actual else t.stale
  {
  }

  /** Over every run, also those that scribble on the stale cache, a read that accepts stale data answers some
      value of a key that the real cache holds; where the stale cache has nothing, it is the value last written. */
  lemma {:induction false} StaleReadsAnswer(ops: seq<Op>, k: Key, p: Past, allowLocal: bool)
    requires Isolated(p)
    ensures var q := Run(ops, k, p); var a := Answer(q.t, true, allowLocal);
      && (q.t.actual.Some? ==> a.Some?)
      && (q.t.actual.Some? && q.t.stale.None? ==> a == q.latest)
  {
    StaleDataStaysOut(ops, k, p, allowLocal);
    ReadIs(Run(ops, k, p).t, true, allowLocal);
  }

  /** A single read looks in the local cache unless told not to, a multiple read only if told to. Left to
      their defaults, and without stale data, the two answer the same exactly unless the real cache has lost
      what the local cache still holds. */
  lemma DefaultReadsAgreeIff(p: Past)
    requires Isolated(p)
    ensures Answer(p.t, false, true) == Answer(p.t, false, false) <==> p.t.local.None? || p.t.actual.Some?
  {
  }

  predicate Fresh(op: Op) { op.Read? ==> !op.stale }

  /** As long as no read accepts stale data, the local and the real cache end the same whatever the stale
      cache held at first. */
  lemma {:induction false} StaleCacheIsInvisible(ops: seq<Op>, k: Key, p: Past, stale: Option<Value>)
    requires forall i :: 0 <= i < |ops| ==> Fresh(ops[i])
    ensures var q, r := Run(ops, k, p), Run(ops, k, p.(t := p.t.(stale := stale)));
      q.t.local == r.t.local && q.t.actual == r.t.actual && q.latest == r.latest
    decreases |ops|
  {
    if ops != [] {
      var p' := p.(t := p.t.(stale := stale));
      var q, r := Step(ops[0], k, p), Step(ops[0], k, p');
      assert r == q.(t := q.t.(stale := r.t.stale)) by {
        assert Fresh(ops[0]);
      }
      StaleCacheIsInvisible(ops[1..], k, q, r.t.stale);
    }
  }
}
