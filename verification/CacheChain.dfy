/** The chain itself: layers that are changed in place, and the loops over them. */
module CacheChains {
  import opened Options
  import opened CacheColumns
  import opened CacheWalk
  import opened Mutate

  /** One cache: a LocalCache, a CMemcache, or one of the permanent stores (HardCache, CassandraCache). */
  class Layer {
    const kind: Kind
    var store: map<Key, Entry>

    constructor (kind: Kind)
      ensures this.kind == kind && store == map[]
    {
      this.kind := kind;
      store := map[];
    }

    function At(k: Key): Option<Entry>
      reads this
    {
      if k in store then Some(store[k]) else None
    }

    method Get(key: Key) returns (r: Option<Entry>)
      ensures r == At(key)
    {
      if key in store {
        r := Some(store[key]);
      } else {
        r := None;
      }
    }

    method SimpleGetMulti(keys: set<Key>) returns (r: map<Key, Entry>)
      ensures r == Found(store, keys)
    {
      r := map[];
      var todo := keys;
      while todo != {}
        invariant todo <= keys
        invariant r == Found(store, keys - todo)
        decreases |todo|
      {
        var k :| k in todo;
        todo := todo - {k};
        if k in store {
          r := r[k := store[k]];
        }
      }
    }

    method Set(key: Key, e: Entry)
      modifies this`store
      ensures store == if Keeps(kind, e) then old(store)[key := e] else old(store)
    {
      if kind == Permanent && e == NoneResult {
        return;
      }
      store := store[key := e];
    }

    method SetMulti(entries: map<Key, Entry>)
      modifies this`store
      ensures store == old(store) + Kept(kind, entries)
    {
      hide Kept;
      var todo := entries.Keys;
      KeepNone(old(store), kind);
      assert entries - todo == map[];
      while todo != {}
        invariant todo <= entries.Keys && store == old(store) + Kept(kind, entries - todo)
        decreases |todo|
      {
        var k :| k in todo;
        KeepOne(old(store), kind, entries, todo, k);
        todo := todo - {k};
        Set(k, entries[k]);
      }
      assert entries - todo == entries;
    }

    method Delete(key: Key)
      modifies this`store
      ensures store == old(store) - {key}
    {
      if key in store {
        store := store - {key};
      }
    }

    /** HardCache.add: insert when absent and answer the encoded value, else answer what is stored. */
    method Add(key: Key, v: Value) returns (added: Entry)
      modifies this`store
      ensures added == AddAnswer(old(At(key)), v)
      ensures store == if old(At(key)).Some? then old(store) else old(store)[key := Val(v)]
    {
      if key in store {
        return store[key];
      }
      store := store[key := Val(v)];
      return Val(Encode(v));
    }

    /** A cache may lose entries at any time: expiry, memory pressure, a restart. */
    method Evict(lost: set<Key>)
      modifies this`store
      ensures store == old(store) - lost
    {
      store := store - lost;
    }
  }

  lemma KeepNone(store: map<Key, Entry>, kind: Kind)
    ensures store + Kept(kind, map[]) == store
  {
  }

  lemma KeepOne(store: map<Key, Entry>, kind: Kind, entries: map<Key, Entry>, todo: set<Key>, k: Key)
    requires k in entries && k in todo
    ensures store + Kept(kind, entries - (todo - {k})) ==
      var done := store + Kept(kind, entries - todo);
      if Keeps(kind, entries[k]) then done[k := entries[k]] else done
  {
  }

  ghost function Kinds(caches: seq<Layer>): seq<Kind> {
    seq(|caches|, i requires 0 <= i < |caches| => caches[i].kind)
  }

  ghost function Contents(caches: seq<Layer>): Stack
    reads caches
  {
    seq(|caches|, i requires 0 <= i < |caches| reads caches => caches[i].store)
  }

  lemma {:induction false} DistinctAtMost(keys: seq<Key>)
    ensures |set k | k in keys| <= |keys|
  {
    if keys != [] {
      DistinctAtMost(keys[1..]);
      assert (set k | k in keys) == {keys[0]} + set k | k in keys[1..];
    }
  }

  lemma Accrued(shape: Shape, col: Column, auth: Option<Entry>, delta: int)
    requires Fits(shape, col) && auth == col[|col| - 1]
    ensures auth.None? || (auth.value.Val? && IntOf(auth.value.v).Some?) ==>
      var sum := Val(Number(delta + if auth.None? then 0 else IntOf(auth.value.v).value));
      AccrueColumn(shape, col, delta) == Some(Fill(shape, col, |col|, sum))
      && Fill(shape, col, |col|, sum)[|col| - 1] == Some(sum)
    ensures auth.Some? && (auth.value.NoneResult? || IntOf(auth.value.v).None?) ==>
      AccrueColumn(shape, col, delta).None?
  {
  }

  /** A CacheChain. The operations that its subclasses add (HardcacheChain.add and accrue,
      CassandraCacheChain.mutate) are methods here too. */
  class CacheChain {
    var caches: seq<Layer>
    const negatives: bool
    var hits: nat
    var misses: nat

    ghost predicate Valid()
      reads this`caches
    {
      && |caches| >= 1
      && forall i, j :: 0 <= i < j < |caches| ==> caches[i] != caches[j]
    }

    ghost function TheShape(): (s: Shape)
      reads this`caches
    {
      Shape(Kinds(caches), negatives)
    }

    ghost function Stores(): Stack
      reads this`caches, caches
    {
      Contents(caches)
    }

    /** What each cache of the chain holds at `k`. */
    ghost function At(k: Key): (c: Column)
      requires Valid()
      reads this`caches, caches
      ensures Fits(TheShape(), c)
    {
      ColumnAt(Stores(), k)
    }

    constructor (caches: seq<Layer>, negatives: bool)
      requires |caches| >= 1 && forall i, j :: 0 <= i < j < |caches| ==> caches[i] != caches[j]
      ensures Valid() && this.caches == caches && this.negatives == negatives && hits == misses == 0
    {
      this.caches := caches;
      this.negatives := negatives;
      hits, misses := 0, 0;
    }

    /** Offer a dictionary of entries to each of the first `n` caches. */
    method SetMultiFirst(n: nat, entries: map<Key, Entry>)
      requires Valid() && n <= |caches|
      modifies caches
      ensures Stores() == Offer(TheShape(), old(Stores()), n, entries)
    {
      for i := 0 to n
        invariant forall j :: 0 <= j < |caches| ==>
          caches[j].store == if j < i then old(Stores())[j] + Kept(caches[j].kind, entries) else old(Stores())[j]
      {
        caches[i].SetMulti(entries);
      }
    }

    /** Offer one entry to each of the first `n` caches. */
    method SetFirst(n: nat, key: Key, e: Entry)
      requires Valid() && n <= |caches|
      modifies caches
      ensures At(key) == Fill(TheShape(), old(At(key)), n, e)
      ensures forall k :: k != key ==> At(k) == old(At(k))
    {
      for i := 0 to n
        invariant forall j :: 0 <= j < |caches| ==>
          caches[j].store == if j < i && Keeps(caches[j].kind, e) then old(Stores())[j][key := e] else old(Stores())[j]
      {
        caches[i].Set(key, e);
      }
    }

    method Set(key: Key, v: Value)
      requires Valid()
      modifies caches
      ensures At(key) == SetColumn(TheShape(), old(At(key)), v)
      ensures forall k :: k != key ==> At(k) == old(At(k))
    {
      SetFirst(|caches|, key, Val(v));
    }

    method Delete(key: Key)
      requires Valid()
      modifies caches
      ensures At(key) == DeleteColumn(old(At(key)))
      ensures forall k :: k != key ==> At(k) == old(At(k))
    {
      for i := 0 to |caches|
        invariant forall j :: 0 <= j < |caches| ==>
          caches[j].store == if j < i then old(Stores())[j] - {key} else old(Stores())[j]
      {
        caches[i].Delete(key);
      }
    }

    /** The walk down the chain: the first consulted cache that answers. */
    method Find(key: Key, allowLocal: bool) returns (h: nat, val: Option<Entry>)
      requires Valid()
      ensures h == FirstHit(TheShape(), At(key), allowLocal)
      ensures h < |caches| ==> val.Some? && val == At(key)[h]
    {
      h, val := 0, None;
      while h < |caches|
        invariant h <= |caches| && val == None
        invariant forall j :: 0 <= j < h ==> !HitAt(TheShape(), At(key), allowLocal, j)
      {
        if allowLocal || caches[h].kind != Local {
          val := caches[h].Get(key);
          if val.Some? {
            assert HitAt(TheShape(), At(key), allowLocal, h);
            return;
          }
        }
        h := h + 1;
      }
    }

    method Get(key: Key, default: Option<Value>, allowLocal: bool) returns (r: Option<Value>)
      requires Valid()
      modifies this`hits, this`misses, caches
      ensures At(key) == GetColumn(TheShape(), old(At(key)), allowLocal)
      ensures forall k :: k != key ==> At(k) == old(At(k))
      ensures r == var a := GetAnswer(TheShape(), old(At(key)), allowLocal); if a.Some? then a else default
      ensures hits == old(hits) + if GetHits(TheShape(), old(At(key)), allowLocal) then 1 else 0
      ensures misses == old(misses) + if GetHits(TheShape(), old(At(key)), allowLocal) then 0 else 1
    {
      hide ColumnAt, Fill, FirstHit;
      var h, val := Find(key, allowLocal);
      if h < |caches| && caches[h].kind != Permanent {
        hits := hits + 1;
      } else {
        misses := misses + 1;
      }
      if h < |caches| {
        SetFirst(h, key, val.value);
        return if val.value == NoneResult then default else Some(val.value.v);
      }
      if negatives {
        SetFirst(|caches| - 1, key, NoneResult);
      }
      return default;
    }

    /** One cache's turn in a multi-get: fetch what is still needed and offer it to the caches above.
        `w` is the same walk on values. */
    method Turn(i: nat, out: map<Key, Entry>, need: set<Key>, hits': nat, ghost w: Walk)
        returns (out': map<Key, Entry>, need': set<Key>, hits'': nat)
      requires Valid() && i < |caches| && w.hits !! w.need
      requires Stores() == w.st && out == w.out && need == w.need && hits' == |w.hits|
      modifies caches
      ensures var v := Visit(TheShape(), w, i);
        Stores() == v.st && out' == v.out && need' == v.need && hits'' == |v.hits|
    {
      var r := caches[i].SimpleGetMulti(need);
      assert |r| == |r.Keys|;
      hits'' := if caches[i].kind != Permanent then hits' + |r| else hits';
      SetMultiFirst(i, r);
      out', need' := r + out, need - r.Keys;
    }

    /** The loop of a multi-get, followed by `w`, the same walk on values. */
    method WalkDown(keys: seq<Key>, allowLocal: bool, ghost j: Journey)
        returns (out: map<Key, Entry>, need: set<Key>, hits': nat, misses': nat, ghost w: Walk)
      requires Valid() && j.shape == TheShape() && j.allowLocal == allowLocal && j.st == Stores()
      requires j.first.Keys == set k | k in keys
      requires Underway(j, Walk(j.st, j.first.Keys, map[], {}, {}), 0)
      modifies caches
      ensures Underway(j, w, |j.st|)
      ensures Stores() == w.st && out == w.out && need == w.need && hits' == |w.hits| && misses' == |w.misses|
    {
      hide Underway, Visit, Offer, Found;
      out, need, hits', misses' := map[], set k | k in keys, 0, 0;
      w := Walk(Stores(), need, out, {}, {});
      var i := 0;
      while i < |caches|
        invariant i <= |caches| == |j.st| && j.shape == TheShape() && Underway(j, w, i)
        invariant Stores() == w.st && out == w.out && need == w.need && hits' == |w.hits| && misses' == |w.misses|
      {
        if allowLocal || caches[i].kind != Local {
          Visited(j, w, i);
          if caches[i].kind == Permanent && misses' == 0 {
            misses' := |need|;
          }
          if |out| == |keys| {
            DistinctAtMost(keys);
            assert |j.first.Keys| == |j.first|;
            Stopped(j, w, i);
            w := Count(j.shape, w, i);
            return;
          }
          out, need, hits' := Turn(i, out, need, hits', Count(j.shape, w, i));
          w := Visit(j.shape, Count(j.shape, w, i), i);
        } else {
          Skipped(j, w, i);
        }
        i := i + 1;
      }
    }

    /** The whole multi-get up to its bookkeeping: the loop, the negative answers and the late count of misses. */
    method FetchAll(keys: seq<Key>, allowLocal: bool, ghost j: Journey)
        returns (out: map<Key, Entry>, hits': nat, misses': nat, ghost w: Walk)
      requires Valid() && j.shape == TheShape() && j.allowLocal == allowLocal && j.st == Stores()
      requires j.first.Keys == set k | k in keys
      requires Underway(j, Walk(j.st, j.first.Keys, map[], {}, {}), 0)
      modifies caches
      ensures Underway(j, w, |j.st|)
      ensures Stores() == Finish(j.shape, w).st && out == w.out
      ensures hits' == |w.hits| && misses' == |Finish(j.shape, w).misses|
    {
      hide Underway;
      var need;
      out, need, hits', misses', w := WalkDown(keys, allowLocal, j);
      if need != {} && negatives {
        SetMultiFirst(|caches| - 1, map k | k in need :: NoneResult);
      }
      if misses' == 0 {
        misses' := |need|;
      }
    }

    /** Fetch many keys in one walk down the chain. `keys` may repeat a key. */
    method SimpleGetMulti(keys: seq<Key>, allowLocal: bool) returns (answers: map<Key, Value>)
      requires Valid()
      modifies this`hits, this`misses, caches
      ensures forall k ::
        At(k) == if k in keys then GetColumn(TheShape(), old(At(k)), allowLocal) else old(At(k))
      ensures forall k :: k in answers <==> k in keys && GetAnswer(TheShape(), old(At(k)), allowLocal).Some?
      ensures forall k :: k in answers ==> GetAnswer(TheShape(), old(At(k)), allowLocal) == Some(answers[k])
      ensures hits == old(hits) + |set k | k in keys && GetHits(TheShape(), old(At(k)), allowLocal)|
      ensures misses == old(misses) + |set k | k in keys && MultiMisses(TheShape(), old(At(k)), allowLocal)|
    {
      hide Underway, Finish, GetColumn, GetAnswer, GetHits, MultiMisses, ColumnAt;
      ghost var j := Planned(TheShape(), allowLocal, Stores(), set k | k in keys);
      var out, hits', misses', w := FetchAll(keys, allowLocal, j);
      hits := hits + hits';
      misses := misses + misses';
      answers := map k | k in out && out[k] != NoneResult :: out[k].v;
      forall k
        ensures At(k) == if k in keys then GetColumn(TheShape(), old(At(k)), allowLocal) else old(At(k))
        ensures k in answers <==> k in keys && GetAnswer(TheShape(), old(At(k)), allowLocal).Some?
        ensures k in answers ==> GetAnswer(TheShape(), old(At(k)), allowLocal) == Some(answers[k])
        ensures k in w.hits <==> k in keys && GetHits(TheShape(), old(At(k)), allowLocal)
        ensures k in Finish(j.shape, w).misses <==> k in keys && MultiMisses(TheShape(), old(At(k)), allowLocal)
      {
        FinishedAt(j, w, k);
      }
      assert w.hits == set k | k in keys && GetHits(TheShape(), old(At(k)), allowLocal);
      assert Finish(j.shape, w).misses == set k | k in keys && MultiMisses(TheShape(), old(At(k)), allowLocal);
    }

    /** Start a new request: the first cache is replaced by an empty LocalCache. */
    method Reset()
      requires Valid() && caches[0].kind == Local
      modifies this`caches
      ensures Valid() && TheShape() == old(TheShape()) && caches[1..] == old(caches[1..]) && fresh(caches[0])
      ensures forall k :: At(k) == old(At(k))[0 := None]
    {
      var localcache := new Layer(Local);
      caches := [localcache] + caches[1..];
      assert forall i :: 0 < i < |caches| ==> caches[i] == old(caches)[i];
    }

    /** HardcacheChain.add: the authority adds, and what it answers is set everywhere above it. */
    method HardAdd(key: Key, v: Value) returns (added: Entry)
      requires Valid()
      modifies caches
      ensures At(key) == AddColumn(TheShape(), old(At(key)), v)
      ensures added == AddAnswer(old(At(key))[|caches| - 1], v)
      ensures forall k :: k != key ==> At(k) == old(At(k))
    {
      var last := |caches| - 1;
      added := caches[last].Add(key, v);
      label added_it:
      SetFirst(last, key, added);
      assert forall i :: 0 <= i < last ==> old(At(key))[i] == old@added_it(At(key))[i];
      forall k | k != key ensures At(k) == old(At(k)) {
        assert forall i :: 0 <= i < |caches| ==> old(At(k))[i] == old@added_it(At(k))[i];
      }
    }

    /** HardcacheChain.accrue; None where int() raises. */
    method Accrue(key: Key, delta: int) returns (r: Option<int>)
      requires Valid()
      modifies caches
      ensures var after := AccrueColumn(TheShape(), old(At(key)), delta);
        At(key) == if after.Some? then after.value else old(At(key))
      ensures r.None? <==> AccrueColumn(TheShape(), old(At(key)), delta).None?
      ensures r.Some? ==> At(key)[|caches| - 1] == Some(Val(Number(r.value)))
      ensures forall k :: k != key ==> At(k) == old(At(k))
    {
      var auth_value := caches[|caches| - 1].Get(key);
      Accrued(TheShape(), At(key), auth_value, delta);
      hide AccrueColumn, Fill, ColumnAt;
      var n := 0;
      if auth_value.Some? {
        if auth_value.value.NoneResult? || IntOf(auth_value.value.v).None? {
          return None;
        }
        n := IntOf(auth_value.value.v).value;
      }
      SetFirst(|caches|, key, Val(Number(n + delta)));
      return Some(n + delta);
    }

    /** The read of mutate: memcached if the chain has one, then Cassandra; NoneResult becomes the default. */
    method ReadToMutate(key: Key, r: Request) returns (value: Option<Value>)
      requires Valid() && IsPermacache(TheShape())
      ensures value == MutateRead(At(key), r)
    {
      if !r.willread {
        return None;
      }
      var found: Option<Entry> := None;
      if |caches| == 3 {
        found := caches[1].Get(key);
      }
      if found.None? {
        found := caches[|caches| - 1].Get(key);
      }
      return if found.Some? then Unpack(found.value, r.default) else None;
    }

    /** CassandraCacheChain.mutate, with the lock held throughout. */
    method MutateLocked(key: Key, r: Request) returns (new_value: Value)
      requires Valid() && IsPermacache(TheShape())
      modifies caches
      ensures At(key) == MutateColumn(old(At(key)), r)
      ensures new_value == r.fn(MutateRead(old(At(key)), r))
      ensures forall k :: k != key ==> At(k) == old(At(k))
    {
      hide MutateRead;
      var last := |caches| - 1;
      var value := ReadToMutate(key, r);
      new_value := r.fn(value);
      if !r.willread || value != Some(new_value) {
        assert TheShape().kinds[last] == Permanent;
        caches[last].Set(key, Val(new_value));
      }
      label written:
      assert forall i :: 0 <= i < last ==> Stores()[i] == old(Stores())[i];
      SetFirst(last, key, Val(new_value));
      forall k | k != key ensures At(k) == old(At(k)) {
        assert old(At(k)) == old@written(At(k));
      }
      assert At(key)[last] == old@written(At(key))[last];
    }
  }
}
