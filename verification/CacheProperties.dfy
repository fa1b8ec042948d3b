/** Whole-run properties of a chain of caches. */
module CacheProperties {
  import opened Options
  import opened CacheColumns

  /** A chain whose last layer is a permanent authority below at least one other layer. */
  predicate HasAuthority(shape: Shape) {
    |shape.kinds| >= 2 && shape.kinds[|shape.kinds| - 1] == Permanent
  }

  /** Each upper layer is empty, agrees with the authority, or caches a negative answer that is true. */
  predicate Coherent(col: Column)
    requires |col| >= 1
  {
    var auth := col[|col| - 1];
    && auth != Some(NoneResult)
    && forall i :: 0 <= i < |col| - 1 ==>
        col[i].None? || col[i] == auth || (col[i] == Some(NoneResult) && auth.None?)
  }

  function Authority(col: Column): Option<Entry>
    requires |col| >= 1
  {
    col[|col| - 1]
  }

  /** The one map the chain stands for: what the last write of the key in the run left there. */
  function MapAfter(ops: seq<Op>, k: Key, before: Option<Value>): Option<Value>
    decreases |ops|
  {
    if ops == [] then before
    else
      var now := match ops[0]
        case Set(key, v) => if key == k then Some(v) else before
        case Delete(key) => if key == k then None else before
        case _ => before;
      MapAfter(ops[1..], k, now)
  }

  predicate Stands(col: Column, m: Option<Value>)
    requires |col| >= 1
  {
    Authority(col) == match m case None => None case Some(v) => Some(Val(v))
  }

  // ------------------------------------------------------------- the operations, spelled out

  /** A read where `h` is the first cache that may be asked and holds the key, or there is none such: what it
      answers, what each cache holds afterwards, and how it is counted. */
  lemma ReadIs(shape: Shape, col: Column, allowLocal: bool, h: nat)
    requires Fits(shape, col) && h <= |col|
    requires forall j :: 0 <= j < h ==> (shape.kinds[j] == Local && !allowLocal) || col[j] == None
    requires h < |col| ==> (shape.kinds[h] != Local || allowLocal) && col[h] != None
    ensures GetAnswer(shape, col, allowLocal) ==
      if h == |col| || col[h] == Some(NoneResult) then None else Some(col[h].value.v)
    ensures var c := GetColumn(shape, col, allowLocal);
      && |c| == |col|
      && forall i :: 0 <= i < |col| ==>
           c[i] ==
             if h < |col| then
               (if i < h && !(shape.kinds[i] == Permanent && col[h] == Some(NoneResult)) then col[h] else col[i])
             else if shape.negatives && i < |col| - 1 && shape.kinds[i] != Permanent then Some(NoneResult)
             else col[i]
    ensures GetHits(shape, col, allowLocal) <==> h < |col| && shape.kinds[h] != Permanent
    ensures MultiMisses(shape, col, allowLocal) <==>
      h == |col| || exists p :: 0 <= p <= h && shape.kinds[p] == Permanent
  {
    var f := FirstHit(shape, col, allowLocal);
    assert h < |col| ==> HitAt(shape, col, allowLocal, h);
    assert forall j :: 0 <= j < h ==> !HitAt(shape, col, allowLocal, j);
    assert f == h;
  }

  /** A write puts its value into every cache, a deletion empties every one. */
  lemma WritesAre(shape: Shape, col: Column, v: Value)
    requires Fits(shape, col)
    ensures |SetColumn(shape, col, v)| == |DeleteColumn(col)| == |col|
    ensures forall i :: 0 <= i < |col| ==> SetColumn(shape, col, v)[i] == Some(Val(v)) && DeleteColumn(col)[i] == None
  {
  }

  /** Only truth values and objects are stored in another form than their own. */
  lemma EncodingsAre(n: int, s: string)
    ensures Encode(Number(n)) == Number(n) && Encode(Text(s)) == Text(s) && Encode(Object(s)) == Text(s)
    ensures Encode(Truth(true)) == Text("t") && Encode(Truth(false)) == Text("f")
  {
  }

  /** An integer as Python writes it. */
  function Decimal(n: int): (s: string)
    ensures s != ""
    decreases if n < 0 then 1 - n else n
  {
    if n < 0 then "-" + Decimal(-n)
    else if n < 10 then [('0' as int + n) as char]
    else Decimal(n / 10) + [('0' as int + n % 10) as char]
  }

  lemma {:induction false} DecimalDigits(n: nat)
    ensures Digits(Decimal(n)) == Some(n) && forall i :: 0 <= i < |Decimal(n)| ==> '0' <= Decimal(n)[i] <= '9'
  {
    if n >= 10 {
      DecimalDigits(n / 10);
      var s := Decimal(n);
      assert s[..|s| - 1] == Decimal(n / 10);
    }
  }

  lemma SignedText(n: int)
    ensures var d := Decimal(n);
      && d != "" && !IsSpace(d[0]) && !IsSpace(d[|d| - 1])
      && (n < 0 ==> d[0] == '-' && Digits(d[1..]) == Some(-n))
      && (n >= 0 ==> d[0] != '-' && d[0] != '+' && Digits(d) == Some(n))
  {
    if n < 0 {
      DecimalDigits(-n);
      assert Decimal(n) == "-" + Decimal(-n);
      hide Digits;
      assert Decimal(n)[1..] == Decimal(-n);
    } else {
      DecimalDigits(n);
      hide Digits;
    }
  }

  lemma IntOfDecimal(n: int)
    ensures IntOfText(Decimal(n)) == Some(n)
  {
    hide Decimal, Digits, IsSpace;
    SignedText(n);
  }

  lemma SpaceBefore(c: char, s: string)
    requires IsSpace(c)
    ensures IntOfText([c] + s) == IntOfText(s)
  {
    hide Digits, IsSpace;
    assert ([c] + s)[1..] == s;
  }

  /** int() of numbers and of truth values, and of a number's text, with white space before it or not. */
  lemma IntsAre(n: int, b: bool, s: string, c: char)
    ensures IntOf(Number(n)) == Some(n) && IntOf(Text(Decimal(n))) == Some(n)
    ensures IntOf(Truth(b)) == Some(if b then 1 else 0) && IntOf(Object(s)) == None && IntOf(Text("")) == None
    ensures c in [' ', '\t', '\n', '\r'] ==> IntOf(Text([c] + Decimal(n))) == Some(n)
  {
    IntOfDecimal(n);
    if c in [' ', '\t', '\n', '\r'] {
      SpaceBefore(c, Decimal(n));
    }
    hide Decimal, Digits;
  }

  lemma ReadKeepsCoherence(shape: Shape, col: Column, allowLocal: bool)
    requires HasAuthority(shape) && Fits(shape, col) && Coherent(col)
    ensures Coherent(GetColumn(shape, col, allowLocal))
    ensures Authority(GetColumn(shape, col, allowLocal)) == Authority(col)
  {
    var h := FirstHit(shape, col, allowLocal);
    var c := GetColumn(shape, col, allowLocal);
    assert h == |col| ==> !HitAt(shape, col, allowLocal, |col| - 1);
    forall i | 0 <= i < |c| - 1
      ensures c[i].None? || c[i] == Authority(c) || (c[i] == Some(NoneResult) && Authority(c).None?)
    {
      assert c[i] == col[i] || (h < |col| && c[i] == col[h]) || (h == |col| && c[i] == Some(NoneResult));
    }
  }

  lemma StepKeepsCoherence(shape: Shape, op: Op, k: Key, col: Column, m: Option<Value>)
    requires HasAuthority(shape) && Fits(shape, col) && Coherent(col) && Stands(col, m)
    ensures Coherent(StepColumn(shape, op, k, col))
    ensures Stands(StepColumn(shape, op, k, col), MapAfter([op], k, m))
  {
    assert [op][1..] == [];
    if op.Get? || op.GetMulti? {
      ReadKeepsCoherence(shape, col, op.allowLocal);
    }
  }

  /** A read of a coherent column answers exactly what the authority holds. */
  lemma CoherentReadIsAuthority(shape: Shape, col: Column, allowLocal: bool, m: Option<Value>)
    requires HasAuthority(shape) && Fits(shape, col) && Coherent(col) && Stands(col, m)
    ensures GetAnswer(shape, col, allowLocal) == m
  {
    if m.Some? {
      assert HitAt(shape, col, allowLocal, |col| - 1);
    }
  }

  /** Over every run the chain is coherent at every key and reads like the simple map. */
  lemma {:induction false} ChainRefinesMap(shape: Shape, ops: seq<Op>, k: Key, col: Column, m: Option<Value>,
                                           allowLocal: bool)
    requires HasAuthority(shape) && Fits(shape, col) && Coherent(col) && Stands(col, m)
    ensures Coherent(RunColumn(shape, ops, k, col))
    ensures Stands(RunColumn(shape, ops, k, col), MapAfter(ops, k, m))
    ensures GetAnswer(shape, RunColumn(shape, ops, k, col), allowLocal) == MapAfter(ops, k, m)
    decreases |ops|
  {
    if ops == [] {
      CoherentReadIsAuthority(shape, col, allowLocal, m);
    } else {
      StepKeepsCoherence(shape, ops[0], k, col, m);
      assert [ops[0]][1..] == [];
      ChainRefinesMap(shape, ops[1..], k, StepColumn(shape, ops[0], k, col), MapAfter([ops[0]], k, m), allowLocal);
    }
  }

  /** Whether a read gets to a layer above the authority. */
  predicate SeesAbove(shape: Shape, allowLocal: bool) {
    exists i :: 0 <= i < |shape.kinds| - 1 && Consulted(shape.kinds[i], allowLocal)
  }

  /** HardcacheChain.add keeps what the authority had, else stores the value. Whatever the layers above held,
      the key is coherent afterwards if and only if the key was there or the value is its own encoding, because
      an insert answers the encoding and that is what is written above. */
  lemma AddRepairsIff(shape: Shape, col: Column, v: Value)
    requires HasAuthority(shape) && Fits(shape, col) && Authority(col) != Some(NoneResult)
    ensures Coherent(AddColumn(shape, col, v)) <==> Authority(col).Some? || Encode(v) == v
    ensures Authority(AddColumn(shape, col, v)) == if Authority(col).Some? then Authority(col) else Some(Val(v))
    ensures forall allowLocal ::
      GetAnswer(shape, AddColumn(shape, col, v), allowLocal) ==
        if Authority(col).Some? then Some(Authority(col).value.v)
        else Some(if SeesAbove(shape, allowLocal) then Encode(v) else v)
  {
    var c := AddColumn(shape, col, v);
    assert c[0] == Some(AddAnswer(Authority(col), v));
    forall allowLocal
      ensures GetAnswer(shape, c, allowLocal) ==
        if Authority(col).Some? then Some(Authority(col).value.v)
        else Some(if SeesAbove(shape, allowLocal) then Encode(v) else v)
    {
      AddIsRead(shape, col, v, allowLocal);
    }
  }

  lemma AddIsRead(shape: Shape, col: Column, v: Value, allowLocal: bool)
    requires HasAuthority(shape) && Fits(shape, col) && Authority(col) != Some(NoneResult)
    ensures GetAnswer(shape, AddColumn(shape, col, v), allowLocal) ==
      if Authority(col).Some? then Some(Authority(col).value.v)
      else Some(if SeesAbove(shape, allowLocal) then Encode(v) else v)
  {
    var c := AddColumn(shape, col, v);
    var h := FirstHit(shape, c, allowLocal);
    assert HitAt(shape, c, allowLocal, |c| - 1);
    assert h < |c|;
    if SeesAbove(shape, allowLocal) {
      var i :| 0 <= i < |shape.kinds| - 1 && Consulted(shape.kinds[i], allowLocal);
      assert HitAt(shape, c, allowLocal, i);
    }
  }

  /** A truth value that is inserted by add reads as a text from every layer above the hard cache. */
  lemma AddedTruthReadsAsText(b: bool)
    ensures var shape, empty := Shape([Local, Shared, Permanent], false), [None, None, None];
      var c := AddColumn(shape, empty, Truth(b));
      && !Coherent(c) && c[2] == Some(Val(Truth(b)))
      && GetAnswer(shape, c, true) == GetAnswer(shape, c, false) == Some(Text(if b then "t" else "f"))
  {
    var shape: Shape, empty: Column := Shape([Local, Shared, Permanent], false), [None, None, None];
    AddRepairsIff(shape, empty, Truth(b));
    assert Consulted(shape.kinds[1], true) && Consulted(shape.kinds[1], false);
  }

  /** HardcacheChain.accrue leaves its key coherent too, unless int() refuses the authority's value. */
  lemma AccrueRepairs(shape: Shape, col: Column, delta: int)
    requires HasAuthority(shape) && Fits(shape, col) && Authority(col) != Some(NoneResult)
    ensures AccrueColumn(shape, col, delta).None? <==> (Authority(col).Some? && IntOf(Authority(col).value.v).None?)
    ensures AccrueColumn(shape, col, delta).Some? ==>
      var c := AccrueColumn(shape, col, delta).value;
      var total := delta + if Authority(col).Some? then IntOf(Authority(col).value.v).value else 0;
      Coherent(c) && forall allowLocal :: GetAnswer(shape, c, allowLocal) == Some(Number(total))
  {
    if AccrueColumn(shape, col, delta).Some? {
      var c := AccrueColumn(shape, col, delta).value;
      var total := delta + if Authority(col).Some? then IntOf(Authority(col).value.v).value else 0;
      forall allowLocal ensures GetAnswer(shape, c, allowLocal) == Some(Number(total)) {
        CoherentReadIsAuthority(shape, c, allowLocal, Some(Number(total)));
      }
    }
  }

  // ------------------------------------------------------------- one multi-get, or a get for each key

  predicate Distinct(ks: seq<Key>) {
    forall i, j :: 0 <= i < j < |ks| ==> ks[i] != ks[j]
  }

  function Gets(ks: seq<Key>, allowLocal: bool): (ops: seq<Op>) {
    seq(|ks|, i requires 0 <= i < |ks| => Get(ks[i], allowLocal))
  }

  lemma {:induction false} UntouchedByGets(shape: Shape, ks: seq<Key>, allowLocal: bool, k: Key, col: Column)
    requires Fits(shape, col) && k !in ks
    ensures RunColumn(shape, Gets(ks, allowLocal), k, col) == col
    decreases |ks|
  {
    if ks != [] {
      assert Gets(ks, allowLocal)[1..] == Gets(ks[1..], allowLocal);
      UntouchedByGets(shape, ks[1..], allowLocal, k, col);
    }
  }

  /** Every layer ends the same whether the keys are fetched by one multi-get or one by one in any order,
      and each single get sees the column the multi-get started from, so the answers agree too. */
  lemma {:induction false} MultiGetIsGets(shape: Shape, ks: seq<Key>, allowLocal: bool, k: Key, col: Column)
    requires Fits(shape, col) && Distinct(ks)
    ensures RunColumn(shape, Gets(ks, allowLocal), k, col)
         == StepColumn(shape, GetMulti((set x | x in ks), allowLocal), k, col)
    ensures forall i :: 0 <= i < |ks| && ks[i] == k ==> RunColumn(shape, Gets(ks[..i], allowLocal), k, col) == col
    decreases |ks|
  {
    forall i | 0 <= i < |ks| && ks[i] == k ensures RunColumn(shape, Gets(ks[..i], allowLocal), k, col) == col {
      UntouchedByGets(shape, ks[..i], allowLocal, k, col);
    }
    if ks != [] {
      var ops := Gets(ks, allowLocal);
      assert ops[1..] == Gets(ks[1..], allowLocal);
      if ks[0] == k {
        UntouchedByGets(shape, ks[1..], allowLocal, k, StepColumn(shape, ops[0], k, col));
      } else {
        assert k in ks <==> k in ks[1..];
        MultiGetIsGets(shape, ks[1..], allowLocal, k, col);
      }
    }
  }

  /** Whether every layer after the first consulted permanent one is permanent or never consulted. */
  predicate PermanentLast(shape: Shape, allowLocal: bool) {
    forall i, j :: 0 <= i < j < |shape.kinds| && shape.kinds[i] == Permanent && Consulted(shape.kinds[j], allowLocal)
      ==> shape.kinds[j] == Permanent
  }

  /** A key is counted exactly once by a multi-get, and as a single get counts it, for every content
      of the layers, if and only if the permanent layers come last. */
  lemma CountsAgreeIffPermanentLast(shape: Shape, allowLocal: bool)
    requires |shape.kinds| >= 1
    ensures PermanentLast(shape, allowLocal) <==>
      forall col | Fits(shape, col) :: MultiMisses(shape, col, allowLocal) == !GetHits(shape, col, allowLocal)
  {
    if PermanentLast(shape, allowLocal) {
      forall col | Fits(shape, col) ensures MultiMisses(shape, col, allowLocal) == !GetHits(shape, col, allowLocal) {
      }
    } else {
      var i, j :| 0 <= i < j < |shape.kinds| && shape.kinds[i] == Permanent
        && Consulted(shape.kinds[j], allowLocal) && shape.kinds[j] != Permanent;
      var col := seq(|shape.kinds|, n => if n == j then Some(NoneResult) else None);
      assert HitAt(shape, col, allowLocal, j);
      assert FirstHit(shape, col, allowLocal) == j;
      assert MultiMisses(shape, col, allowLocal) && GetHits(shape, col, allowLocal);
    }
  }

  /** The two counts of a multi-get add up to the number of its keys, repeated keys counted once, if the
      permanent layers come last. `at` is what each key's column was. */
  lemma CountsAddUp(shape: Shape, at: Key -> Column, keys: seq<Key>, allowLocal: bool)
    requires |shape.kinds| >= 1 && PermanentLast(shape, allowLocal)
    requires forall k :: k in keys ==> Fits(shape, at(k))
    ensures |set k | k in keys && GetHits(shape, at(k), allowLocal)|
      + |set k | k in keys && MultiMisses(shape, at(k), allowLocal)| == |set k | k in keys|
  {
    CountsAgreeIffPermanentLast(shape, allowLocal);
    var all := set k | k in keys;
    var hits := set k | k in keys && GetHits(shape, at(k), allowLocal);
    assert (set k | k in keys && MultiMisses(shape, at(k), allowLocal)) == all - hits;
  }
}
