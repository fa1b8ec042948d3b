/** What a chain of caches does, seen at one key.
    A chain is a row of layers, nearest first. Every operation of a chain acts on each key
    separately, so its effect is described on a `Column`: what each layer holds at that key. */
module CacheColumns {
  import opened Options

  type Key = string

  /** A cached value; an object of any other sort is known by its pickle. */
  datatype Value = Number(n: int) | Text(s: string) | Truth(b: bool) | Object(pickle: string)

  /** What the database column of the hard cache holds for a value, as its backend hands it back. */
  function Encode(v: Value): Value {
    match v
    case Truth(b) => Text(if b then "t" else "f")
    case Object(pickle) => Text(pickle)
    case _ => v
  }

  predicate IsSpace(c: char) {
    c == ' ' || '\t' <= c <= '\r'
  }

  function Digits(s: string): Option<nat> {
    if s == "" || !('0' <= s[|s| - 1] <= '9') then None
    else
      var last := (s[|s| - 1] - '0') as nat;
      if |s| == 1 then Some(last)
      else match Digits(s[..|s| - 1]) case None => None case Some(n) => Some(10 * n + last)
  }

  /** An integer as text: white space around it, perhaps a sign, and digits. */
  function IntOfText(s: string): Option<int>
    decreases |s|
  {
    if s == "" then None
    else if IsSpace(s[0]) then IntOfText(s[1..])
    else if IsSpace(s[|s| - 1]) then IntOfText(s[..|s| - 1])
    else
      match Digits(if s[0] == '-' || s[0] == '+' then s[1..] else s)
      case None => None
      case Some(n) => Some(if s[0] == '-' then 0 - n else n)
  }

  /** Python's int(): None where it raises. */
  function IntOf(v: Value): Option<int> {
    match v
    case Number(n) => Some(n)
    case Truth(b) => Some(if b then 1 else 0)
    case Text(s) => IntOfText(s)
    case Object(_) => None
  }

  /** What a layer stores: a value, or the marker for a cached negative answer. */
  datatype Entry = NoneResult | Val(v: Value)

  /** The three sorts of layer: the per-process dictionary, memcached, and a store that never expires. */
  datatype Kind = Local | Shared | Permanent

  type Column = seq<Option<Entry>>

  /** The fixed make-up of a chain. */
  datatype Shape = Shape(kinds: seq<Kind>, negatives: bool)

  predicate Fits(shape: Shape, col: Column) {
    |col| == |shape.kinds| >= 1
  }

  predicate Consulted(kind: Kind, allowLocal: bool) {
    allowLocal || kind != Local
  }

  /** A permanent store ignores NoneResult; the other layers keep whatever they are given. */
  predicate Keeps(kind: Kind, e: Entry) {
    kind == Permanent ==> e != NoneResult
  }

  predicate HitAt(shape: Shape, col: Column, allowLocal: bool, i: nat)
    requires Fits(shape, col) && i < |col|
  {
    Consulted(shape.kinds[i], allowLocal) && col[i].Some?
  }

  /** The first consulted layer, from `i` on, that holds the key; the length of the chain if none does. */
  function FirstHitFrom(shape: Shape, col: Column, allowLocal: bool, i: nat): (h: nat)
    requires Fits(shape, col) && i <= |col|
    ensures i <= h <= |col|
    ensures h < |col| ==> HitAt(shape, col, allowLocal, h)
    ensures forall j :: i <= j < h ==> !HitAt(shape, col, allowLocal, j)
    decreases |col| - i
  {
    if i == |col| || HitAt(shape, col, allowLocal, i) then i else FirstHitFrom(shape, col, allowLocal, i + 1)
  }

  function FirstHit(shape: Shape, col: Column, allowLocal: bool): nat
    requires Fits(shape, col)
  {
    FirstHitFrom(shape, col, allowLocal, 0)
  }

  /** The column once `e` has been offered to each of the first `n` layers. */
  function Fill(shape: Shape, col: Column, n: nat, e: Entry): (c: Column)
    requires Fits(shape, col) && n <= |col|
  {
    seq(|col|, i requires 0 <= i < |col| => if i < n && Keeps(shape.kinds[i], e) then Some(e) else col[i])
  }

  /** A read: back-fill the layers above the first hit, or mark them all but the last as negative. */
  function GetColumn(shape: Shape, col: Column, allowLocal: bool): Column
    requires Fits(shape, col)
  {
    var h := FirstHit(shape, col, allowLocal);
    if h < |col| then Fill(shape, col, h, col[h].value)
    else if shape.negatives then Fill(shape, col, |col| - 1, NoneResult)
    else col
  }

  /** What a read answers; None stands for the caller's default. */
  function GetAnswer(shape: Shape, col: Column, allowLocal: bool): Option<Value>
    requires Fits(shape, col)
  {
    var h := FirstHit(shape, col, allowLocal);
    if h < |col| && col[h].value.Val? then Some(col[h].value.v) else None
  }

  /** Whether a single read is counted as a hit. */
  predicate GetHits(shape: Shape, col: Column, allowLocal: bool)
    requires Fits(shape, col)
  {
    var h := FirstHit(shape, col, allowLocal);
    h < |col| && shape.kinds[h] != Permanent
  }

  /** The first permanent layer: a multi-get counts what it still needs there as misses. */
  function MissLineFrom(shape: Shape, i: nat): (p: nat)
    requires i <= |shape.kinds|
    ensures i <= p <= |shape.kinds|
    ensures p < |shape.kinds| ==> shape.kinds[p] == Permanent
    ensures forall j :: i <= j < p ==> shape.kinds[j] != Permanent
    decreases |shape.kinds| - i
  {
    if i == |shape.kinds| || shape.kinds[i] == Permanent then i else MissLineFrom(shape, i + 1)
  }

  /** Whether a multi-get counts the key as a miss. */
  predicate MultiMisses(shape: Shape, col: Column, allowLocal: bool)
    requires Fits(shape, col)
  {
    FirstHit(shape, col, allowLocal) >= MissLineFrom(shape, 0)
  }

  function SetColumn(shape: Shape, col: Column, v: Value): Column
    requires Fits(shape, col)
  {
    Fill(shape, col, |col|, Val(v))
  }

  function DeleteColumn(col: Column): Column {
    seq(|col|, _ => None)
  }

  /** What the authority's add answers: what was there, or the encoding of what it inserts. */
  function AddAnswer(held: Option<Entry>, v: Value): Entry {
    if held.Some? then held.value else Val(Encode(v))
  }

  /** HardcacheChain.add: the authority decides, and its answer is written to the layers above it. */
  function AddColumn(shape: Shape, col: Column, v: Value): Column
    requires Fits(shape, col)
  {
    var last := |col| - 1;
    var kept := if col[last].Some? then col[last].value else Val(v);
    Fill(shape, col, last, AddAnswer(col[last], v))[last := Some(kept)]
  }

  /** HardcacheChain.accrue: None when int() refuses what the authority holds. */
  function AccrueColumn(shape: Shape, col: Column, delta: int): Option<Column>
    requires Fits(shape, col)
  {
    match col[|col| - 1]
    case None => Some(SetColumn(shape, col, Number(delta)))
    case Some(NoneResult) => None
    case Some(Val(v)) =>
      (match IntOf(v) case None => None case Some(n) => Some(SetColumn(shape, col, Number(n + delta))))
  }

  /** One operation on a chain, or the loss of some keys by a layer above the authority. */
  datatype Op =
    | Set(key: Key, v: Value)
    | Delete(key: Key)
    | Get(key: Key, allowLocal: bool)
    | GetMulti(keys: set<Key>, allowLocal: bool)
    | Reset
    | Evict(layer: nat, lost: set<Key>)

  predicate Touches(op: Op, k: Key) {
    match op
    case Set(key, _) => key == k
    case Delete(key) => key == k
    case Get(key, _) => key == k
    case GetMulti(keys, _) => k in keys
    case Reset => true
    case Evict(_, lost) => k in lost
  }

  function StepColumn(shape: Shape, op: Op, k: Key, col: Column): (c: Column)
    requires Fits(shape, col)
    ensures Fits(shape, c)
  {
    if !Touches(op, k) then col
    else match op
      case Set(_, v) => SetColumn(shape, col, v)
      case Delete(_) => DeleteColumn(col)
      case Get(_, allowLocal) => GetColumn(shape, col, allowLocal)
      case GetMulti(_, allowLocal) => GetColumn(shape, col, allowLocal)
      case Reset => col[0 := None]
      case Evict(i, _) => if i < |col| - 1 then col[i := None] else col
  }

  function RunColumn(shape: Shape, ops: seq<Op>, k: Key, col: Column): (c: Column)
    requires Fits(shape, col)
    ensures Fits(shape, c)
    decreases |ops|
  {
    if ops == [] then col else RunColumn(shape, ops[1..], k, StepColumn(shape, ops[0], k, col))
  }
}
