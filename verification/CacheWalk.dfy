/** The multi-get of a chain as a walk over whole layers, and what it does to each single key. */
module CacheWalk {
  import opened Options
  import opened CacheColumns

  type Stack = seq<map<Key, Entry>>

  /** What each layer of a stack holds at one key. */
  function ColumnAt(st: Stack, k: Key): Column {
    seq(|st|, i requires 0 <= i < |st| => if k in st[i] then Some(st[i][k]) else None)
  }

  function Kept(kind: Kind, entries: map<Key, Entry>): map<Key, Entry> {
    map k | k in entries && Keeps(kind, entries[k]) :: entries[k]
  }

  /** The stack once `entries` has been offered to each of the first `n` layers. */
  function Offer(shape: Shape, st: Stack, n: nat, entries: map<Key, Entry>): (s: Stack)
    requires |st| == |shape.kinds| && n <= |st|
  {
    seq(|st|, i requires 0 <= i < |st| => if i < n then st[i] + Kept(shape.kinds[i], entries) else st[i])
  }

  lemma OfferAt(shape: Shape, st: Stack, n: nat, entries: map<Key, Entry>, k: Key)
    requires |st| == |shape.kinds| >= 1 && n <= |st|
    ensures ColumnAt(Offer(shape, st, n, entries), k)
         == if k in entries then Fill(shape, ColumnAt(st, k), n, entries[k]) else ColumnAt(st, k)
  {
  }

  function Found(layer: map<Key, Entry>, need: set<Key>): map<Key, Entry> {
    map k | k in need && k in layer :: layer[k]
  }

  /** Where a multi-get stands: the layers, the keys still needed, the answers so far, and the keys
      counted as hits and as misses. */
  datatype Walk = Walk(st: Stack, need: set<Key>, out: map<Key, Entry>, hits: set<Key>, misses: set<Key>)

  /** One layer's turn: the count at a permanent layer, then the fetch and the back-fill above. */
  function Count(shape: Shape, w: Walk, i: nat): Walk
    requires i < |shape.kinds|
  {
    if shape.kinds[i] == Permanent && w.misses == {} then w.(misses := w.need) else w
  }

  function Visit(shape: Shape, w: Walk, i: nat): (v: Walk)
    requires |w.st| == |shape.kinds| && i < |w.st|
    ensures |v.st| == |w.st| && v.misses == w.misses
  {
    var r := Found(w.st[i], w.need);
    Walk(Offer(shape, w.st, i, r), w.need - r.Keys, r + w.out,
         if shape.kinds[i] != Permanent then w.hits + r.Keys else w.hits, w.misses)
  }

  /** After the walk: negative answers for what was not found, and the late count of misses. */
  function Finish(shape: Shape, w: Walk): (v: Walk)
    requires |w.st| == |shape.kinds| >= 1
    ensures |v.st| == |w.st|
  {
    w.(st := if w.need != {} && shape.negatives
               then Offer(shape, w.st, |w.st| - 1, map k | k in w.need :: NoneResult) else w.st,
       misses := if w.misses == {} then w.need else w.misses)
  }

  /** Layer `h` is the first consulted one that holds `k`, or no consulted layer does. */
  ghost predicate IsFirst(shape: Shape, allowLocal: bool, st: Stack, k: Key, h: nat)
    requires |st| == |shape.kinds|
  {
    && h <= |st|
    && (forall j :: 0 <= j < h && Consulted(shape.kinds[j], allowLocal) ==> k !in st[j])
    && (h < |st| ==> k in st[h] && Consulted(shape.kinds[h], allowLocal))
  }

  /** What a multi-get starts from: the stack, for each wanted key its first hit, and the layer where
      misses are counted. */
  datatype Journey = Journey(shape: Shape, allowLocal: bool, st: Stack, first: map<Key, nat>, line: nat)

  ghost predicate Plan(j: Journey) {
    && |j.st| == |j.shape.kinds| >= 1
    && (forall k :: k in j.first ==> IsFirst(j.shape, j.allowLocal, j.st, k, j.first[k]))
    && j.line <= |j.st|
    && (j.line < |j.st| ==> j.shape.kinds[j.line] == Permanent)
    && (forall n :: 0 <= n < j.line ==> j.shape.kinds[n] != Permanent)
  }

  ghost function NotAbove(first: map<Key, nat>, i: nat): set<Key> {
    set k | k in first && first[k] >= i
  }

  ghost function HitsAbove(shape: Shape, first: map<Key, nat>, i: nat): set<Key>
    requires i <= |shape.kinds|
  {
    set k | k in first && first[k] < i && shape.kinds[first[k]] != Permanent
  }

  /** The keys' side of the walk at layer `i`. */
  ghost predicate Along(st: Stack, first: map<Key, nat>, w: Walk, i: nat)
    requires |st| == |w.st| && i <= |st|
  {
    && (forall j :: i <= j < |st| ==> w.st[j] == st[j])
    && w.need == NotAbove(first, i)
    && w.out.Keys == first.Keys - w.need
    && (forall k :: k in w.out ==> first[k] < |st| && k in st[first[k]] && st[first[k]][k] == w.out[k])
  }

  /** The counts at layer `i`. */
  ghost predicate Counted(shape: Shape, first: map<Key, nat>, w: Walk, i: nat, line: nat)
    requires i <= |shape.kinds|
  {
    && w.hits == HitsAbove(shape, first, i)
    && w.misses == if line < i then NotAbove(first, line) else {}
  }

  lemma FoundHere(j: Journey, i: nat)
    requires Plan(j) && i < |j.st| && Consulted(j.shape.kinds[i], j.allowLocal)
    ensures Found(j.st[i], NotAbove(j.first, i)).Keys == NotAbove(j.first, i) - NotAbove(j.first, i + 1)
  {
  }

  lemma VisitStep(j: Journey, w: Walk, i: nat)
    requires Plan(j) && |w.st| == |j.st| && i < |j.st|
    requires Consulted(j.shape.kinds[i], j.allowLocal)
    requires Along(j.st, j.first, w, i)
    ensures Along(j.st, j.first, Visit(j.shape, Count(j.shape, w, i), i), i + 1)
    ensures Counted(j.shape, j.first, w, i, j.line) ==>
      Counted(j.shape, j.first, Visit(j.shape, Count(j.shape, w, i), i), i + 1, j.line)
  {
    FoundHere(j, i);
    VisitAlong(j.shape, j.st, j.first, Count(j.shape, w, i), i);
    if Counted(j.shape, j.first, w, i, j.line) {
      VisitCounts(j.shape, j.first, w, i, j.line);
    }
  }

  lemma VisitAlong(shape: Shape, st: Stack, first: map<Key, nat>, w: Walk, i: nat)
    requires |st| == |w.st| == |shape.kinds| && i < |st| && Along(st, first, w, i)
    requires Found(st[i], NotAbove(first, i)).Keys == NotAbove(first, i) - NotAbove(first, i + 1)
    ensures Along(st, first, Visit(shape, w, i), i + 1)
  {
    var v := Visit(shape, w, i);
    assert v.need == NotAbove(first, i + 1);
  }

  lemma VisitCounts(shape: Shape, first: map<Key, nat>, w: Walk, i: nat, line: nat)
    requires |w.st| == |shape.kinds| && i < |w.st|
    requires line <= |w.st| && (line < |w.st| ==> shape.kinds[line] == Permanent)
    requires forall j :: 0 <= j < line ==> shape.kinds[j] != Permanent
    requires w.need == NotAbove(first, i) && Counted(shape, first, w, i, line)
    requires Found(w.st[i], w.need).Keys == NotAbove(first, i) - NotAbove(first, i + 1)
    ensures Counted(shape, first, Visit(shape, Count(shape, w, i), i), i + 1, line)
  {
  }

  lemma AllFound(found: set<Key>, all: set<Key>)
    requires found <= all && |found| >= |all|
    ensures found == all
  {
    assert |all - found| == |all| - |found|;
  }

  lemma StopStep(shape: Shape, st: Stack, first: map<Key, nat>, w: Walk, i: nat, line: nat)
    requires |st| == |shape.kinds| == |w.st| && i < |st| && line <= |st|
    requires shape.kinds[i] == Permanent ==> line <= i
    requires Along(st, first, w, i) && |w.out| >= |first|
    ensures Along(st, first, Count(shape, w, i), |st|)
    ensures Counted(shape, first, w, i, line) ==> Counted(shape, first, Count(shape, w, i), |st|, line)
  {
    assert |first| == |first.Keys| && |w.out| == |w.out.Keys|;
    AllFound(w.out.Keys, first.Keys);
    assert NotAbove(first, i) == {};
    assert HitsAbove(shape, first, i) == HitsAbove(shape, first, |st|);
    assert NotAbove(first, |st|) == {};
    if line >= i {
      assert NotAbove(first, line) == {};
    }
  }

  /** One key's side of the walk: back-filled above its first hit once answered, untouched until then. */
  ghost predicate Filled(shape: Shape, st: Stack, first: map<Key, nat>, w: Walk, k: Key)
    requires |st| == |shape.kinds| >= 1
  {
    && (k in w.out ==> k in first && first[k] < |st|)
    && ColumnAt(w.st, k)
       == if k in w.out then Fill(shape, ColumnAt(st, k), first[k], w.out[k]) else ColumnAt(st, k)
  }

  lemma VisitFills(shape: Shape, st: Stack, first: map<Key, nat>, w: Walk, i: nat, k: Key)
    requires |st| == |w.st| == |shape.kinds| && i < |st| && Along(st, first, w, i)
    requires Found(st[i], NotAbove(first, i)).Keys == NotAbove(first, i) - NotAbove(first, i + 1)
    requires Filled(shape, st, first, w, k)
    ensures Filled(shape, st, first, Visit(shape, w, i), k)
  {
  }

  /** Everything known about a walk that has reached layer `i`. */
  ghost predicate Underway(j: Journey, w: Walk, i: nat) {
    && Plan(j)
    && |w.st| == |j.st| && i <= |j.st|
    && Along(j.st, j.first, w, i)
    && Counted(j.shape, j.first, w, i, j.line)
    && forall k :: Filled(j.shape, j.st, j.first, w, k)
  }

  lemma Visited(j: Journey, w: Walk, i: nat)
    requires Underway(j, w, i)
    requires i < |j.st| && Consulted(j.shape.kinds[i], j.allowLocal)
    ensures Underway(j, Visit(j.shape, Count(j.shape, w, i), i), i + 1)
    ensures Found(w.st[i], w.need).Keys <= w.need && w.hits !! w.need
  {
    VisitStep(j, w, i);
    FoundHere(j, i);
    var c := Count(j.shape, w, i);
    forall k ensures Filled(j.shape, j.st, j.first, Visit(j.shape, c, i), k) {
      assert Filled(j.shape, j.st, j.first, w, k);
      VisitFills(j.shape, j.st, j.first, c, i, k);
    }
  }

  lemma Skipped(j: Journey, w: Walk, i: nat)
    requires Underway(j, w, i)
    requires i < |j.st| && !Consulted(j.shape.kinds[i], j.allowLocal)
    ensures Underway(j, w, i + 1)
  {
  }

  /** Once as many keys are answered as were asked for, the rest of the walk would change nothing. */
  lemma Stopped(j: Journey, w: Walk, i: nat)
    requires Underway(j, w, i)
    requires i < |j.st| && |w.out| >= |j.first|
    ensures Underway(j, Count(j.shape, w, i), |j.st|)
  {
    StopStep(j.shape, j.st, j.first, w, i, j.line);
    forall k ensures Filled(j.shape, j.st, j.first, Count(j.shape, w, i), k) {
      assert Filled(j.shape, j.st, j.first, w, k);
    }
  }

  lemma FirstIsFirstHit(shape: Shape, allowLocal: bool, st: Stack, k: Key, h: nat)
    requires |st| == |shape.kinds| >= 1 && IsFirst(shape, allowLocal, st, k, h)
    ensures h == FirstHit(shape, ColumnAt(st, k), allowLocal)
  {
    var col := ColumnAt(st, k);
    assert h < |st| ==> HitAt(shape, col, allowLocal, h);
    assert forall n :: 0 <= n < h ==> !HitAt(shape, col, allowLocal, n);
  }

  lemma FirstHitIsFirst(shape: Shape, allowLocal: bool, st: Stack, k: Key)
    requires |st| == |shape.kinds| >= 1
    ensures IsFirst(shape, allowLocal, st, k, FirstHit(shape, ColumnAt(st, k), allowLocal))
  {
    var col := ColumnAt(st, k);
    var f := FirstHit(shape, col, allowLocal);
    forall j | 0 <= j < f && Consulted(shape.kinds[j], allowLocal) ensures k !in st[j] {
      assert !HitAt(shape, col, allowLocal, j);
    }
  }

  /** The plan of a multi-get for the keys `all`, at its start. */
  lemma Planned(shape: Shape, allowLocal: bool, st: Stack, all: set<Key>) returns (j: Journey)
    requires |st| == |shape.kinds| >= 1
    ensures j.shape == shape && j.allowLocal == allowLocal && j.st == st && j.first.Keys == all
    ensures j.line == MissLineFrom(shape, 0)
    ensures Underway(j, Walk(st, all, map[], {}, {}), 0)
  {
    j := Journey(shape, allowLocal, st, map k | k in all :: FirstHit(shape, ColumnAt(st, k), allowLocal),
                 MissLineFrom(shape, 0));
    forall k | k in all ensures IsFirst(shape, allowLocal, st, k, j.first[k]) {
      FirstHitIsFirst(shape, allowLocal, st, k);
    }
  }

  lemma EndOfWalk(j: Journey, w: Walk, k: Key)
    requires Underway(j, w, |j.st|)
    ensures Filled(j.shape, j.st, j.first, w, k) && |w.st| == |j.st| == |j.shape.kinds| >= 1
    ensures k in w.out <==> k in j.first && j.first[k] < |j.st|
    ensures |ColumnAt(j.st, k)| == |j.st|
    ensures k in w.out ==> ColumnAt(j.st, k)[j.first[k]] == Some(w.out[k])
    ensures k in w.need <==> k in j.first && j.first[k] == |j.st|
    ensures k in j.first ==> j.first[k] == FirstHit(j.shape, ColumnAt(j.st, k), j.allowLocal)
  {
    if k in j.first {
      FirstIsFirstHit(j.shape, j.allowLocal, j.st, k, j.first[k]);
    }
  }

  /** A finished multi-get leaves at one key what a single get leaves there. */
  lemma FinishedColumn(j: Journey, w: Walk, k: Key)
    requires Underway(j, w, |j.st|)
    ensures var col := ColumnAt(j.st, k);
      ColumnAt(Finish(j.shape, w).st, k) == if k in j.first then GetColumn(j.shape, col, j.allowLocal) else col
  {
    EndOfWalk(j, w, k);
    hide Underway, FirstHit, ColumnAt, Offer, Fill;
    OfferAt(j.shape, w.st, |j.st| - 1, map x | x in w.need :: NoneResult, k);
  }

  /** What a finished multi-get has done at one key is what a single get does there. */
  lemma FinishedAt(j: Journey, w: Walk, k: Key)
    requires Underway(j, w, |j.st|)
    requires j.line == MissLineFrom(j.shape, 0)
    ensures var col, v := ColumnAt(j.st, k), Finish(j.shape, w);
      && ColumnAt(v.st, k) == (if k in j.first then GetColumn(j.shape, col, j.allowLocal) else col)
      && (k in j.first && GetAnswer(j.shape, col, j.allowLocal).Some? <==> k in w.out && w.out[k].Val?)
      && (k in w.out && w.out[k].Val? ==> GetAnswer(j.shape, col, j.allowLocal) == Some(w.out[k].v))
      && (k in w.hits <==> k in j.first && GetHits(j.shape, col, j.allowLocal))
      && (k in v.misses <==> k in j.first && MultiMisses(j.shape, col, j.allowLocal))
  {
    FinishedColumn(j, w, k);
    hide GetColumn, Filled, Offer, Fill;
    EndOfWalk(j, w, k);
    FinishCounts(j.shape, j.first, w, j.line);
  }

  lemma FinishCounts(shape: Shape, first: map<Key, nat>, w: Walk, line: nat)
    requires |w.st| == |shape.kinds| >= 1 && line <= |w.st|
    requires Counted(shape, first, w, |w.st|, line) && w.need == NotAbove(first, |w.st|)
    ensures Finish(shape, w).misses == NotAbove(first, line)
  {
  }
}
