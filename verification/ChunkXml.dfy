/** Splitting a batch of documents, by halves and in place, until every piece is small enough to send. */
module ChunkXml {
  import opened Options

  /** The XML text of one document. */
  type Document = string

  function LeftHalf(docs: seq<Document>): (r: seq<Document>)
    ensures |r| == |docs| / 2
  {
    docs[..|docs| / 2]
  }

  function RightHalf(docs: seq<Document>): (r: seq<Document>)
    ensures |r| == |docs| - |docs| / 2 && LeftHalf(docs) + r == docs
  {
    docs[|docs| / 2..]
  }

  function Concatenation(docs: seq<Document>): string {
    if docs == [] then "" else docs[0] + Concatenation(docs[1..])
  }

  /** The text of a batch element. */
  function Render(docs: seq<Document>): string {
    if docs == [] then "<batch/>" else "<batch>" + Concatenation(docs) + "</batch>"
  }

  lemma {:induction false} ConcatenationOfParts(a: seq<Document>, b: seq<Document>)
    ensures Concatenation(a + b) == Concatenation(a) + Concatenation(b)
  {
    if a == [] {
      assert a + b == b;
    } else {
      assert (a + b)[1..] == a[1..] + b;
      ConcatenationOfParts(a[1..], b);
    }
  }

  /** Where the document `i` begins in the text of a batch: behind the opening tag and those before it. */
  function Begin(docs: seq<Document>, i: nat): nat
    requires i <= |docs|
  {
    if i == 0 then |"<batch>"| else Begin(docs, i - 1) + |docs[i - 1]|
  }

  lemma Inside(a: string, b: string, z: string)
    ensures (a + b + z)[|a|..|a| + |b|] == b
  {
  }

  lemma Tags(docs: seq<Document>)
    requires docs != []
    ensures var text := Render(docs);
      |text| >= 15 && text[..7] == "<batch>" && text[|text| - 8..] == "</batch>" && Begin(docs, |docs|) == |text| - 8
  {
    BeginIs(docs, |docs|);
    assert docs[..|docs|] == docs;
  }

  /** The text of a batch is its tags and between them all its documents, each right behind the one before. */
  lemma RenderIs(docs: seq<Document>, i: nat)
    requires i < |docs|
    ensures var text := Render(docs);
      && Begin(docs, i) + |docs[i]| <= |text| && text[Begin(docs, i)..Begin(docs, i) + |docs[i]|] == docs[i]
      && |text| >= 15 && text[..7] == "<batch>" && text[|text| - 8..] == "</batch>"
      && Begin(docs, |docs|) == |text| - 8
  {
    hide Render, Begin, Concatenation;
    Tags(docs);
    BeginIs(docs, i);
    Cut(docs, i);
    RenderParts(docs[..i], docs[i], docs[i + 1..]);
    Inside("<batch>" + Concatenation(docs[..i]), docs[i], Concatenation(docs[i + 1..]) + "</batch>");
  }

  lemma RenderParts(a: seq<Document>, doc: Document, z: seq<Document>)
    ensures Render(a + ([doc] + z)) == ("<batch>" + Concatenation(a)) + doc + (Concatenation(z) + "</batch>")
  {
    TextOf(a, doc, z);
    hide Concatenation;
  }

  lemma Cut(docs: seq<Document>, i: nat)
    requires i < |docs|
    ensures docs == docs[..i] + ([docs[i]] + docs[i + 1..])
  {
  }

  lemma TextOf(a: seq<Document>, doc: Document, z: seq<Document>)
    ensures Concatenation(a + ([doc] + z)) == Concatenation(a) + (doc + Concatenation(z))
  {
    hide Concatenation;
    ConcatenationOfParts(a, [doc] + z);
    ConcatenationOfParts([doc], z);
    OneText(doc);
  }

  lemma OneText(doc: Document)
    ensures Concatenation([doc]) == doc
  {
    assert [doc][1..] == [] && doc + "" == doc;
  }

  lemma {:induction false} BeginIs(docs: seq<Document>, i: nat)
    requires i <= |docs|
    ensures Begin(docs, i) == 7 + |Concatenation(docs[..i])|
  {
    if i > 0 {
      BeginIs(docs, i - 1);
      assert docs[..i] == docs[..i - 1] + [docs[i - 1]];
      ConcatenationOfParts(docs[..i - 1], [docs[i - 1]]);
      OneText(docs[i - 1]);
    }
  }

  /** A single document is no longer than the batch it is in. */
  lemma PartIsShorter(docs: seq<Document>, i: nat)
    requires i < |docs|
    ensures |Render([docs[i]])| <= |Render(docs)|
  {
    assert docs == docs[..i] + [docs[i]] + docs[i + 1..];
    ConcatenationOfParts(docs[..i] + [docs[i]], docs[i + 1..]);
    ConcatenationOfParts(docs[..i], [docs[i]]);
  }

  /** Every document fits into a batch of its own, and so does none at all. */
  ghost predicate AllFit(docs: seq<Document>, limit: nat) {
    (forall i :: 0 <= i < |docs| ==> |Render([docs[i]])| < limit) && (docs == [] ==> |Render([])| < limit)
  }

  lemma OneFits(docs: seq<Document>, limit: nat)
    requires AllFit(docs, limit) && |docs| <= 1
    ensures |Render(docs)| < limit
  {
    if docs != [] {
      assert docs == [docs[0]];
    }
  }

  /** A batch that is too long although every document fits has two halves with fewer documents. */
  lemma HalvesFit(docs: seq<Document>, limit: nat)
    requires AllFit(docs, limit) && |Render(docs)| >= limit
    ensures |docs| >= 2 && AllFit(LeftHalf(docs), limit) && AllFit(RightHalf(docs), limit)
  {
    if |docs| <= 1 {
      OneFits(docs, limit);
    }
    hide Render, LeftHalf, RightHalf;
  }

  /** A batch with a document that does not fit is too long, and has a half with such a document. */
  lemma HalfTooLong(docs: seq<Document>, limit: nat)
    requires !AllFit(docs, limit)
    ensures |Render(docs)| >= limit && (!AllFit(LeftHalf(docs), limit) || !AllFit(RightHalf(docs), limit))
  {
    hide Render;
    if docs != [] {
      var i :| 0 <= i < |docs| && |Render([docs[i]])| >= limit;
      PartIsShorter(docs, i);
      var half := |docs| / 2;
      if i < half {
        assert LeftHalf(docs)[i] == docs[i];
      } else {
        assert RightHalf(docs)[i - half] == docs[i];
      }
    }
  }

  // ------------------------------------------------------------------ splitting

  /** chunk_xml with at most `depth` nested calls: the pieces, or None if it goes deeper than that. */
  function Split(docs: seq<Document>, limit: nat, depth: nat): Option<seq<seq<Document>>> {
    if |Render(docs)| < limit then Some([docs])
    else if depth == 0 then None
    else
      var left := Split(LeftHalf(docs), limit, depth - 1);
      if left.None? then None
      else
        var right := Split(RightHalf(docs), limit, depth - 1);
        if right.None? then None else Some(left.value + right.value)
  }

  function Joined(pieces: seq<seq<Document>>): seq<Document> {
    if pieces == [] then [] else pieces[0] + Joined(pieces[1..])
  }

  lemma {:induction false} JoinedAppend(a: seq<seq<Document>>, b: seq<seq<Document>>)
    ensures Joined(a + b) == Joined(a) + Joined(b)
  {
    if a == [] {
      assert a + b == b;
    } else {
      assert (a + b)[1..] == a[1..] + b;
      JoinedAppend(a[1..], b);
    }
  }

  /** How deep the calls go at most: a batch of n documents is halved as often as it takes to get to one. */
  function Halvings(n: nat): nat {
    if n <= 1 then 0 else 1 + Halvings(n - n / 2)
  }

  lemma {:induction false} HalvingsMonotone(m: nat, n: nat)
    requires m <= n
    ensures Halvings(m) <= Halvings(n)
  {
    if m > 1 {
      HalvingsMonotone(m - m / 2, n - n / 2);
    }
  }

  lemma {:induction false} SplitDeeper(docs: seq<Document>, limit: nat, depth: nat, more: nat)
    requires Split(docs, limit, depth).Some? && depth <= more
    ensures Split(docs, limit, more) == Split(docs, limit, depth)
    decreases depth
  {
    hide Render, LeftHalf, RightHalf;
    if |Render(docs)| >= limit {
      SplitDeeper(LeftHalf(docs), limit, depth - 1, more - 1);
      SplitDeeper(RightHalf(docs), limit, depth - 1, more - 1);
    }
  }

  /** If every document fits, the calls go no deeper than the halvings. */
  lemma {:induction false} SplitEnds(docs: seq<Document>, limit: nat)
    requires AllFit(docs, limit)
    ensures Split(docs, limit, Halvings(|docs|)).Some?
    decreases |docs|
  {
    hide LeftHalf, RightHalf, Render, AllFit;
    if |Render(docs)| >= limit {
      HalvesFit(docs, limit);
      var half := |docs| / 2;
      HalvingsMonotone(half, |docs| - half);
      SplitEnds(LeftHalf(docs), limit);
      SplitEnds(RightHalf(docs), limit);
      SplitDeeper(LeftHalf(docs), limit, Halvings(half), Halvings(|docs|) - 1);
    }
  }

  lemma SplitOnce(docs: seq<Document>, limit: nat, depth: nat)
    requires |Render(docs)| >= limit
    ensures depth == 0 ==> Split(docs, limit, depth).None?
    ensures depth > 0 ==>
      var left := Split(LeftHalf(docs), limit, depth - 1);
      var right := Split(RightHalf(docs), limit, depth - 1);
      Split(docs, limit, depth) == if left.Some? && right.Some? then Some(left.value + right.value) else None
  {
  }

  /** However deep the calls may go: they do not come to an end if one document does not fit. */
  lemma {:induction false} TooLongNeverEnds(docs: seq<Document>, limit: nat, depth: nat)
    requires !AllFit(docs, limit)
    ensures Split(docs, limit, depth).None?
    decreases depth
  {
    hide LeftHalf, RightHalf, Render, AllFit, Split;
    HalfTooLong(docs, limit);
    SplitOnce(docs, limit, depth);
    if depth > 0 {
      var left, right := LeftHalf(docs), RightHalf(docs);
      if AllFit(left, limit) {
        TooLongNeverEnds(right, limit, depth - 1);
      } else {
        TooLongNeverEnds(left, limit, depth - 1);
      }
    }
  }

  /** The splitting ends if and only if every document fits into a batch of its own. */
  lemma SplitEndsIff(docs: seq<Document>, limit: nat)
    ensures (exists depth :: Split(docs, limit, depth).Some?) <==> AllFit(docs, limit)
  {
    if AllFit(docs, limit) {
      SplitEnds(docs, limit);
    } else {
      forall depth ensures Split(docs, limit, depth).None? {
        TooLongNeverEnds(docs, limit, depth);
      }
    }
  }

  /** The pieces are small enough, none is empty but an empty batch itself, and in order they hold exactly the
      documents there were. */
  lemma {:induction false} SplitIsRight(docs: seq<Document>, limit: nat, depth: nat)
    requires Split(docs, limit, depth).Some?
    ensures var pieces := Split(docs, limit, depth).value;
      && Joined(pieces) == docs && pieces != []
      && (forall i :: 0 <= i < |pieces| ==> |Render(pieces[i])| < limit)
      && (forall i :: 0 <= i < |pieces| && pieces[i] == [] ==> docs == [])
    decreases depth
  {
    hide LeftHalf, RightHalf, Render, AllFit;
    if |Render(docs)| < limit {
      assert Joined([docs]) == docs + Joined([]);
    } else {
      if !AllFit(docs, limit) {
        TooLongNeverEnds(docs, limit, depth);
      }
      HalvesFit(docs, limit);
      var half := |docs| / 2;
      SplitIsRight(LeftHalf(docs), limit, depth - 1);
      SplitIsRight(RightHalf(docs), limit, depth - 1);
      JoinedAppend(Split(LeftHalf(docs), limit, depth - 1).value, Split(RightHalf(docs), limit, depth - 1).value);
    }
  }

  // ------------------------------------------------------------------ in place

  /** A batch element, whose children move from one tree to another. */
  class Batch {
    var children: seq<Document>

    constructor ()
      ensures children == []
    {
      children := [];
    }

    /** Adding elements of another tree takes them out of it. */
    method TakeFrom(other: Batch, half: nat)
      requires other != this && half <= |other.children|
      modifies this, other
      ensures children == old(children) + old(other.children)[half..]
      ensures other.children == old(other.children)[..half]
    {
      children := children + other.children[half..];
      other.children := other.children[..half];
    }
  }

  lemma SplitAtOnce(docs: seq<Document>, limit: nat)
    ensures |Render(docs)| < limit ==> Split(docs, limit, Halvings(|docs|)) == Some([docs]) && Joined([docs]) == docs
  {
  }

  lemma SplitHalves(docs: seq<Document>, limit: nat, left: seq<seq<Document>>, right: seq<seq<Document>>)
    requires |docs| >= 2 && |Render(docs)| >= limit
    requires var half := |docs| / 2;
      && Split(LeftHalf(docs), limit, Halvings(half)) == Some(left)
      && Split(RightHalf(docs), limit, Halvings(|docs| - half)) == Some(right)
    ensures Split(docs, limit, Halvings(|docs|)) == Some(left + right)
  {
    hide Split, Render, LeftHalf, RightHalf;
    var half := |docs| / 2;
    SplitOnce(docs, limit, Halvings(|docs|));
    HalvingsMonotone(half, |docs| - half);
    SplitDeeper(LeftHalf(docs), limit, Halvings(half), Halvings(|docs|) - 1);
  }

  lemma Slices(docs: seq<Document>)
    ensures docs[..|docs| / 2] == LeftHalf(docs) && [] + docs[|docs| / 2..] == RightHalf(docs)
  {
  }

  /** chunk_xml, whose limit is 4000000: the texts it yields, of the pieces that Split gives. `xml` is left with
      the first piece. */
  method Chunk(xml: Batch, limit: nat) returns (chunks: seq<string>, ghost pieces: seq<seq<Document>>)
    requires AllFit(xml.children, limit)
    modifies xml
    ensures Split(old(xml.children), limit, Halvings(|old(xml.children)|)) == Some(pieces)
    ensures |chunks| == |pieces| && forall i :: 0 <= i < |chunks| ==> chunks[i] == Render(pieces[i])
    ensures pieces != [] && xml.children == pieces[0]
    ensures Joined(pieces) == old(xml.children) && forall i :: 0 <= i < |chunks| ==> |chunks[i]| < limit
    decreases |xml.children|
  {
    hide AllFit, Render, Split, Halvings, LeftHalf, RightHalf, Joined;
    ghost var docs := xml.children;
    SplitAtOnce(docs, limit);
    var data := Render(xml.children);
    if |data| < limit {
      return [data], [docs];
    }
    HalvesFit(docs, limit);
    var half := |xml.children| / 2;
    var rightHalf := new Batch();
    rightHalf.TakeFrom(xml, half);
    Slices(docs);
    ghost var left, right;
    chunks, left := Chunk(xml, limit);
    var more;
    more, right := Chunk(rightHalf, limit);
    JoinedAppend(left, right);
    chunks, pieces := chunks + more, left + right;
    SplitHalves(docs, limit, left, right);
  }
}
