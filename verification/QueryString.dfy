/** Parsing a query string and percent-decoding a value of it, in the buffer that holds the line. */
module QueryString {
  import opened Options

  type Byte = x: int | 0 <= x < 256
  type Bytes = seq<Byte>

  const NUL: Byte := 0
  const PERCENT: Byte := '%' as int
  const AMPERSAND: Byte := '&' as int
  const EQUALS: Byte := '=' as int

  /** The C string that starts at `p` in `buffer` is `s`. */
  ghost predicate StringAt(buffer: Bytes, p: nat, s: Bytes) {
    && p + |s| < |buffer| && buffer[p..p + |s|] == s && buffer[p + |s|] == NUL && NUL !in s
  }

  // ------------------------------------------------------------------ percent-encoding

  predicate IsHex(b: Byte) {
    '0' as int <= b <= '9' as int || 'A' as int <= b <= 'F' as int || 'a' as int <= b <= 'f' as int
  }

  function HexValue(b: Byte): (v: Byte)
    requires IsHex(b)
    ensures v < 16
  {
    if b <= '9' as int then b - '0' as int
    else if b <= 'F' as int then b - 'A' as int + 10
    else b - 'a' as int + 10
  }

  /** What sscanf's %x may begin to read: a digit, white space to skip, or a sign. */
  predicate MayBeRead(b: Byte) {
    IsHex(b) || 9 <= b <= 13 || b == ' ' as int || b == '+' as int || b == '-' as int
  }

  predicate IsEscape(s: Bytes) {
    |s| >= 3 && s[0] == PERCENT && IsHex(s[1]) && IsHex(s[2])
  }

  /** Every escape has two hex digits, up to the first that sscanf can make nothing of, if there is one. */
  predicate Plain(s: Bytes) {
    if s == [] then true
    else if s[0] != PERCENT then Plain(s[1..])
    else if IsEscape(s) then Plain(s[3..])
    else |s| == 1 || !MayBeRead(s[1])
  }

  /** What was decoded, and whether that was all. */
  datatype Decoded = Decoded(bytes: Bytes, ok: bool)

  /** Percent-decoding, section 2.1 of RFC 3986. */
  function Decode(s: Bytes): Decoded {
    if s == [] then Decoded([], true)
    else if s[0] != PERCENT then
      var rest := Decode(s[1..]);
      Decoded([s[0]] + rest.bytes, rest.ok)
    else if IsEscape(s) then
      var rest := Decode(s[3..]);
      Decoded([16 * HexValue(s[1]) + HexValue(s[2])] + rest.bytes, rest.ok)
    else Decoded([], false)
  }

  function HexDigit(v: Byte, upper: bool): Byte
    requires v < 16
  {
    if v < 10 then '0' as int + v else (if upper then 'A' as int else 'a' as int) + v - 10
  }

  /** Percent-encoding that leaves the bytes in `keep` as they are. */
  function Encode(bytes: Bytes, keep: set<Byte>, upper: bool): Bytes {
    if bytes == [] then []
    else
      (if bytes[0] in keep then [bytes[0]]
       else [PERCENT, HexDigit(bytes[0] / 16, upper), HexDigit(bytes[0] % 16, upper)])
      + Encode(bytes[1..], keep, upper)
  }

  lemma DigitAndBack(v: Byte, upper: bool)
    requires v < 16
    ensures IsHex(HexDigit(v, upper)) && HexValue(HexDigit(v, upper)) == v
  {
  }

  /** Decoding inverts encoding, whatever is encoded, as long as the percent sign is. */
  lemma {:induction false} DecodeEncode(bytes: Bytes, keep: set<Byte>, upper: bool)
    requires PERCENT !in keep
    ensures Plain(Encode(bytes, keep, upper)) && Decode(Encode(bytes, keep, upper)) == Decoded(bytes, true)
  {
    if bytes != [] {
      hide HexDigit, Plain, Decode;
      DecodeEncode(bytes[1..], keep, upper);
      var rest := Encode(bytes[1..], keep, upper);
      if bytes[0] in keep {
        DecodeByte(bytes[0], rest);
      } else {
        DecodeEscape(bytes[0], upper, rest);
      }
      assert [bytes[0]] + bytes[1..] == bytes;
    } else {
      DecodeNothing();
    }
  }

  lemma DecodeNothing()
    ensures Plain([]) && Decode([]) == Decoded([], true)
  {
  }

  lemma DecodeByte(b: Byte, rest: Bytes)
    requires b != PERCENT && Plain(rest)
    ensures Plain([b] + rest)
    ensures Decode([b] + rest) == Decoded([b] + Decode(rest).bytes, Decode(rest).ok)
  {
    assert ([b] + rest)[1..] == rest;
  }

  lemma DecodeEscape(b: Byte, upper: bool, rest: Bytes)
    requires Plain(rest)
    ensures var s := [PERCENT, HexDigit(b / 16, upper), HexDigit(b % 16, upper)] + rest;
      Plain(s) && Decode(s) == Decoded([b] + Decode(rest).bytes, Decode(rest).ok)
  {
    DigitAndBack(b / 16, upper);
    DigitAndBack(b % 16, upper);
    hide IsHex, HexValue, HexDigit;
    var s := [PERCENT, HexDigit(b / 16, upper), HexDigit(b % 16, upper)] + rest;
    assert s[3..] == rest;
  }

  const UPPER := "0123456789ABCDEF"
  const LOWER := "0123456789abcdef"

  /** The escapes, spelled out: a percent sign and the two digits of the byte, in either case. */
  lemma EscapesAre(b: Byte, first: bool, second: bool)
    ensures var x := (if first then UPPER else LOWER)[b / 16] as int;
      var y := (if second then UPPER else LOWER)[b % 16] as int;
      && Plain([37, x, y]) && Decode([37, x, y]) == Decoded([b], true)
      && (first == second ==> Encode([b], {}, first) == [37, x, y])
  {
    var x: Byte, y: Byte := (if first then UPPER else LOWER)[b / 16] as int,
      (if second then UPPER else LOWER)[b % 16] as int;
    HexDigitsAre(b / 16);
    HexDigitsAre(b % 16);
    assert [37, x, y][3..] == [];
    assert [b][1..] == [];
  }

  lemma HexDigitsAre(v: Byte)
    requires v < 16
    ensures IsHex(UPPER[v] as int) && HexValue(UPPER[v] as int) == v && HexDigit(v, true) == UPPER[v] as int
    ensures IsHex(LOWER[v] as int) && HexValue(LOWER[v] as int) == v && HexDigit(v, false) == LOWER[v] as int
  {
  }

  /** What has no percent sign is as it is; and decoding stops, without success, at a percent sign that no hex
      digit follows. */
  lemma {:induction false} NoEscapes(s: Bytes, rest: Bytes)
    requires PERCENT !in s
    ensures Decode(s) == Decoded(s, true)
    ensures rest == [] || !IsHex(rest[0]) ==> Decode(s + [PERCENT] + rest) == Decoded(s, false)
  {
    if s == [] {
      assert s + [PERCENT] + rest == [PERCENT] + rest;
    } else {
      NoEscapes(s[1..], rest);
      assert (s + [PERCENT] + rest)[1..] == s[1..] + [PERCENT] + rest;
    }
  }

  /** What an encoded value is made of. */
  lemma {:induction false} EncodedBytes(bytes: Bytes, keep: set<Byte>, upper: bool)
    ensures forall b :: b in Encode(bytes, keep, upper) ==> b in keep || b == PERCENT || IsHex(b)
  {
    if bytes != [] {
      EncodedBytes(bytes[1..], keep, upper);
    }
  }

  /** One step of decoding at the place `i` of `s`. */
  lemma {:induction false} DecodeFrom(s: Bytes, i: nat)
    requires i < |s| && Plain(s[i..])
    ensures s[i] != PERCENT ==>
      && Plain(s[i + 1..])
      && Decode(s[i..]) == Decoded([s[i]] + Decode(s[i + 1..]).bytes, Decode(s[i + 1..]).ok)
    ensures s[i] == PERCENT && i + 1 < |s| && IsHex(s[i + 1]) ==>
      && i + 2 < |s| && IsHex(s[i + 2]) && Plain(s[i + 3..])
      && Decode(s[i..]) ==
         Decoded([16 * HexValue(s[i + 1]) + HexValue(s[i + 2])] + Decode(s[i + 3..]).bytes, Decode(s[i + 3..]).ok)
    ensures s[i] == PERCENT && !(i + 1 < |s| && IsHex(s[i + 1])) ==> Decode(s[i..]) == Decoded([], false)
  {
  }

  lemma Overwrite(before: Bytes, done: Bytes, after: Bytes, b: Byte)
    requires after != []
    ensures (before + done + after)[|before| + |done| := b] == before + (done + [b]) + after[1..]
  {
  }

  /** sscanf of %2hhx at `c` into `o`, where it finds two hex digits or nothing it could begin with. */
  method ReadHex(buffer: array<Byte>, c: nat, o: nat) returns (count: int)
    requires c < buffer.Length && o < c && (IsHex(buffer[c]) ==> c + 1 < buffer.Length && IsHex(buffer[c + 1]))
    requires IsHex(buffer[c]) || !MayBeRead(buffer[c])
    modifies buffer
    ensures count == 1 <==> old(IsHex(buffer[c]))
    ensures buffer[..] ==
      if count == 1 then old(buffer[..])[o := 16 * HexValue(old(buffer[c])) + HexValue(old(buffer[c + 1]))]
      else old(buffer[..])
  {
    count := 0;
    if IsHex(buffer[c]) {
      buffer[o] := 16 * HexValue(buffer[c]) + HexValue(buffer[c + 1]);
      count := 1;
    }
  }

  /** What holds between the steps of url_decode: `done` is decoded, the string from `i` on is not. */
  ghost predicate Halfway(first: Bytes, buffer: Bytes, start: nat, s: Bytes, i: nat, done: Bytes) {
    && start + |s| < |first| && |done| <= i <= |s| && Plain(s[i..])
    && Decode(s) == Decoded(done + Decode(s[i..]).bytes, Decode(s[i..]).ok)
    && buffer == first[..start] + done + first[start + |done|..]
  }

  lemma HalfwayStarts(first: Bytes, start: nat, s: Bytes)
    requires StringAt(first, start, s) && Plain(s)
    ensures Halfway(first, first, start, s, 0, [])
  {
  }

  lemma HalfwayAt(first: Bytes, buffer: Bytes, start: nat, s: Bytes, i: nat, done: Bytes)
    requires Halfway(first, buffer, start, s, i, done) && StringAt(first, start, s)
    ensures |done| <= i <= |s| && start + |s| < |buffer| == |first| && (buffer[start + i] == NUL <==> i == |s|)
  {
  }

  /** What sscanf finds behind a percent sign. */
  lemma HalfwayEscape(first: Bytes, buffer: Bytes, start: nat, s: Bytes, i: nat, done: Bytes)
    requires Halfway(first, buffer, start, s, i, done) && StringAt(first, start, s) && i < |s| && s[i] == PERCENT
    ensures start + i + 1 < |buffer|
    ensures var b := buffer[start + i + 1];
      if IsHex(b) then
        && i + 2 < |s| && start + i + 2 < |buffer| && IsHex(buffer[start + i + 2])
        && b == s[i + 1] && buffer[start + i + 2] == s[i + 2]
      else
        !MayBeRead(b) && !(i + 1 < |s| && IsHex(s[i + 1]))
  {
  }

  lemma HalfwayOn(first: Bytes, start: nat, s: Bytes, i: nat, done: Bytes, buffer: Bytes, width: nat, b: Byte)
    requires Halfway(first, buffer, start, s, i, done) && i < |s|
    requires if s[i] != PERCENT then width == 1 && b == s[i]
      else i + 2 < |s| && IsHex(s[i + 1]) && IsHex(s[i + 2]) && width == 3
           && b == 16 * HexValue(s[i + 1]) + HexValue(s[i + 2])
    ensures start + |done| < |buffer|
    ensures Halfway(first, buffer[start + |done| := b], start, s, i + width, done + [b])
  {
    DecodeFrom(s, i);
    hide Decode, Plain, IsHex, HexValue;
    Overwrite(first[..start], done, first[start + |done|..], b);
    assert done + ([b] + Decode(s[i + width..]).bytes) == done + [b] + Decode(s[i + width..]).bytes;
  }

  lemma HalfwayBytes(first: Bytes, buffer: Bytes, start: nat, s: Bytes, i: nat, done: Bytes)
    requires Halfway(first, buffer, start, s, i, done) && StringAt(first, start, s)
    ensures |buffer| == |first| && buffer[start + |s|] == NUL
    ensures forall p :: start + i <= p < start + |s| ==> buffer[p] == s[p - start]
  {
  }

  /** The string `s` at `start` was decoded where it stood: nothing but what is decoded, and the NUL after it,
      was overwritten. */
  ghost predicate DecodedInPlace(first: Bytes, buffer: Bytes, start: nat, s: Bytes, size: int)
  {
    var d := Decode(s);
    && |d.bytes| <= |s| && start + |s| < |first|
    && (d.ok ==>
        size == |d.bytes| && buffer == first[..start] + d.bytes + [NUL] + first[start + |d.bytes| + 1..])
    && (!d.ok ==> size == -1 && buffer == first[..start] + d.bytes + first[start + |d.bytes|..])
  }

  lemma HalfwayEnds(first: Bytes, buffer: Bytes, start: nat, s: Bytes, done: Bytes)
    requires Halfway(first, buffer, start, s, |s|, done) && StringAt(first, start, s)
    ensures start + |done| < |buffer|
    ensures DecodedInPlace(first, buffer[start + |done| := NUL], start, s, |done|)
    ensures done == [] ==> DecodedInPlace(first, buffer, start, s, 0)
  {
  }

  lemma HalfwayFails(first: Bytes, buffer: Bytes, start: nat, s: Bytes, i: nat, done: Bytes)
    requires Halfway(first, buffer, start, s, i, done) && StringAt(first, start, s)
    requires i < |s| && s[i] == PERCENT && !(i + 1 < |s| && IsHex(s[i + 1]))
    ensures DecodedInPlace(first, buffer, start, s, -1)
  {
  }

  /** Decode what stands at `c` to `o`; `next` is where to go on, or None if sscanf read nothing. */
  method DecodeOne(buffer: array<Byte>, c: nat, o: nat, ghost first: Bytes, ghost start: nat, ghost s: Bytes,
                   ghost done: Bytes)
      returns (next: Option<nat>, ghost b: Byte)
    requires start <= c < start + |s| && o == start + |done| && StringAt(first, start, s)
    requires Halfway(first, buffer[..], start, s, c - start, done)
    modifies buffer
    ensures next.None? ==> DecodedInPlace(first, buffer[..], start, s, -1)
    ensures next.Some? ==> next.value > c && Halfway(first, buffer[..], start, s, next.value - start, done + [b])
  {
    hide Halfway, Decode, Plain, DecodedInPlace, MayBeRead, HexValue;
    ghost var was, i := buffer[..], c - start;
    HalfwayAt(first, was, start, s, i, done);
    HalfwayBytes(first, was, start, s, i, done);
    if buffer[c] == PERCENT {
      HalfwayEscape(first, was, start, s, i, done);
      var count := ReadHex(buffer, c + 1, o);
      if count != 1 {
        HalfwayFails(first, was, start, s, i, done);
        return None, 0;
      }
      b := buffer[o];
      assert buffer[..] == was[o := b];
      HalfwayOn(first, start, s, i, done, was, 3, b);
      return Some(c + 3), b;
    }
    buffer[o] := buffer[c];
    b := s[i];
    assert buffer[..] == was[o := b];
    HalfwayOn(first, start, s, i, done, was, 1, b);
    return Some(c + 1), b;
  }

  /** url_decode. */
  method UrlDecode(buffer: array<Byte>, start: nat, ghost s: Bytes) returns (size: int)
    requires StringAt(buffer[..], start, s) && Plain(s)
    modifies buffer
    ensures DecodedInPlace(old(buffer[..]), buffer[..], start, s, size)
  {
    hide Halfway, Decode, Plain, DecodedInPlace, StringAt;
    var c, o := start, start;
    size := 0;
    ghost var done, first := [], buffer[..];
    HalfwayStarts(first, start, s);
    HalfwayAt(first, first, start, s, 0, []);
    while buffer[c] != NUL
      invariant start + |done| == o <= c <= start + |s| < buffer.Length && size == |done|
      invariant Halfway(first, buffer[..], start, s, c - start, done)
      invariant buffer[c] == NUL <==> c == start + |s|
      decreases start + |s| - c
    {
      var next;
      ghost var b;
      next, b := DecodeOne(buffer, c, o, first, start, s, done);
      if next.None? {
        return -1;
      }
      done, c, o, size := done + [b], next.value, o + 1, size + 1;
      HalfwayAt(first, buffer[..], start, s, c - start, done);
    }
    ghost var was := buffer[..];
    HalfwayEnds(first, was, start, s, done);
    if size > 0 {
      buffer[o] := NUL;
      assert buffer[..] == was[o := NUL];
    }
  }

  // ------------------------------------------------------------------ query parameters

  /** A parameter of a query; one without an equals sign has no value. */
  datatype Param = Param(key: Bytes, value: Option<Bytes>)

  /** Where `b` comes first in `s`, or the length of `s` if it does not come. */
  function Until(s: Bytes, b: Byte): (n: nat)
    ensures n <= |s| && b !in s[..n] && (n < |s| ==> s[n] == b)
  {
    if s == [] || s[0] == b then 0
    else
      var n := Until(s[1..], b);
      assert s[..n + 1] == [s[0]] + s[1..][..n];
      n + 1
  }

  lemma UntilIs(s: Bytes, b: Byte, n: nat)
    requires n <= |s| && b !in s[..n] && (n < |s| ==> s[n] == b)
    ensures Until(s, b) == n
  {
  }

  function Piece(s: Bytes): Bytes {
    s[..Until(s, AMPERSAND)]
  }

  /** What follows the first piece of a query. */
  function After(s: Bytes): Option<Bytes> {
    var n := Until(s, AMPERSAND);
    if n < |s| then Some(s[n + 1..]) else None
  }

  function ParamOf(piece: Bytes): Param {
    var e := Until(piece, EQUALS);
    if e < |piece| then Param(piece[..e], Some(piece[e + 1..])) else Param(piece, None)
  }

  /** The parameters that a loop over parse_query_param gets before it is told -1. */
  function Params(s: Option<Bytes>): seq<Param>
    decreases if s.Some? then |s.value| + 1 else 0
  {
    if s.None? then []
    else
      var p := ParamOf(Piece(s.value));
      if p.value.None? then [] else [p] + Params(After(s.value))
  }

  /** A buffer after parse_query_param has been through the query `s` at `q`. */
  function Parsed(buffer: Bytes, q: nat, s: Bytes): Bytes
    requires q + |s| < |buffer|
  {
    buffer[q + Until(Piece(s), EQUALS) := NUL][q + |Piece(s)| := NUL]
  }

  lemma Characters(buffer: Bytes, q: nat, s: Bytes)
    requires StringAt(buffer, q, s)
    ensures forall p :: q <= p < q + |s| ==> buffer[p] == s[p - q] != NUL
  {
  }

  lemma Substring(buffer: Bytes, q: nat, s: Bytes, from: nat, end: nat, p: Bytes)
    requires StringAt(buffer, q, s) && from <= end <= |s| && |p| == |buffer|
    requires forall i :: q + from <= i < q + end ==> p[i] == buffer[i]
    requires p[q + end] == NUL
    ensures StringAt(p, q + from, s[from..end])
  {
    Characters(buffer, q, s);
    assert p[q + from..q + end] == s[from..end];
  }

  lemma ParsedBytes(buffer: Bytes, q: nat, s: Bytes)
    requires StringAt(buffer, q, s)
    ensures var p, n := Parsed(buffer, q, s), |Piece(s)|; var e := Until(Piece(s), EQUALS);
      && |p| == |buffer| && p[q + e] == NUL && p[q + n] == NUL && p[q + |s|] == NUL
      && forall i :: 0 <= i < |buffer| && i != q + e && i != q + n ==> p[i] == buffer[i]
  {
  }

  lemma KeyString(buffer: Bytes, q: nat, s: Bytes)
    requires StringAt(buffer, q, s)
    ensures StringAt(Parsed(buffer, q, s), q, ParamOf(Piece(s)).key)
  {
    ParsedBytes(buffer, q, s);
    hide Parsed, StringAt;
    var e := Until(Piece(s), EQUALS);
    Substring(buffer, q, s, 0, e, Parsed(buffer, q, s));
    assert s[0..e] == Piece(s)[..e];
  }

  lemma ValueString(buffer: Bytes, q: nat, s: Bytes)
    requires StringAt(buffer, q, s) && ParamOf(Piece(s)).value.Some?
    ensures StringAt(Parsed(buffer, q, s), q + Until(Piece(s), EQUALS) + 1, ParamOf(Piece(s)).value.value)
  {
    ParsedBytes(buffer, q, s);
    hide Parsed, StringAt;
    var e, n := Until(Piece(s), EQUALS), |Piece(s)|;
    Substring(buffer, q, s, e + 1, n, Parsed(buffer, q, s));
    assert s[e + 1..n] == Piece(s)[e + 1..];
  }

  lemma RestString(buffer: Bytes, q: nat, s: Bytes)
    requires StringAt(buffer, q, s) && After(s).Some?
    ensures StringAt(Parsed(buffer, q, s), q + |Piece(s)| + 1, After(s).value)
  {
    ParsedBytes(buffer, q, s);
    hide Parsed, StringAt;
    Substring(buffer, q, s, |Piece(s)| + 1, |s|, Parsed(buffer, q, s));
    assert s[|Piece(s)| + 1..|s|] == After(s).value;
  }

  /** What parse_query_param leaves in the buffer: the key and the value as strings of their own, and the rest
      of the query untouched. */
  lemma ParsedStrings(buffer: Bytes, q: nat, s: Bytes)
    requires StringAt(buffer, q, s)
    ensures var p, param, piece := Parsed(buffer, q, s), ParamOf(Piece(s)), Piece(s);
      && StringAt(p, q, param.key)
      && (param.value.Some? ==> StringAt(p, q + |param.key| + 1, param.value.value))
      && (After(s).Some? ==> StringAt(p, q + |piece| + 1, After(s).value))
  {
    hide Parsed, StringAt;
    KeyString(buffer, q, s);
    if ParamOf(Piece(s)).value.Some? {
      ValueString(buffer, q, s);
    }
    if After(s).Some? {
      RestString(buffer, q, s);
    }
  }

  /** What holds when parse_query_param has looked at the first `n` characters of the query `s` at `q`. */
  ghost predicate Scanned(first: Bytes, buffer: Bytes, q: nat, s: Bytes, n: nat, value: Option<nat>, length: int) {
    && StringAt(first, q, s) && n <= |s| && AMPERSAND !in s[..n]
    && var e := Until(s[..n], EQUALS);
      && value == (if e < n then Some(q + e + 1) else None)
      && length == n - e - 1
      && buffer == if e < n then first[q + e := NUL] else first
  }

  lemma ScannedNone(first: Bytes, q: nat, s: Bytes)
    requires StringAt(first, q, s)
    ensures Scanned(first, first, q, s, 0, None, -1)
  {
  }

  lemma ScannedOn(first: Bytes, buffer: Bytes, q: nat, s: Bytes, n: nat, value: Option<nat>, length: int)
    requires Scanned(first, buffer, q, s, n, value, length)
    ensures q + n < |buffer| && buffer[q + n] == if n < |s| then s[n] else NUL
    ensures n < |s| && s[n] != AMPERSAND ==>
      if value.None? && s[n] == EQUALS then
        Scanned(first, buffer[q + n := NUL], q, s, n + 1, Some(q + n + 1), length + 1)
      else
        Scanned(first, buffer, q, s, n + 1, value, if value.Some? then length + 1 else length)
  {
  }

  /** Where a parameter is in the buffer, and how long its value is, or -1. */
  datatype Place = Place(key: nat, value: nat, length: int)

  function PlaceOf(q: nat, s: Bytes): Place {
    var e, n := Until(Piece(s), EQUALS), |Piece(s)|;
    Place(q, q + e + 1, n - e - 1)
  }

  function RestAt(q: nat, s: Bytes): Option<nat> {
    if |Piece(s)| < |s| then Some(q + |Piece(s)| + 1) else None
  }

  lemma ScannedAll(first: Bytes, buffer: Bytes, q: nat, s: Bytes, n: nat, value: Option<nat>, length: int)
    requires Scanned(first, buffer, q, s, n, value, length) && (n < |s| ==> s[n] == AMPERSAND)
    ensures q + n < |buffer| && buffer[q + n := NUL] == Parsed(first, q, s)
    ensures var place := PlaceOf(q, s);
      && place.key == q && length == place.length && (length < 0 <==> ParamOf(Piece(s)).value.None?)
      && value == (if length >= 0 then Some(place.value) else None)
    ensures RestAt(q, s) == if n < |s| then Some(q + n + 1) else None
  {
  }

  /** parse_query_param on the query `s`: where its key and its value are, how long the value is, or -1, and
      where the rest of the query is. For NULL the key and the value are not set. */
  method ParseQueryParam(buffer: array<Byte>, query: Option<nat>, ghost s: Bytes)
      returns (length: int, rest: Option<nat>, key: nat, value: Option<nat>)
    requires query.Some? ==> StringAt(buffer[..], query.value, s)
    modifies buffer
    ensures query.None? ==> length == -1 && rest.None? && buffer[..] == old(buffer[..])
    ensures query.Some? ==>
      var place := PlaceOf(query.value, s);
      && buffer[..] == Parsed(old(buffer[..]), query.value, s) && rest == RestAt(query.value, s)
      && key == place.key && length == place.length && (length < 0 <==> ParamOf(Piece(s)).value.None?)
      && value == if length >= 0 then Some(place.value) else None
  {
    hide Scanned, Parsed, PlaceOf, RestAt, ParamOf;
    if query.None? {
      return -1, None, 0, None;
    }
    key, value, length := query.value, None, -1;
    var stringEnded := false;
    var c := query.value;
    ghost var q, n, first := query.value, 0, buffer[..];
    ScannedNone(first, q, s);
    ScannedOn(first, buffer[..], q, s, 0, None, -1);
    while buffer[c] != AMPERSAND
      invariant n <= |s| && c == q + n < buffer.Length && (buffer[c] == if n < |s| then s[n] else NUL)
      invariant Scanned(first, buffer[..], q, s, n, value, length)
      decreases |s| - n
    {
      ghost var was := buffer[..];
      ScannedOn(first, was, q, s, n, value, length);
      if buffer[c] == NUL {
        stringEnded := true;
        break;
      } else if value.None? && buffer[c] == EQUALS {
        buffer[c] := NUL;
        assert buffer[..] == was[c := NUL];
        value := Some(c + 1);
      }
      if value.Some? {
        length := length + 1;
      }
      c, n := c + 1, n + 1;
      ScannedOn(first, buffer[..], q, s, n, value, length);
    }
    ghost var was := buffer[..];
    ScannedAll(first, was, q, s, n, value, length);
    buffer[c] := NUL;
    assert buffer[..] == was[c := NUL];
    rest := if stringEnded then None else Some(c + 1);
  }

  // ------------------------------------------------------------------ the loop over a query

  /** `params` stand in the buffer before `end`, as strings of their own. */
  ghost predicate InBuffer(buffer: Bytes, places: seq<Place>, params: seq<Param>, end: nat) {
    && |places| == |params|
    && forall i :: 0 <= i < |params| ==> IsPlaced(buffer, places[i], params[i], end)
  }

  ghost predicate IsPlaced(buffer: Bytes, place: Place, param: Param, end: nat) {
    && param.value.Some? && place.length == |param.value.value|
    && StringAt(buffer, place.key, param.key) && place.key + |param.key| < end
    && StringAt(buffer, place.value, param.value.value) && place.value + |param.value.value| < end
  }

  lemma PlacesStay(buffer: Bytes, p: Bytes, places: seq<Place>, params: seq<Param>, end: nat, later: nat)
    requires InBuffer(buffer, places, params, end) && end <= later <= |buffer| == |p| && p[..end] == buffer[..end]
    ensures InBuffer(p, places, params, later)
  {
    forall i | 0 <= i < |params| ensures IsPlaced(p, places[i], params[i], later) {
      assert IsPlaced(buffer, places[i], params[i], end);
      StringStays(buffer, p, places[i].key, params[i].key, end);
      StringStays(buffer, p, places[i].value, params[i].value.value, end);
    }
  }

  lemma StringStays(buffer: Bytes, p: Bytes, q: nat, s: Bytes, end: nat)
    requires StringAt(buffer, q, s) && q + |s| < end <= |buffer| == |p| && p[..end] == buffer[..end]
    ensures StringAt(p, q, s)
  {
    forall i | 0 <= i < end ensures p[i] == buffer[i] {
      assert p[..end][i] == buffer[..end][i];
    }
  }

  /** One more parameter is placed by parse_query_param. */
  lemma PlacesGrow(buffer: Bytes, q: nat, s: Bytes, places: seq<Place>, params: seq<Param>, place: Place, end: nat)
    requires StringAt(buffer, q, s) && InBuffer(buffer, places, params, q) && ParamOf(Piece(s)).value.Some?
    requires place == Place(q, q + Until(Piece(s), EQUALS) + 1, |Piece(s)| - Until(Piece(s), EQUALS) - 1)
    requires q + |Piece(s)| < end <= |buffer|
    ensures InBuffer(Parsed(buffer, q, s), places + [place], params + [ParamOf(Piece(s))], end)
  {
    var p := Parsed(buffer, q, s);
    assert p[..q] == buffer[..q];
    PlacesStay(buffer, p, places, params, q, end);
    ParsedStrings(buffer, q, s);
    assert IsPlaced(p, place, ParamOf(Piece(s)), end);
  }

  /** The parameters up to the first whose key is wanted. */
  function UpTo(params: seq<Param>, wanted: Bytes): seq<Param> {
    if params == [] then []
    else [params[0]] + if params[0].key == wanted then [] else UpTo(params[1..], wanted)
  }

  predicate Has(params: seq<Param>, wanted: Bytes) {
    params != [] && params[|params| - 1].key == wanted
  }

  /** strcmp of the string `s` at `p`. */
  method StringEquals(buffer: array<Byte>, p: nat, wanted: Bytes, ghost s: Bytes) returns (same: bool)
    requires StringAt(buffer[..], p, s) && NUL !in wanted
    ensures same <==> s == wanted
  {
    Characters(buffer[..], p, s);
    var i := 0;
    while i < |wanted| && buffer[p + i] == wanted[i]
      invariant i <= |wanted| && i <= |s| && s[..i] == wanted[..i]
    {
      assert i < |s|;
      i := i + 1;
    }
    assert i < |wanted| && i < |s| ==> s[i] != wanted[i];
    return i == |wanted| && buffer[p + i] == NUL;
  }

  /** What is `left` of the query stands at `rest`, and the `params` already seen stand before it. */
  ghost predicate Standing(buffer: Bytes, rest: Option<nat>, left: Option<Bytes>, places: seq<Place>,
                           params: seq<Param>) {
    && (left.Some? <==> rest.Some?)
    && (left.Some? ==> StringAt(buffer, rest.value, left.value))
    && InBuffer(buffer, places, params, if rest.Some? then rest.value else |buffer|)
  }

  /** The loop over the query `s` has seen `params`, and `left` is left of the query. */
  ghost predicate Seen(left: Option<Bytes>, params: seq<Param>, s: Bytes, wanted: Bytes) {
    UpTo(Params(Some(s)), wanted) == params + UpTo(Params(left), wanted) && !Has(params, wanted)
  }

  ghost predicate Looping(buffer: Bytes, rest: Option<nat>, left: Option<Bytes>, places: seq<Place>,
                          params: seq<Param>, s: Bytes, wanted: Bytes) {
    Standing(buffer, rest, left, places, params) && Seen(left, params, s, wanted)
  }

  /** How the loop over the query `s` ends: `blob` is the value of the first parameter with the wanted key, and
      every parameter up to it stands in the buffer as a string of its own, with its length. */
  ghost predicate Searched(buffer: Bytes, s: Bytes, wanted: Bytes, blob: Option<nat>, places: seq<Place>) {
    var params := UpTo(Params(Some(s)), wanted);
    && InBuffer(buffer, places, params, |buffer|)
    && blob == if Has(params, wanted) then Some(places[|places| - 1].value) else None
  }

  lemma UpToFirst(s: Bytes, wanted: Bytes, before: seq<Param>)
    requires ParamOf(Piece(s)).value.Some?
    ensures var param := ParamOf(Piece(s));
      before + UpTo(Params(Some(s)), wanted) ==
        if param.key == wanted then before + [param] else before + [param] + UpTo(Params(After(s)), wanted)
  {
  }

  lemma LoopFinds(buffer: Bytes, q: nat, left: Bytes, places: seq<Place>, params: seq<Param>, s: Bytes, wanted: Bytes)
    requires Looping(buffer, Some(q), Some(left), places, params, s, wanted)
    requires ParamOf(Piece(left)).value.Some? && ParamOf(Piece(left)).key == wanted && q + |left| < |buffer|
    ensures Searched(Parsed(buffer, q, left), s, wanted, Some(PlaceOf(q, left).value), places + [PlaceOf(q, left)])
  {
    ParsedBytes(buffer, q, left);
    var place, param := PlaceOf(q, left), ParamOf(Piece(left));
    assert place == Place(q, q + Until(Piece(left), EQUALS) + 1, |Piece(left)| - Until(Piece(left), EQUALS) - 1);
    hide Parsed, StringAt, InBuffer, Params, UpTo, PlaceOf, ParamOf;
    PlacesGrow(buffer, q, left, places, params, place, |buffer|);
    UpToFirst(left, wanted, params);
    assert (params + [param])[|params|] == param && (places + [place])[|params|] == place;
  }

  lemma SeenMore(left: Bytes, params: seq<Param>, s: Bytes, wanted: Bytes)
    requires Seen(Some(left), params, s, wanted)
    requires ParamOf(Piece(left)).value.Some? && ParamOf(Piece(left)).key != wanted
    ensures Seen(After(left), params + [ParamOf(Piece(left))], s, wanted)
  {
    hide Params, UpTo, Piece, ParamOf, After;
    UpToFirst(left, wanted, params);
  }

  lemma StandingMore(buffer: Bytes, q: nat, left: Bytes, places: seq<Place>, params: seq<Param>)
    requires Standing(buffer, Some(q), Some(left), places, params) && q + |left| < |buffer|
    requires ParamOf(Piece(left)).value.Some?
    ensures Standing(Parsed(buffer, q, left), RestAt(q, left), After(left), places + [PlaceOf(q, left)],
                     params + [ParamOf(Piece(left))])
  {
    ParsedBytes(buffer, q, left);
    hide Parsed, StringAt, InBuffer, ParamOf;
    var rest := RestAt(q, left);
    PlacesGrow(buffer, q, left, places, params, PlaceOf(q, left), if rest.Some? then rest.value else |buffer|);
    if rest.Some? {
      RestString(buffer, q, left);
    }
  }

  lemma LoopGoesOn(buffer: Bytes, q: nat, left: Bytes, places: seq<Place>, params: seq<Param>, s: Bytes,
                   wanted: Bytes)
    requires Looping(buffer, Some(q), Some(left), places, params, s, wanted) && q + |left| < |buffer|
    requires ParamOf(Piece(left)).value.Some? && ParamOf(Piece(left)).key != wanted
    ensures Looping(Parsed(buffer, q, left), RestAt(q, left), After(left), places + [PlaceOf(q, left)],
                    params + [ParamOf(Piece(left))], s, wanted)
  {
    hide Standing, Seen;
    StandingMore(buffer, q, left, places, params);
    SeenMore(left, params, s, wanted);
  }

  /** One turn of the loop. */
  method Turn(buffer: array<Byte>, rest: Option<nat>, wanted: Bytes, ghost left: Option<Bytes>,
              ghost places: seq<Place>, ghost params: seq<Param>, ghost s: Bytes)
      returns (over: bool, blob: Option<nat>, later: Option<nat>)
    requires Looping(buffer[..], rest, left, places, params, s, wanted) && NUL !in wanted
    modifies buffer
    ensures over && blob.None? ==> Searched(buffer[..], s, wanted, None, places)
    ensures (over ==> blob.None?) || rest.Some?
    ensures rest.Some? ==> left.Some?
    ensures over && blob.Some? ==>
      Searched(buffer[..], s, wanted, blob, places + [PlaceOf(rest.value, left.value)])
    ensures !over ==>
      && rest.Some?
      && Looping(buffer[..], later, After(left.value), places + [PlaceOf(rest.value, left.value)],
                 params + [ParamOf(Piece(left.value))], s, wanted)
  {
    hide Looping, Searched, Parsed, StringAt, ParamOf, After, PlaceOf, RestAt;
    ghost var was := buffer[..];
    LoopAt(was, rest, left, places, params, s, wanted);
    var length, key, value;
    length, later, key, value := ParseQueryParam(buffer, rest, if left.Some? then left.value else []);
    if length < 0 {
      LoopEnds(was, rest, left, places, params, s, wanted);
      return true, None, later;
    }
    KeyPlace(was, rest.value, left.value);
    var same := StringEquals(buffer, key, wanted, ParamOf(Piece(left.value)).key);
    if same {
      LoopFinds(was, rest.value, left.value, places, params, s, wanted);
      return true, value, later;
    }
    LoopGoesOn(was, rest.value, left.value, places, params, s, wanted);
    return false, None, later;
  }

  lemma KeyPlace(buffer: Bytes, q: nat, s: Bytes)
    requires StringAt(buffer, q, s)
    ensures PlaceOf(q, s).key == q && q + |s| < |buffer|
    ensures StringAt(Parsed(buffer, q, s), q, ParamOf(Piece(s)).key)
  {
    KeyString(buffer, q, s);
  }

  /** The loop of the driver. */
  method FindValue(buffer: array<Byte>, query: nat, wanted: Bytes, ghost s: Bytes)
      returns (blob: Option<nat>, ghost places: seq<Place>)
    requires StringAt(buffer[..], query, s) && NUL !in wanted
    modifies buffer
    ensures Searched(buffer[..], s, wanted, blob, places)
  {
    hide Looping, Searched, StringAt, ParamOf, PlaceOf;
    var rest, over := Some(query), false;
    places := [];
    ghost var left, params: seq<Param> := Some(s), [];
    LoopStarts(buffer[..], query, s, wanted);
    while true
      invariant Looping(buffer[..], rest, left, places, params, s, wanted)
      decreases if left.Some? then |left.value| + 1 else 0
    {
      ghost var q := rest;
      over, blob, rest := Turn(buffer, rest, wanted, left, places, params, s);
      if over {
        return blob, if blob.Some? then places + [PlaceOf(q.value, left.value)] else places;
      }
      places, params := places + [PlaceOf(q.value, left.value)], params + [ParamOf(Piece(left.value))];
      left := After(left.value);
    }
  }

  lemma LoopStarts(buffer: Bytes, q: nat, s: Bytes, wanted: Bytes)
    requires StringAt(buffer, q, s)
    ensures Looping(buffer, Some(q), Some(s), [], [], s, wanted)
  {
  }

  lemma LoopAt(buffer: Bytes, rest: Option<nat>, left: Option<Bytes>, places: seq<Place>, params: seq<Param>,
               s: Bytes, wanted: Bytes)
    requires Looping(buffer, rest, left, places, params, s, wanted)
    ensures (left.Some? <==> rest.Some?)
    ensures left.Some? ==> StringAt(buffer, rest.value, left.value) && rest.value + |left.value| < |buffer|
  {
  }

  lemma LoopEnds(buffer: Bytes, rest: Option<nat>, left: Option<Bytes>, places: seq<Place>, params: seq<Param>,
                 s: Bytes, wanted: Bytes)
    requires Looping(buffer, rest, left, places, params, s, wanted)
    requires left.None? || ParamOf(Piece(left.value)).value.None?
    ensures left.None? ==> Searched(buffer, s, wanted, None, places)
    ensures left.Some? ==> Searched(Parsed(buffer, rest.value, left.value), s, wanted, None, places)
  {
    if left.Some? {
      var p, q := Parsed(buffer, rest.value, left.value), rest.value;
      assert p[..q] == buffer[..q];
      PlacesStay(buffer, p, places, params, q, |buffer|);
    }
  }

  /** The first value with the wanted key among the parameters of a query. */
  function Lookup(params: seq<Param>, wanted: Bytes): Option<Bytes> {
    if params == [] then None
    else if params[0].key == wanted then params[0].value
    else Lookup(params[1..], wanted)
  }

  lemma {:induction false} LookupIsLast(params: seq<Param>, wanted: Bytes)
    requires forall i :: 0 <= i < |params| ==> params[i].value.Some?
    ensures var up := UpTo(params, wanted);
      && (Has(up, wanted) <==> Lookup(params, wanted).Some?)
      && (Has(up, wanted) ==> up[|up| - 1].value == Lookup(params, wanted))
  {
    if params != [] && params[0].key != wanted {
      LookupIsLast(params[1..], wanted);
    }
  }

  lemma {:induction false} ParamsHaveValues(s: Option<Bytes>)
    ensures forall i :: 0 <= i < |Params(s)| ==> Params(s)[i].value.Some?
    decreases if s.Some? then |s.value| + 1 else 0
  {
    if s.Some? && ParamOf(Piece(s.value)).value.Some? {
      ParamsHaveValues(After(s.value));
    }
  }

  lemma SearchFinds(buffer: Bytes, s: Bytes, wanted: Bytes, blob: Option<nat>, places: seq<Place>)
    requires Searched(buffer, s, wanted, blob, places)
    ensures var v := Lookup(Params(Some(s)), wanted);
      (blob.Some? <==> v.Some?) && (v.Some? ==> StringAt(buffer, blob.value, v.value))
  {
    ParamsHaveValues(Some(s));
    LookupIsLast(Params(Some(s)), wanted);
    var params := UpTo(Params(Some(s)), wanted);
    if Has(params, wanted) {
      assert IsPlaced(buffer, places[|places| - 1], params[|params| - 1], |buffer|);
    }
  }

  lemma DecodedAt(first: Bytes, buffer: Bytes, start: nat, s: Bytes, size: int)
    requires DecodedInPlace(first, buffer, start, s, size)
    ensures if Decode(s).ok then
        && size == |Decode(s).bytes| && start + size < |buffer|
        && buffer[start..start + size] == Decode(s).bytes && buffer[start + size] == NUL
      else
        size == -1
  {
  }

  /** The driver's way from a line's query to the bytes of the parameter it needs: None if there is no such
      parameter, a negative size if its value cannot be decoded. */
  method ReadValue(buffer: array<Byte>, query: nat, wanted: Bytes, ghost s: Bytes)
      returns (blob: Option<nat>, size: int)
    requires StringAt(buffer[..], query, s) && NUL !in wanted
    requires var v := Lookup(Params(Some(s)), wanted); v.Some? ==> Plain(v.value)
    modifies buffer
    ensures var v := Lookup(Params(Some(s)), wanted);
      && (blob.None? <==> v.None?)
      && (v.Some? && Decode(v.value).ok ==>
          && size == |Decode(v.value).bytes| && blob.value + size < buffer.Length
          && buffer[blob.value..blob.value + size] == Decode(v.value).bytes && buffer[blob.value + size] == NUL)
      && (v.Some? && !Decode(v.value).ok ==> size == -1)
  {
    hide Searched, Lookup, Params, Plain, Decode, StringAt, DecodedInPlace;
    ghost var places;
    blob, places := FindValue(buffer, query, wanted, s);
    SearchFinds(buffer[..], s, wanted, blob, places);
    if blob.None? {
      return blob, -1;
    }
    ghost var value, was := Lookup(Params(Some(s)), wanted).value, buffer[..];
    size := UrlDecode(buffer, blob.value, value);
    DecodedAt(was, buffer[..], blob.value, value, size);
  }

  // ------------------------------------------------------------------ joining and taking apart again

  /** A parameter that can be written into a query and found there again. */
  ghost predicate Joinable(p: Param) {
    && EQUALS !in p.key && AMPERSAND !in p.key && NUL !in p.key
    && p.value.Some? && AMPERSAND !in p.value.value && NUL !in p.value.value
  }

  function Written(p: Param): Bytes
    requires Joinable(p)
  {
    p.key + [EQUALS] + p.value.value
  }

  function Join(params: seq<Param>): Bytes
    requires forall i :: 0 <= i < |params| ==> Joinable(params[i])
  {
    if params == [] then []
    else
      assert Joinable(params[0]);
      Written(params[0]) + if |params| == 1 then [] else [AMPERSAND] + Join(params[1..])
  }

  /** Two parameters in a query: an equals sign in each, an ampersand between them. */
  lemma JoinIs(p: Param, q: Param)
    requires Joinable(p) && Joinable(q)
    ensures Join([p]) == p.key + ['=' as int] + p.value.value
    ensures Join([p, q]) ==
      p.key + ['=' as int] + p.value.value + ['&' as int] + (q.key + ['=' as int] + q.value.value)
  {
    assert [p, q][1..] == [q];
    assert Join([q]) == Written(q) + [];
    assert Join([p]) == Written(p) + [];
  }

  lemma FirstOfJoined(p: Param, rest: Bytes)
    requires Joinable(p) && (rest == [] || rest[0] == AMPERSAND)
    ensures var s := Written(p) + rest;
      Piece(s) == Written(p) && ParamOf(Written(p)) == p && After(s) == if rest == [] then None else Some(rest[1..])
  {
    var first := Written(p);
    var s := first + rest;
    assert s[..|first|] == first;
    UntilIs(s, AMPERSAND, |first|);
    assert first[..|p.key|] == p.key && first[|p.key| + 1..] == p.value.value;
    UntilIs(first, EQUALS, |p.key|);
    if rest != [] {
      assert s[|first| + 1..] == rest[1..];
    }
  }

  lemma ParamsFirst(p: Param, rest: Bytes)
    requires Joinable(p) && (rest == [] || rest[0] == AMPERSAND)
    ensures Params(Some(Written(p) + rest)) == [p] + Params(if rest == [] then None else Some(rest[1..]))
  {
    FirstOfJoined(p, rest);
    hide Piece, ParamOf, After, Written;
  }

  /** Going through a joined query gives the parameters that were joined, all and in order, and then -1. */
  lemma {:induction false} ParamsOfJoin(params: seq<Param>)
    requires forall i :: 0 <= i < |params| ==> Joinable(params[i])
    ensures Params(Some(Join(params))) == params && NUL !in Join(params)
  {
    hide Piece, ParamOf, After, Until;
    if params == [] {
      NoParams();
    } else {
      assert Joinable(params[0]);
      var rest := if |params| == 1 then [] else [AMPERSAND] + Join(params[1..]);
      ParamsFirst(params[0], rest);
      if |params| == 1 {
        assert Params(None) == [];
      } else {
        ParamsOfJoin(params[1..]);
        assert rest[1..] == Join(params[1..]);
      }
    }
  }

  lemma NoParams()
    ensures Params(Some([])) == []
  {
  }

  /** No key is skipped: a key that is not wanted is passed by, so that a loop that wants none of the keys goes
      through all of them. */
  lemma {:induction false} UpToAll(params: seq<Param>, wanted: Bytes)
    requires forall i :: 0 <= i < |params| ==> params[i].key != wanted
    ensures UpTo(params, wanted) == params
  {
    if params != [] {
      UpToAll(params[1..], wanted);
    }
  }

  /** From end to end: bytes that are encoded, joined into a query with any others, looked up by their key and
      decoded come back. */
  lemma EncodedJoinedFoundDecoded(before: seq<Param>, key: Bytes, bytes: Bytes, after: seq<Param>, keep: set<Byte>,
                                  upper: bool)
    requires keep !! {PERCENT, AMPERSAND, NUL}
    requires EQUALS !in key && AMPERSAND !in key && NUL !in key
    requires forall i :: 0 <= i < |before| ==> Joinable(before[i]) && before[i].key != key
    requires forall i :: 0 <= i < |after| ==> Joinable(after[i])
    ensures var p := Param(key, Some(Encode(bytes, keep, upper))); var params := before + [p] + after;
      && (forall i :: 0 <= i < |params| ==> Joinable(params[i]))
      && Lookup(Params(Some(Join(params))), key) == p.value && Plain(p.value.value)
      && Decode(p.value.value) == Decoded(bytes, true)
  {
    hide Encode, Decode, Plain, Params, Join, Lookup;
    DecodeEncode(bytes, keep, upper);
    var p := Param(key, Some(Encode(bytes, keep, upper)));
    EncodedIsJoinable(key, bytes, keep, upper);
    hide Joinable;
    ParamsOfJoin(before + [p] + after);
    LookupFirst(before, p, after);
  }

  lemma EncodedIsJoinable(key: Bytes, bytes: Bytes, keep: set<Byte>, upper: bool)
    requires keep !! {PERCENT, AMPERSAND, NUL}
    requires EQUALS !in key && AMPERSAND !in key && NUL !in key
    ensures Joinable(Param(key, Some(Encode(bytes, keep, upper))))
  {
    EncodedBytes(bytes, keep, upper);
    hide Encode;
  }

  lemma {:induction false} LookupFirst(before: seq<Param>, p: Param, after: seq<Param>)
    requires forall i :: 0 <= i < |before| ==> before[i].key != p.key
    ensures Lookup(before + [p] + after, p.key) == p.value
  {
    if before != [] {
      LookupFirst(before[1..], p, after);
      assert (before + [p] + after)[1..] == before[1..] + [p] + after;
    }
  }
}
