/** Postgres' binary array, as bind values carry it: a header, then each element as a length and its bytes. */
module ArrayBind {
  import opened Common

  newtype byte = x: int | 0 <= x < 256

  type Bytes = seq<byte>

  // ----- big-endian 32-bit integers -----

  predicate FitsI32(v: int) {
    -0x8000_0000 <= v < 0x8000_0000
  }

  predicate FitsU32(v: int) {
    0 <= v < 0x1_0000_0000
  }

  function U32(b: Bytes): (v: int)
    requires |b| == 4
    ensures FitsU32(v)
  {
    ((b[0] as int * 256 + b[1] as int) * 256 + b[2] as int) * 256 + b[3] as int
  }

  function I32(b: Bytes): (v: int)
    requires |b| == 4
    ensures FitsI32(v)
  {
    var u := U32(b);
    if u < 0x8000_0000 then u else u - 0x1_0000_0000
  }

  function U32Bytes(v: int): (b: Bytes)
    requires FitsU32(v)
    ensures |b| == 4
  {
    [(v / 0x100_0000) as byte, (v / 0x1_0000 % 256) as byte, (v / 256 % 256) as byte, (v % 256) as byte]
  }

  function I32Bytes(v: int): (b: Bytes)
    requires FitsI32(v)
    ensures |b| == 4
  {
    U32Bytes(if v < 0 then v + 0x1_0000_0000 else v)
  }

  lemma U32RoundTrip(v: int)
    requires FitsU32(v)
    ensures U32(U32Bytes(v)) == v
  {
    assert v / 256 / 256 == v / 0x1_0000 && v / 0x1_0000 / 256 == v / 0x100_0000;
  }

  lemma U32Unique(b: Bytes)
    requires |b| == 4
    ensures U32Bytes(U32(b)) == b
  {
    var v := U32(b);
    assert v / 256 == (b[0] as int * 256 + b[1] as int) * 256 + b[2] as int && v % 256 == b[3] as int;
    assert v / 0x1_0000 == b[0] as int * 256 + b[1] as int;
    assert v / 0x100_0000 == b[0] as int;
  }

  lemma I32RoundTrip(v: int)
    requires FitsI32(v)
    ensures I32(I32Bytes(v)) == v
  {
    U32RoundTrip(if v < 0 then v + 0x1_0000_0000 else v);
  }

  lemma I32Unique(b: Bytes)
    requires |b| == 4
    ensures I32Bytes(I32(b)) == b
  {
    U32Unique(b);
  }

  // ----- the format -----

  /** An element on the wire: null has a negative length and no bytes. */
  datatype Element = Null(size: int) | Data(bytes: Bytes)

  predicate ValidElement(e: Element) {
    match e
    case Null(size) => FitsI32(size) && size < 0
    case Data(bytes) => FitsI32(|bytes|)
  }

  ghost predicate AllValid(es: seq<Element>) {
    forall e :: e in es ==> ValidElement(e)
  }

  function EncodeElement(e: Element): Bytes
    requires ValidElement(e)
  {
    match e
    case Null(size) => I32Bytes(size)
    case Data(bytes) => I32Bytes(|bytes|) + bytes
  }

  ghost function EncodeElements(es: seq<Element>): Bytes
    requires AllValid(es)
  {
    if es == [] then []
    else
      assert es[0] in es;
      EncodeElement(es[0]) + EncodeElements(es[1..])
  }

  function ValueOf(e: Element): Option<Bytes> {
    if e.Data? then Some(e.bytes) else None
  }

  function Values(es: seq<Element>): seq<Option<Bytes>> {
    seq(|es|, i requires 0 <= i < |es| => ValueOf(es[i]))
  }

  /** Dimension count, flags, element oid. */
  function Header(dimensions: int, flags: int, oid: int): Bytes
    requires FitsI32(dimensions) && FitsI32(flags) && FitsU32(oid)
  {
    I32Bytes(dimensions) + I32Bytes(flags) + U32Bytes(oid)
  }

  datatype Array = Array(oid: int, items: seq<Option<Bytes>>)

  ghost predicate IsEmptyArray(bytes: Bytes, a: Array) {
    exists flags :: FitsI32(flags) && FitsU32(a.oid) && bytes == Header(0, flags, a.oid) && a.items == []
  }

  ghost predicate EncodedAs(bytes: Bytes, a: Array, flags: int, lower: int, es: seq<Element>) {
    && FitsI32(flags) && FitsU32(a.oid) && FitsI32(lower) && FitsI32(|es|) && AllValid(es)
    && bytes == Header(1, flags, a.oid) + I32Bytes(|es|) + I32Bytes(lower) + EncodeElements(es)
    && a.items == Values(es)
  }

  ghost predicate IsOneDimensional(bytes: Bytes, a: Array) {
    exists flags, lower, es :: EncodedAs(bytes, a, flags, lower, es)
  }

  // ----- reading -----

  /** A reader consumes its bytes in place; a read that does not fit consumes nothing. */
  class Reader {
    var rest: Bytes

    constructor (bytes: Bytes)
      ensures rest == bytes
    {
      rest := bytes;
    }

    method Take(count: nat) returns (head: Option<Bytes>)
      modifies this
      ensures count <= |old(rest)| ==> head == Some(old(rest)[..count]) && rest == old(rest)[count..]
      ensures count > |old(rest)| ==> head == None && rest == old(rest)
    {
      if count > |rest| {
        return None;
      }
      head, rest := Some(rest[..count]), rest[count..];
    }

    method ReadI32() returns (v: Option<int>)
      modifies this
      ensures 4 <= |old(rest)| ==> v == Some(I32(old(rest)[..4])) && rest == old(rest)[4..]
      ensures 4 > |old(rest)| ==> v == None && rest == old(rest)
    {
      var head := Take(4);
      v := if head.Some? then Some(I32(head.value)) else None;
    }

    method ReadU32() returns (v: Option<int>)
      modifies this
      ensures 4 <= |old(rest)| ==> v == Some(U32(old(rest)[..4])) && rest == old(rest)[4..]
      ensures 4 > |old(rest)| ==> v == None && rest == old(rest)
    {
      var head := Take(4);
      v := if head.Some? then Some(U32(head.value)) else None;
    }

    /** One element: its value, or nothing when its length or its bytes do not fit. */
    method ReadElement() returns (e: Option<Option<Bytes>>)
      modifies this
      ensures
        match FirstElement(old(rest))
        case None => e == None
        case Some((item, after)) => e == Some(item) && rest == after
    {
      var size := ReadI32();
      if size.None? {
        return None;
      }
      if size.value < 0 {
        return Some(None);
      }
      var bytes := Take(size.value);
      e := if bytes.Some? then Some(bytes) else None;
    }
  }

  function FirstElement(bytes: Bytes): Option<(Option<Bytes>, Bytes)> {
    if |bytes| < 4 then None
    else
      var size, after := I32(bytes[..4]), bytes[4..];
      if size < 0 then Some((None, after))
      else if size > |after| then None
      else Some((Some(after[..size]), after[size..]))
  }

  /** `n` elements from the front, and what is left. */
  function ReadElements(bytes: Bytes, n: nat): Option<(seq<Option<Bytes>>, Bytes)> {
    if n == 0 then Some(([], bytes))
    else
      match FirstElement(bytes)
      case None => None
      case Some((item, after)) =>
        match ReadElements(after, n - 1)
        case None => None
        case Some((items, left)) => Some(([item] + items, left))
  }

  /** What the bytes decode to, if anything. */
  function Decoded(bytes: Bytes): Option<Array> {
    if |bytes| < 12 then None
    else
      var dimensions, oid, body := I32(bytes[..4]), U32(bytes[8..12]), bytes[12..];
      if dimensions == 0 then (if body == [] then Some(Array(oid, [])) else None)
      else if dimensions != 1 || |body| < 4 || I32(body[..4]) < 0 || |body| < 8 then None
      else
        match ReadElements(body[8..], I32(body[..4]))
        case None => None
        case Some((items, left)) => if left == [] then Some(Array(oid, items)) else None
  }

  /** The element loop: each turn takes at least four bytes, so turns are bounded by the bytes left over four. */
  method ReadItems(reader: Reader, n: nat) returns (items: Option<seq<Option<Bytes>>>, ghost turns: nat)
    modifies reader
    ensures
      match ReadElements(old(reader.rest), n)
      case None => items == None
      case Some((all, left)) => items == Some(all) && reader.rest == left && turns == n
    ensures 4 * turns <= |old(reader.rest)|
  {
    var read: seq<Option<Bytes>> := [];
    ghost var start := reader.rest;
    ContinuesFromStart(start, n);
    for i := 0 to n
      invariant |read| == i && 4 * i + |reader.rest| <= |start|
      invariant Continues(start, n, read, reader.rest, n - i)
    {
      turns := i;
      ContinuesOn(start, n, read, reader.rest, n - i);
      var e := reader.ReadElement();
      if e.None? {
        return None, turns;
      }
      read := read + [e.value];
    }
    assert read + [] == read;
    return Some(read), n;
  }

  /** Reading `n` from the start is having read these items and reading `m` more from here. */
  ghost predicate Continues(start: Bytes, n: nat, read: seq<Option<Bytes>>, here: Bytes, m: nat) {
    ReadElements(start, n) ==
    match ReadElements(here, m)
    case None => None
    case Some((more, left)) => Some((read + more, left))
  }

  lemma ContinuesFromStart(start: Bytes, n: nat)
    ensures Continues(start, n, [], start, n)
  {
    if ReadElements(start, n).Some? {
      assert [] + ReadElements(start, n).value.0 == ReadElements(start, n).value.0;
    }
  }

  lemma ContinuesOn(start: Bytes, n: nat, read: seq<Option<Bytes>>, here: Bytes, m: nat)
    requires m > 0 && Continues(start, n, read, here, m)
    ensures FirstElement(here).None? ==> ReadElements(start, n).None?
    ensures FirstElement(here).Some? ==>
              var (item, after) := FirstElement(here).value; Continues(start, n, read + [item], after, m - 1)
  {
    if FirstElement(here).Some? {
      var (item, after) := FirstElement(here).value;
      if ReadElements(after, m - 1).Some? {
        var more := ReadElements(after, m - 1).value.0;
        assert read + ([item] + more) == read + [item] + more;
      }
    }
  }

  /** Decodes exactly, or not at all; the element decoder is the caller's. */
  method DecodeArray(bytes: Bytes) returns (r: Option<Array>)
    ensures r == Decoded(bytes)
    ensures r.Some? && r.value.items != [] ==> 20 + 4 * |r.value.items| <= |bytes|
  {
    var reader := new Reader(bytes);
    var dimensions := reader.ReadI32();
    if dimensions.None? {
      return None;
    }
    var flags := reader.ReadI32();
    if flags.None? {
      return None;
    }
    assert reader.rest == bytes[8..];
    var oid := reader.ReadU32();
    if oid.None? {
      return None;
    }
    assert reader.rest == bytes[12..] && bytes[8..][..4] == bytes[8..12];
    if dimensions.value == 0 {
      return if reader.rest == [] then Some(Array(oid.value, [])) else None;
    }
    if dimensions.value != 1 {
      return None;
    }
    r := DecodeElements(reader, oid.value);
  }

  /** A one-dimensional body: length, lower bound, elements, and nothing after them. */
  method DecodeElements(reader: Reader, oid: int) returns (r: Option<Array>)
    modifies reader
    ensures
      var body := old(reader.rest);
      r == if |body| < 8 || I32(body[..4]) < 0 then None
           else
             match ReadElements(body[8..], I32(body[..4]))
             case None => None
             case Some((items, left)) => if left == [] then Some(Array(oid, items)) else None
    ensures r.Some? ==> 8 + 4 * |r.value.items| <= |old(reader.rest)|
  {
    ghost var body := reader.rest;
    var length := reader.ReadI32();
    if length.None? || length.value < 0 {
      return None;
    }
    var lower := reader.ReadI32();
    if lower.None? {
      return None;
    }
    assert reader.rest == body[8..];
    var items, turns := ReadItems(reader, length.value);
    if items.None? {
      return None;
    }
    CountOfItems(body[8..], length.value);
    return if reader.rest == [] then Some(Array(oid, items.value)) else None;
  }

  lemma {:induction false} CountOfItems(bytes: Bytes, n: nat)
    ensures ReadElements(bytes, n).Some? ==> |ReadElements(bytes, n).value.0| == n
  {
    if n > 0 && FirstElement(bytes).Some? {
      CountOfItems(FirstElement(bytes).value.1, n - 1);
    }
  }

  // ----- exactly the encodings are accepted -----

  lemma ElementFront(e: Element, rest: Bytes)
    requires ValidElement(e)
    ensures FirstElement(EncodeElement(e) + rest) == Some((ValueOf(e), rest))
  {
    var bytes := EncodeElement(e) + rest;
    match e
    case Null(size) =>
      I32RoundTrip(size);
      assert bytes[..4] == I32Bytes(size) && bytes[4..] == rest;
    case Data(data) =>
      I32RoundTrip(|data|);
      assert bytes[..4] == I32Bytes(|data|) && bytes[4..] == data + rest;
      assert (data + rest)[..|data|] == data && (data + rest)[|data|..] == rest;
  }

  lemma ReadCons(e: Element, tail: Bytes, n: nat, items: seq<Option<Bytes>>, left: Bytes)
    requires ValidElement(e) && ReadElements(tail, n) == Some((items, left))
    ensures ReadElements(EncodeElement(e) + tail, n + 1) == Some(([ValueOf(e)] + items, left))
  {
    ElementFront(e, tail);
  }

  /** Reading the encoding of a list gives the list, and whatever follows it. */
  lemma {:induction false} ReadEncoded(es: seq<Element>, rest: Bytes)
    requires AllValid(es)
    ensures ReadElements(EncodeElements(es) + rest, |es|) == Some((Values(es), rest))
  {
    if es == [] {
      assert EncodeElements(es) + rest == rest && Values(es) == [];
    } else {
      var e, more := es[0], es[1..];
      assert e in es && es == [e] + more;
      EncodedCons(e, more);
      Regroup(EncodeElement(e), EncodeElements(more), rest);
      ReadEncoded(more, rest);
      ReadCons(e, EncodeElements(more) + rest, |more|, Values(more), rest);
    }
  }

  lemma FrontElement(bytes: Bytes) returns (e: Element)
    requires FirstElement(bytes).Some?
    ensures ValidElement(e) && ValueOf(e) == FirstElement(bytes).value.0
    ensures bytes == EncodeElement(e) + FirstElement(bytes).value.1
  {
    var size, after := I32(bytes[..4]), bytes[4..];
    I32Unique(bytes[..4]);
    assert bytes == bytes[..4] + after;
    if size < 0 {
      e := Null(size);
    } else {
      e := Data(after[..size]);
      assert after == after[..size] + after[size..];
    }
  }

  lemma EncodedCons(e: Element, more: seq<Element>)
    requires ValidElement(e) && AllValid(more)
    ensures AllValid([e] + more) && EncodeElements([e] + more) == EncodeElement(e) + EncodeElements(more)
    ensures Values([e] + more) == [ValueOf(e)] + Values(more)
  {
    var es := [e] + more;
    assert es[0] == e && es[1..] == more;
  }

  /** Whatever reads as `n` elements is the encoding of `n` elements. */
  lemma {:induction false} EncodingOf(bytes: Bytes, n: nat) returns (es: seq<Element>)
    requires ReadElements(bytes, n).Some?
    ensures |es| == n && AllValid(es) && Values(es) == ReadElements(bytes, n).value.0
    ensures bytes == EncodeElements(es) + ReadElements(bytes, n).value.1
  {
    es := [];
    if n > 0 {
      var e := FrontElement(bytes);
      var more := EncodingOf(FirstElement(bytes).value.1, n - 1);
      EncodedCons(e, more);
      es := [e] + more;
      Regroup(EncodeElement(e), EncodeElements(more), ReadElements(bytes, n).value.1);
    }
  }

  lemma Regroup(a: Bytes, b: Bytes, c: Bytes)
    ensures a + b + c == a + (b + c)
  {
  }

  lemma HeaderReads(dimensions: int, flags: int, oid: int, body: Bytes)
    requires FitsI32(dimensions) && FitsI32(flags) && FitsU32(oid)
    ensures
      var bytes := Header(dimensions, flags, oid) + body;
      |bytes| == 12 + |body| && I32(bytes[..4]) == dimensions && U32(bytes[8..12]) == oid && bytes[12..] == body
  {
    I32RoundTrip(dimensions);
    U32RoundTrip(oid);
    var bytes := Header(dimensions, flags, oid) + body;
    assert bytes[..4] == I32Bytes(dimensions) && bytes[8..12] == U32Bytes(oid);
  }

  lemma HeaderIs(bytes: Bytes) returns (flags: int)
    requires |bytes| >= 12
    ensures FitsI32(flags) && bytes == Header(I32(bytes[..4]), flags, U32(bytes[8..12])) + bytes[12..]
  {
    flags := I32(bytes[4..8]);
    I32Unique(bytes[..4]);
    I32Unique(bytes[4..8]);
    U32Unique(bytes[8..12]);
    assert bytes == bytes[..4] + bytes[4..8] + bytes[8..12] + bytes[12..];
  }

  lemma EncodedDecodes(bytes: Bytes, a: Array, flags: int, lower: int, es: seq<Element>)
    requires EncodedAs(bytes, a, flags, lower, es)
    ensures Decoded(bytes) == Some(a)
  {
    var body := I32Bytes(|es|) + I32Bytes(lower) + EncodeElements(es);
    assert bytes == Header(1, flags, a.oid) + body;
    HeaderReads(1, flags, a.oid, body);
    I32RoundTrip(|es|);
    assert body[..4] == I32Bytes(|es|);
    assert body[8..] == EncodeElements(es) + [];
    ReadEncoded(es, []);
  }

  lemma BodyIs(body: Bytes)
    requires |body| >= 8
    ensures body == I32Bytes(I32(body[..4])) + I32Bytes(I32(body[4..8])) + body[8..]
  {
    I32Unique(body[..4]);
    I32Unique(body[4..8]);
    assert body == body[..4] + body[4..8] + body[8..];
  }

  lemma DecodedIsEncoded(bytes: Bytes, a: Array)
    requires Decoded(bytes) == Some(a) && I32(bytes[..4]) != 0
    ensures IsOneDimensional(bytes, a)
  {
    var flags := HeaderIs(bytes);
    var body := bytes[12..];
    var length, lower := I32(body[..4]), I32(body[4..8]);
    var es := EncodingOf(body[8..], length);
    BodyIs(body);
    assert EncodeElements(es) + [] == EncodeElements(es);
    assert body == I32Bytes(length) + I32Bytes(lower) + EncodeElements(es);
    assert bytes == Header(1, flags, a.oid) + I32Bytes(|es|) + I32Bytes(lower) + EncodeElements(es);
    assert EncodedAs(bytes, a, flags, lower, es);
  }

  /** The decoder accepts exactly the zero-dimensional headers and the one-dimensional arrays whose elements
      consume the input exactly, and returns what they encode. */
  lemma AcceptsExactlyEncodings(bytes: Bytes, a: Array)
    ensures Decoded(bytes) == Some(a) <==> IsEmptyArray(bytes, a) || IsOneDimensional(bytes, a)
  {
    if flags :| FitsI32(flags) && FitsU32(a.oid) && bytes == Header(0, flags, a.oid) && a.items == [] {
      assert bytes == Header(0, flags, a.oid) + [];
      HeaderReads(0, flags, a.oid, []);
    }
    if flags, lower, es :| EncodedAs(bytes, a, flags, lower, es) {
      EncodedDecodes(bytes, a, flags, lower, es);
    }
    if Decoded(bytes) == Some(a) {
      if I32(bytes[..4]) == 0 {
        var flags := HeaderIs(bytes);
        assert bytes == Header(0, flags, a.oid);
      } else {
        DecodedIsEncoded(bytes, a);
      }
    }
  }

  function Wire(item: Option<Bytes>): Element {
    if item.Some? then Data(item.value) else Null(-1)
  }

  function Wires(items: seq<Option<Bytes>>): seq<Element> {
    seq(|items|, i requires 0 <= i < |items| => Wire(items[i]))
  }

  /** Encoding a list of optional byte strings and decoding it gives the list back. */
  lemma ArrayRoundTrip(items: seq<Option<Bytes>>, flags: int, oid: int, lower: int)
    requires FitsI32(flags) && FitsU32(oid) && FitsI32(lower) && FitsI32(|items|)
    requires forall i :: 0 <= i < |items| && items[i].Some? ==> FitsI32(|items[i].value|)
    ensures AllValid(Wires(items))
    ensures
      Decoded(Header(1, flags, oid) + I32Bytes(|items|) + I32Bytes(lower) + EncodeElements(Wires(items))) == Some(Array(oid, items))
  {
    var es := Wires(items);
    forall e | e in es ensures ValidElement(e) {
      var i :| 0 <= i < |es| && es[i] == e;
    }
    assert Values(es) == items;
    EncodedDecodes(Header(1, flags, oid) + I32Bytes(|items|) + I32Bytes(lower) + EncodeElements(es), Array(oid, items), flags, lower, es);
  }

  // ----- where the header's numbers stand -----

  /** The four bytes from `at`, the first of them the most significant. */
  function BigEndian(bytes: Bytes, at: nat): int
    requires at + 4 <= |bytes|
  {
    bytes[at] as int * 0x100_0000 + bytes[at + 1] as int * 0x1_0000 + bytes[at + 2] as int * 0x100 + bytes[at + 3] as int
  }

  lemma U32Is(bytes: Bytes, at: nat)
    requires at + 4 <= |bytes|
    ensures U32(bytes[at..at + 4]) == BigEndian(bytes, at)
    ensures I32(bytes[at..at + 4]) == BigEndian(bytes, at) - if bytes[at] < 128 then 0 else 0x1_0000_0000
  {
    var b := bytes[at..at + 4];
    assert b[0] == bytes[at] && b[1] == bytes[at + 1] && b[2] == bytes[at + 2] && b[3] == bytes[at + 3];
  }

  /** Every array decoded has its dimensions in bytes 0 to 3, its element type in 8 to 11 and, unless it is empty, its
      length in 12 to 15, most significant byte first. */
  lemma HeaderStands(bytes: Bytes)
    requires Decoded(bytes).Some?
    ensures |bytes| >= 12 && Decoded(bytes).value.oid == BigEndian(bytes, 8)
    ensures (BigEndian(bytes, 0) == 0 && |bytes| == 12 && Decoded(bytes).value.items == [])
            || (BigEndian(bytes, 0) == 1 && |bytes| >= 20 && |Decoded(bytes).value.items| == BigEndian(bytes, 12))
  {
    U32Is(bytes, 0);
    U32Is(bytes, 8);
    assert bytes[0..4] == bytes[..4];
    if |bytes| >= 16 {
      U32Is(bytes, 12);
      assert bytes[12..][..4] == bytes[12..16];
    }
    if I32(bytes[..4]) != 0 {
      var body := bytes[12..];
      ReadLength(body[8..], I32(body[..4]));
    }
  }

  lemma {:induction false} ReadLength(bytes: Bytes, n: nat)
    ensures ReadElements(bytes, n).Some? ==> |ReadElements(bytes, n).value.0| == n
    decreases n
  {
    if n > 0 {
      match FirstElement(bytes)
      case None =>
      case Some((item, after)) => ReadLength(after, n - 1);
    }
  }
}
