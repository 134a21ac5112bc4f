/** The multipart/x-mixed-replace body the stream endpoints emit: per frame a
    part header, the JPEG bytes and the boundary delimiter of section 5.1.1 of
    RFC 2046, together with a parser that recovers the frames from the bytes. */
module Multipart {
  import opened EspTypes
  import opened Decimal

  const PART_BOUNDARY: string := "123456789000000000000987654321"
  const STREAM_BOUNDARY: string := "\r\n--" + PART_BOUNDARY + "\r\n"

  /** The part header format "Content-Type: image/jpeg\r\nContent-Length: %u\r\n\r\n",
      split around its one conversion. */
  const PART_HEAD: string := "Content-Type: image/jpeg\r\nContent-Length: "
  const PART_TAIL: string := "\r\n\r\n"

  /** Size of the stack buffer the header is formatted into. */
  const PART_BUF_SIZE: nat := 64

  /** Characters RFC 2046 allows in a boundary other than the space (bcharsnospace). */
  predicate IsBoundaryChar(c: char) {
    || 'a' <= c <= 'z' || 'A' <= c <= 'Z' || '0' <= c <= '9'
    || c in "'()+_,-./:=?"
  }

  /** A boundary as section 5.1.1 of RFC 2046 defines it: 1 to 70 characters,
      each a bcharsnospace or a space, and the last one not a space. */
  predicate IsRfc2046Boundary(b: string) {
    && 1 <= |b| <= 70
    && (forall i :: 0 <= i < |b| ==> IsBoundaryChar(b[i]) || b[i] == ' ')
    && IsBoundaryChar(b[|b| - 1])
  }

  /** The part header text for a frame of `len` bytes. */
  function PartHeader(len: nat): seq<byte> {
    Ascii(PART_HEAD) + Digits(len) + Ascii(PART_TAIL)
  }

  /** C99 `snprintf` into a buffer of `size` bytes: at most size - 1 characters
      are stored (then the terminating NUL), and the return value is the length
      the whole text would have had. */
  function Snprintf(size: nat, text: seq<byte>): (seq<byte>, nat)
    requires 0 < size
  {
    (if |text| < size then text else text[..size - 1], |text|)
  }

  /** The three pieces `send_frame` hands to the transport, in order. */
  function Chunk(body: seq<byte>): seq<seq<byte>> {
    [PartHeader(|body|), body, Ascii(STREAM_BOUNDARY)]
  }

  /** The whole stream body produced by successive frames. */
  function Stream(bodies: seq<seq<byte>>): seq<byte> {
    if bodies == [] then [] else Concat(Chunk(bodies[0])) + Stream(bodies[1..])
  }

  /** Reads a part header at the front of s: the announced length and what follows. */
  function ParseHeader(s: seq<byte>): (r: Option<(nat, seq<byte>)>)
    ensures r.Some? ==> |r.value.1| < |s|
  {
    match Strip(Ascii(PART_HEAD), s)
    case None => None
    case Some(t) =>
      match ParseNat(t)
      case None => None
      case Some((len, k)) =>
        match Strip(Ascii(PART_TAIL), t[k..])
        case None => None
        case Some(v) => Some((len, v))
  }

  /** Reads `len` JPEG bytes and the boundary delimiter at the front of v. */
  function ParseBody(len: nat, v: seq<byte>): (r: Option<(seq<byte>, seq<byte>)>)
    ensures r.Some? ==> |r.value.1| <= |v|
  {
    if |v| < len then None
    else
      match Strip(Ascii(STREAM_BOUNDARY), v[len..])
      case None => None
      case Some(rest) => Some((v[..len], rest))
  }

  /** Reads one part from the front of s: its JPEG bytes and what follows. */
  function ParsePart(s: seq<byte>): (r: Option<(seq<byte>, seq<byte>)>)
    ensures r.Some? ==> |r.value.1| < |s|
  {
    match ParseHeader(s)
    case None => None
    case Some((len, v)) => ParseBody(len, v)
  }

  /** Reads a stream body back into the frames it carries. */
  function ParseStream(s: seq<byte>): Option<seq<seq<byte>>>
    decreases |s|
  {
    if s == [] then Some([])
    else
      match ParsePart(s)
      case None => None
      case Some((body, rest)) =>
        match ParseStream(rest)
        case None => None
        case Some(bodies) => Some([body] + bodies)
  }

  /** The boundary obeys the grammar of section 5.1.1 of RFC 2046: 1 to 70
      characters from its set, not ending in a space. */
  lemma BoundaryConforms()
    ensures IsRfc2046Boundary(PART_BOUNDARY)
  {
  }

  /** For every 32-bit length the header is at most 56 bytes, so `snprintf` into
      the 64-byte part buffer neither truncates it nor returns a length beyond it. */
  lemma PartHeaderFits(len: nat)
    requires len < 0x1_0000_0000
    ensures |PartHeader(len)| <= 56
    ensures Snprintf(PART_BUF_SIZE, PartHeader(len)) == (PartHeader(len), |PartHeader(len)|)
  {
    DigitsOfU32(len);
  }

  lemma ChunkBytes(body: seq<byte>)
    ensures Concat(Chunk(body)) == PartHeader(|body|) + body + Ascii(STREAM_BOUNDARY)
  {
    var h, d := PartHeader(|body|), Ascii(STREAM_BOUNDARY);
    var none: seq<seq<byte>> := [];
    assert [h, body, d][1..] == [body, d];
    assert [body, d][1..] == [d];
    assert [d][1..] == none;
    calc {
      Concat([h, body, d]);
      h + Concat([body, d]);
      h + (body + Concat([d]));
      h + (body + (d + Concat(none)));
    }
    assert h + (body + (d + [])) == h + body + d;
  }

  lemma HeaderRoundTrip(len: nat, v: seq<byte>)
    ensures ParseHeader(PartHeader(len) + v) == Some((len, v))
  {
    var head, digits, tail := Ascii(PART_HEAD), Digits(len), Ascii(PART_TAIL);
    var after := tail + v;
    assert PartHeader(len) + v == head + (digits + after);
    StripConcat(head, digits + after);
    NatRoundTrip(len, after);
    assert (digits + after)[|digits|..] == after;
    StripConcat(tail, v);
  }

  lemma BodyRoundTrip(body: seq<byte>, rest: seq<byte>)
    ensures ParseBody(|body|, body + Ascii(STREAM_BOUNDARY) + rest) == Some((body, rest))
  {
    var delim := Ascii(STREAM_BOUNDARY);
    var v := body + delim + rest;
    assert v[..|body|] == body;
    assert v[|body|..] == delim + rest;
    StripConcat(delim, rest);
  }

  /** A serialised part reads back as the same JPEG bytes, whatever follows it. */
  lemma PartRoundTrip(body: seq<byte>, rest: seq<byte>)
    ensures ParsePart(Concat(Chunk(body)) + rest) == Some((body, rest))
  {
    var v := body + Ascii(STREAM_BOUNDARY) + rest;
    ChunkBytes(body);
    assert Concat(Chunk(body)) + rest == PartHeader(|body|) + v;
    HeaderRoundTrip(|body|, v);
    BodyRoundTrip(body, rest);
  }

  lemma {:induction false} StreamAppend(bodies: seq<seq<byte>>, body: seq<byte>)
    ensures Stream(bodies + [body]) == Stream(bodies) + Concat(Chunk(body))
  {
    if bodies == [] {
      assert [body][1..] == [];
    } else {
      StreamAppend(bodies[1..], body);
      assert (bodies + [body])[1..] == bodies[1..] + [body];
    }
  }

  /** The stream of successive parts reads back as the sequence of frames sent. */
  lemma {:induction false} StreamRoundTrip(bodies: seq<seq<byte>>)
    ensures ParseStream(Stream(bodies)) == Some(bodies)
  {
    if bodies != [] {
      var rest := Stream(bodies[1..]);
      PartRoundTrip(bodies[0], rest);
      StreamRoundTrip(bodies[1..]);
      assert [bodies[0]] + bodies[1..] == bodies;
    }
  }
}
