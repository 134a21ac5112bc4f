/** Primitive types shared by the stream server and the WebSocket handlers:
    octets, the `esp_err_t` return codes, an Option wrapper for values that
    may be absent (a NULL frame, a missing JSON field) and byte strings. */
module EspTypes {

  /** One octet, as `uint8_t` in the firmware. */
  type byte = b: int | 0 <= b < 0x100

  /** `esp_err_t`: a plain C int; only the codes the core produces are named. */
  type EspErr = int

  const ESP_OK: EspErr := 0
  const ESP_FAIL: EspErr := -1
  const ESP_ERR_NO_MEM: EspErr := 0x101

  datatype Option<+T> = None | Some(value: T) {
    /** The value, or `default` when absent (ArduinoJson's `doc[key] | default`). */
    function GetOr(default: T): T {
      match this
      case Some(v) => v
      case None => default
    }
  }

  /** The bytes of a C string literal; every literal in the core is 7-bit ASCII. */
  function Ascii(s: string): (r: seq<byte>)
    ensures |r| == |s|
    ensures forall i :: 0 <= i < |s| ==> r[i] == (s[i] as int) % 0x100
  {
    seq(|s|, i requires 0 <= i < |s| => (s[i] as int) % 0x100)
  }

  /** The bytes handed to the transport by a sequence of send calls, in order. */
  function Concat(pieces: seq<seq<byte>>): seq<byte> {
    if pieces == [] then [] else pieces[0] + Concat(pieces[1..])
  }

  lemma {:induction false} ConcatAppend(a: seq<seq<byte>>, b: seq<seq<byte>>)
    ensures Concat(a + b) == Concat(a) + Concat(b)
  {
    if a != [] {
      ConcatAppend(a[1..], b);
      assert (a + b)[1..] == a[1..] + b;
    } else {
      assert a + b == b;
    }
  }

  /** What follows the literal prefix p at the front of s, if s starts with p. */
  function Strip(p: seq<byte>, s: seq<byte>): (r: Option<seq<byte>>)
    ensures r.Some? ==> |r.value| == |s| - |p|
  {
    if p <= s then Some(s[|p|..]) else None
  }

  lemma StripConcat(p: seq<byte>, rest: seq<byte>)
    ensures Strip(p, p + rest) == Some(rest)
  {
    assert (p + rest)[|p|..] == rest;
  }
}
