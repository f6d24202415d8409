/** `encodeURIComponent` and `decodeURIComponent`: percent-encoding of the
    UTF-8 bytes of a string, and its inverse, which fails (JavaScript throws a
    `URIError`) on a malformed escape or an invalid UTF-8 sequence. */
module Uri {
  import opened Wrappers

  type Byte = b: int | 0 <= b < 256

  /** The characters `encodeURIComponent` leaves as they are. */
  predicate Unreserved(c: char) {
    ('A' <= c <= 'Z') || ('a' <= c <= 'z') || ('0' <= c <= '9')
    || c == '-' || c == '_' || c == '.' || c == '!' || c == '~'
    || c == '*' || c == '\'' || c == '(' || c == ')'
  }

  /** The upper-case hexadecimal digit of `d`. */
  function HexDigit(d: int): (c: char)
    requires 0 <= d < 16
    ensures Unreserved(c)
  {
    if d < 10 then ('0' as int + d) as char else ('A' as int + d - 10) as char
  }

  /** The value of a hexadecimal digit of either case. */
  function HexValue(c: char): (r: Option<int>)
    ensures r.Some? ==> 0 <= r.value < 16
  {
    if '0' <= c <= '9' then Some(c as int - '0' as int)
    else if 'A' <= c <= 'F' then Some(c as int - 'A' as int + 10)
    else if 'a' <= c <= 'f' then Some(c as int - 'a' as int + 10)
    else None
  }

  /** `%XY` for one byte. */
  function Escape(b: Byte): string {
    ['%', HexDigit(b / 16), HexDigit(b % 16)]
  }

  function Escapes(bs: seq<Byte>): (r: string)
    ensures |r| == 3 * |bs|
    ensures forall i :: 0 <= i < |r| ==> Unreserved(r[i]) || r[i] == '%'
  {
    if bs == [] then [] else Escape(bs[0]) + Escapes(bs[1..])
  }

  /** The UTF-8 encoding of a Unicode scalar value. */
  function Utf8(c: char): (bs: seq<Byte>)
    ensures 1 <= |bs| <= 4
  {
    var n := c as int;
    var q1 := n / 64;
    var q2 := q1 / 64;
    var q3 := q2 / 64;
    if n < 0x80 then [n]
    else if n < 0x800 then [0xC0 + q1, 0x80 + n % 64]
    else if n < 0x10000 then [0xE0 + q2, 0x80 + q1 % 64, 0x80 + n % 64]
    else [0xF0 + q3, 0x80 + q2 % 64, 0x80 + q1 % 64, 0x80 + n % 64]
  }

  function EncodeChar(c: char): string {
    if Unreserved(c) then [c] else Escapes(Utf8(c))
  }

  /** `encodeURIComponent(s)`: only unreserved characters and escapes remain,
      so the result can stand as a query-string value. */
  function Encode(s: string): (r: string)
    ensures forall i :: 0 <= i < |r| ==> Unreserved(r[i]) || r[i] == '%'
  {
    if s == [] then [] else EncodeChar(s[0]) + Encode(s[1..])
  }

  /** The byte escaped as `%XY` at position `i` of `s`, if there is one. */
  function ByteAt(s: string, i: nat): Option<Byte> {
    if i + 3 <= |s| && s[i] == '%' then
      match (HexValue(s[i + 1]), HexValue(s[i + 2]))
      case (Some(h), Some(l)) => Some(16 * h + l)
      case _ => None
    else None
  }

  /** Reads the UTF-8 continuation byte escaped at `i` into the code point
      accumulated so far. */
  function Continue(s: string, i: nat, acc: int): (r: Option<int>)
    ensures r.Some? ==> acc * 64 <= r.value < acc * 64 + 64
  {
    match ByteAt(s, i)
    case Some(b) => if 0x80 <= b < 0xC0 then Some(acc * 64 + (b - 0x80)) else None
    case None => None
  }

  /** Decodes the escape sequence that starts `s`: the character it stands for
      and how many characters of `s` it spans. Overlong forms, surrogates and
      code points beyond U+10FFFF are refused, as are lead bytes with one or
      more than four leading 1 bits. */
  function DecodeEscape(s: string): (r: Option<(char, nat)>)
    ensures r.Some? ==> 3 <= r.value.1 <= |s|
  {
    match ByteAt(s, 0)
    case None => None
    case Some(b0) =>
      if b0 < 0x80 then Some((b0 as char, 3))
      else if 0xC0 <= b0 < 0xE0 then
        match Continue(s, 3, b0 - 0xC0)
        case Some(cp) => if 0x80 <= cp then Some((cp as char, 6)) else None
        case None => None
      else if 0xE0 <= b0 < 0xF0 then
        match Continue(s, 3, b0 - 0xE0)
        case None => None
        case Some(a1) =>
          match Continue(s, 6, a1)
          case Some(cp) =>
            if 0x800 <= cp && !(0xD800 <= cp < 0xE000) then Some((cp as char, 9)) else None
          case None => None
      else if 0xF0 <= b0 < 0xF8 then
        match Continue(s, 3, b0 - 0xF0)
        case None => None
        case Some(a1) =>
          match Continue(s, 6, a1)
          case None => None
          case Some(a2) =>
            match Continue(s, 9, a2)
            case Some(cp) =>
              if 0x10000 <= cp <= 0x10FFFF then Some((cp as char, 12)) else None
            case None => None
      else None
  }

  function Prepend(c: char, r: Option<string>): Option<string> {
    match r
    case Some(t) => Some([c] + t)
    case None => None
  }

  /** `decodeURIComponent(s)`; `None` where JavaScript throws. */
  function Decode(s: string): Option<string>
    decreases |s|
  {
    if s == [] then Some([])
    else if s[0] != '%' then Prepend(s[0], Decode(s[1..]))
    else
      match DecodeEscape(s)
      case None => None
      case Some((c, n)) => Prepend(c, Decode(s[n..]))
  }

  // ---------------------------------------------------------------------------
  // Decoding undoes encoding.

  lemma {:induction false} ByteAtEscape(b: Byte, tail: string)
    ensures ByteAt(Escape(b) + tail, 0) == Some(b)
  {
    var x := Escape(b) + tail;
    assert x[0] == '%' && x[1] == HexDigit(b / 16) && x[2] == HexDigit(b % 16);
    assert HexValue(HexDigit(b / 16)) == Some(b / 16);
    assert HexValue(HexDigit(b % 16)) == Some(b % 16);
  }

  lemma {:induction false} ByteAtShift(p: string, y: string, i: nat)
    ensures ByteAt(p + y, |p| + i) == ByteAt(y, i)
  {
    if i + 3 <= |y| {
      assert (p + y)[|p| + i] == y[i];
      assert (p + y)[|p| + i + 1] == y[i + 1];
      assert (p + y)[|p| + i + 2] == y[i + 2];
    }
  }

  /** The escaped bytes of `bs`, followed by anything, read back byte by byte. */
  lemma {:induction false} EscapesRead(bs: seq<Byte>, tail: string, k: nat)
    requires k < |bs|
    ensures ByteAt(Escapes(bs) + tail, 3 * k) == Some(bs[k])
  {
    assert Escapes(bs) + tail == Escape(bs[0]) + (Escapes(bs[1..]) + tail);
    if k == 0 {
      ByteAtEscape(bs[0], Escapes(bs[1..]) + tail);
    } else {
      EscapesRead(bs[1..], tail, k - 1);
      ByteAtShift(Escape(bs[0]), Escapes(bs[1..]) + tail, 3 * (k - 1));
    }
  }

  lemma DecodeTwo(s: string, n: int)
    requires 0x80 <= n < 0x800
    requires ByteAt(s, 0) == Some(0xC0 + n / 64) && ByteAt(s, 3) == Some(0x80 + n % 64)
    ensures DecodeEscape(s) == Some((n as char, 6))
  {
    assert Continue(s, 3, n / 64) == Some(n);
  }

  lemma DecodeThree(s: string, n: int)
    requires 0x800 <= n < 0x10000 && !(0xD800 <= n < 0xE000)
    requires ByteAt(s, 0) == Some(0xE0 + n / 64 / 64)
    requires ByteAt(s, 3) == Some(0x80 + n / 64 % 64) && ByteAt(s, 6) == Some(0x80 + n % 64)
    ensures DecodeEscape(s) == Some((n as char, 9))
  {
    assert Continue(s, 3, n / 64 / 64) == Some(n / 64);
    assert Continue(s, 6, n / 64) == Some(n);
  }

  lemma DecodeFour(s: string, n: int)
    requires 0x10000 <= n <= 0x10FFFF
    requires ByteAt(s, 0) == Some(0xF0 + n / 64 / 64 / 64)
    requires ByteAt(s, 3) == Some(0x80 + n / 64 / 64 % 64)
    requires ByteAt(s, 6) == Some(0x80 + n / 64 % 64) && ByteAt(s, 9) == Some(0x80 + n % 64)
    ensures DecodeEscape(s) == Some((n as char, 12))
  {
    assert Continue(s, 3, n / 64 / 64 / 64) == Some(n / 64 / 64);
    assert Continue(s, 6, n / 64 / 64) == Some(n / 64);
    assert Continue(s, 9, n / 64) == Some(n);
  }

  lemma {:induction false} DecodeEscapeOfEncoded(c: char, tail: string)
    requires !Unreserved(c)
    ensures DecodeEscape(Escapes(Utf8(c)) + tail) == Some((c, 3 * |Utf8(c)|))
  {
    var n := c as int;
    if n < 0x80 {
      EscapesRead(Utf8(c), tail, 0);
    } else if n < 0x800 {
      EncodedTwo(c, tail);
    } else if n < 0x10000 {
      EncodedThree(c, tail);
    } else {
      EncodedFour(c, tail);
    }
  }

  lemma {:induction false} EncodedTwo(c: char, tail: string)
    requires 0x80 <= c as int < 0x800
    ensures DecodeEscape(Escapes(Utf8(c)) + tail) == Some((c, 6))
  {
    var n := c as int;
    var bs := Utf8(c);
    assert bs == [0xC0 + n / 64, 0x80 + n % 64];
    EscapesRead(bs, tail, 0);
    EscapesRead(bs, tail, 1);
    DecodeTwo(Escapes(bs) + tail, n);
  }

  lemma {:induction false} EncodedThree(c: char, tail: string)
    requires 0x800 <= c as int < 0x10000
    ensures DecodeEscape(Escapes(Utf8(c)) + tail) == Some((c, 9))
  {
    var n := c as int;
    var bs := Utf8(c);
    assert bs == [0xE0 + n / 64 / 64, 0x80 + n / 64 % 64, 0x80 + n % 64];
    EscapesRead(bs, tail, 0);
    EscapesRead(bs, tail, 1);
    EscapesRead(bs, tail, 2);
    DecodeThree(Escapes(bs) + tail, n);
  }

  lemma {:induction false} EncodedFour(c: char, tail: string)
    requires 0x10000 <= c as int
    ensures DecodeEscape(Escapes(Utf8(c)) + tail) == Some((c, 12))
  {
    var n := c as int;
    var bs := Utf8(c);
    assert bs == [0xF0 + n / 64 / 64 / 64, 0x80 + n / 64 / 64 % 64, 0x80 + n / 64 % 64, 0x80 + n % 64];
    EscapesRead(bs, tail, 0);
    EscapesRead(bs, tail, 1);
    EscapesRead(bs, tail, 2);
    EscapesRead(bs, tail, 3);
    DecodeFour(Escapes(bs) + tail, n);
  }

  lemma {:induction false} DecodeEncodedChar(c: char, tail: string)
    ensures Decode(EncodeChar(c) + tail) == Prepend(c, Decode(tail))
  {
    var s := EncodeChar(c) + tail;
    if Unreserved(c) {
      assert s[0] == c && s[1..] == tail;
    } else {
      DecodeEscapeOfEncoded(c, tail);
      assert s[0] == '%';
      assert s[3 * |Utf8(c)|..] == tail;
    }
  }

  /** `decodeURIComponent(encodeURIComponent(s)) === s` for every string. */
  lemma {:induction false} DecodeEncode(s: string)
    ensures Decode(Encode(s)) == Some(s)
  {
    if s != [] {
      DecodeEncode(s[1..]);
      assert Encode(s) == EncodeChar(s[0]) + Encode(s[1..]);
      DecodeEncodedChar(s[0], Encode(s[1..]));
      assert [s[0]] + s[1..] == s;
    }
  }

  /** A string without `%` decodes to itself. */
  lemma {:induction false} DecodeWithoutEscapes(s: string)
    requires forall i :: 0 <= i < |s| ==> s[i] != '%'
    ensures Decode(s) == Some(s)
  {
    if s != [] {
      DecodeWithoutEscapes(s[1..]);
      assert [s[0]] + s[1..] == s;
    }
  }
}
