/**
  UTF-8 as defined in section 3 of RFC 3629: the form in which the encoding
  tests compare decoded short messages.
 */
module Utf8 {
  import opened Bytes
  import opened Results

  /** The one to four octets of a character, most significant bits first. */
  function EncodeChar(c: char): (r: seq<byte>)
  {
    var n := c as int;
    if n < 0x80 then [n]
    else if n < 0x800 then [0xC0 + n / 0x40, 0x80 + n % 0x40]
    else if n < 0x1_0000 then [0xE0 + n / 0x1000, 0x80 + (n / 0x40) % 0x40, 0x80 + n % 0x40]
    else [0xF0 + n / 0x4_0000, 0x80 + (n / 0x1000) % 0x40, 0x80 + (n / 0x40) % 0x40, 0x80 + n % 0x40]
  }

  /** The octets of a text: each character's octets in order. */
  function Encode(s: string): (r: seq<byte>)
    ensures |r| >= |s|
  {
    if s == [] then [] else EncodeChar(s[0]) + Encode(s[1..])
  }

  /**
    The length classes of section 3 of RFC 3629: one octet below U+0080, two
    up to U+07FF, three up to U+FFFF and four above.
   */
  lemma EncodedLength(c: char)
    ensures |EncodeChar(c)| == 1 <==> c as int < 0x80
    ensures |EncodeChar(c)| == 2 <==> 0x80 <= c as int < 0x800
    ensures |EncodeChar(c)| == 3 <==> 0x800 <= c as int < 0x1_0000
    ensures |EncodeChar(c)| == 4 <==> 0x1_0000 <= c as int
  {
  }

  predicate IsContinuation(x: byte) {
    0x80 <= x < 0xC0
  }

  /**
    The character at the start of `b` and the number of octets it takes, if
    `b` starts with a well-formed sequence: no overlong form, no surrogate,
    nothing above U+10FFFF.
   */
  function DecodeChar(b: seq<byte>): (r: Option<(char, nat)>)
    ensures r.Some? ==> 1 <= r.value.1 <= |b|
  {
    if b == [] then None
    else
      var b0: int := b[0];
      if b0 < 0x80 then Some((b0 as char, 1))
      else if 0xC2 <= b0 < 0xE0 && |b| >= 2 && IsContinuation(b[1]) then
        var n: int := (b0 - 0xC0) * 0x40 + (b[1] as int - 0x80);
        Some((n as char, 2))
      else if 0xE0 <= b0 < 0xF0 && |b| >= 3 && IsContinuation(b[1]) && IsContinuation(b[2]) then
        var n: int := (b0 - 0xE0) * 0x1000 + (b[1] as int - 0x80) * 0x40 + (b[2] as int - 0x80);
        if n < 0x800 || (0xD800 <= n < 0xE000) then None else Some((n as char, 3))
      else if 0xF0 <= b0 < 0xF5 && |b| >= 4
           && IsContinuation(b[1]) && IsContinuation(b[2]) && IsContinuation(b[3]) then
        var n: int := (b0 - 0xF0) * 0x4_0000 + (b[1] as int - 0x80) * 0x1000
                      + (b[2] as int - 0x80) * 0x40 + (b[3] as int - 0x80);
        if n < 0x1_0000 || n > 0x10_FFFF then None else Some((n as char, 4))
      else None
  }

  /** The text a well-formed octet string encodes, or None if it is not well formed. */
  function Decode(b: seq<byte>): (r: Option<string>)
    decreases |b|
  {
    if b == [] then Some([])
    else match DecodeChar(b)
      case None => None
      case Some((c, k)) =>
        match Decode(b[k..])
        case None => None
        case Some(rest) => Some([c] + rest)
  }

  /** Each character's octets decode back to it, whatever follows them. */
  lemma DecodeEncodeChar(c: char, rest: seq<byte>)
    ensures DecodeChar(EncodeChar(c) + rest) == Some((c, |EncodeChar(c)|))
  {
    var n := c as int;
    if n < 0x80 {
      assert (EncodeChar(c) + rest)[0] == n;
    } else if n < 0x800 {
      DecodeEncodeTwo(c, rest);
    } else if n < 0x1_0000 {
      DecodeEncodeThree(c, rest);
    } else {
      DecodeEncodeFour(c, rest);
    }
  }

  lemma DecodeEncodeTwo(c: char, rest: seq<byte>)
    requires 0x80 <= c as int < 0x800
    ensures DecodeChar(EncodeChar(c) + rest) == Some((c, 2))
  {
    var n := c as int;
    var b := EncodeChar(c) + rest;
    var hi, r := n / 0x40, n % 0x40;
    assert b[0] == 0xC0 + hi && b[1] == 0x80 + r;
    assert (b[0] as int - 0xC0) * 0x40 + (b[1] as int - 0x80) == n;
  }

  lemma DecodeEncodeThree(c: char, rest: seq<byte>)
    requires 0x800 <= c as int < 0x1_0000
    ensures DecodeChar(EncodeChar(c) + rest) == Some((c, 3))
  {
    var n := c as int;
    var b := EncodeChar(c) + rest;
    var q, m, r := n / 0x1000, (n / 0x40) % 0x40, n % 0x40;
    assert n / 0x40 == q * 0x40 + m;
    assert b[0] == 0xE0 + q && b[1] == 0x80 + m && b[2] == 0x80 + r;
    assert (b[0] as int - 0xE0) * 0x1000 + (b[1] as int - 0x80) * 0x40 + (b[2] as int - 0x80) == n;
  }

  lemma DecodeEncodeFour(c: char, rest: seq<byte>)
    requires 0x1_0000 <= c as int
    ensures DecodeChar(EncodeChar(c) + rest) == Some((c, 4))
  {
    var n := c as int;
    var b := EncodeChar(c) + rest;
    var p, q, m, r := n / 0x4_0000, (n / 0x1000) % 0x40, (n / 0x40) % 0x40, n % 0x40;
    SixBitGroups(n);
    assert b[0] == 0xF0 + p && b[1] == 0x80 + q && b[2] == 0x80 + m && b[3] == 0x80 + r;
  }

  /** A code point above U+FFFF is its three-bit lead and three six-bit groups. */
  lemma SixBitGroups(n: int)
    requires 0x1_0000 <= n < 0x11_0000
    ensures n / 0x4_0000 < 5
    ensures n == (n / 0x4_0000) * 0x4_0000 + ((n / 0x1000) % 0x40) * 0x1000 + ((n / 0x40) % 0x40) * 0x40 + n % 0x40
  {
    var p, q, m, r := n / 0x4_0000, (n / 0x1000) % 0x40, (n / 0x40) % 0x40, n % 0x40;
    assert n == (n / 0x40) * 0x40 + r;
    assert n / 0x40 == (n / 0x1000) * 0x40 + m;
    assert n / 0x1000 == p * 0x40 + q;
  }

  /** Decoding undoes encoding. */
  lemma {:induction false} DecodeEncode(s: string)
    ensures Decode(Encode(s)) == Some(s)
  {
    if s != [] {
      var e, b := EncodeChar(s[0]), Encode(s);
      assert b == e + Encode(s[1..]);
      DecodeEncodeChar(s[0], Encode(s[1..]));
      assert DecodeChar(b) == Some((s[0], |e|));
      assert b[|e|..] == Encode(s[1..]);
      DecodeEncode(s[1..]);
      assert s == [s[0]] + s[1..];
    }
  }

  /** A well-formed sequence at the start of `b` is that character's encoding. */
  lemma EncodeDecodeChar(b: seq<byte>)
    requires DecodeChar(b).Some?
    ensures b[..DecodeChar(b).value.1] == EncodeChar(DecodeChar(b).value.0)
  {
    var b0: int := b[0];
    if b0 < 0x80 {
    } else if b0 < 0xE0 {
      EncodeDecodeTwo(b);
    } else if b0 < 0xF0 {
      EncodeDecodeThree(b);
    } else {
      EncodeDecodeFour(b);
    }
  }

  lemma EncodeDecodeTwo(b: seq<byte>)
    requires DecodeChar(b).Some? && 0x80 <= b[0] < 0xE0
    ensures DecodeChar(b).value.1 == 2 && b[..2] == EncodeChar(DecodeChar(b).value.0)
  {
    var x, y: int := b[0] - 0xC0, b[1] - 0x80;
    var n := x * 0x40 + y;
    assert DecodeChar(b).value.0 as int == n;
    assert n / 0x40 == x && n % 0x40 == y;
  }

  lemma EncodeDecodeThree(b: seq<byte>)
    requires DecodeChar(b).Some? && 0xE0 <= b[0] < 0xF0
    ensures DecodeChar(b).value.1 == 3 && b[..3] == EncodeChar(DecodeChar(b).value.0)
  {
    var x, y, z: int := b[0] - 0xE0, b[1] - 0x80, b[2] - 0x80;
    var n := x * 0x1000 + y * 0x40 + z;
    assert DecodeChar(b).value.0 as int == n;
    JoinedGroups(0, x, y, z);
  }

  lemma EncodeDecodeFour(b: seq<byte>)
    requires DecodeChar(b).Some? && 0xF0 <= b[0]
    ensures DecodeChar(b).value.1 == 4 && b[..4] == EncodeChar(DecodeChar(b).value.0)
  {
    var w, x, y, z: int := b[0] - 0xF0, b[1] - 0x80, b[2] - 0x80, b[3] - 0x80;
    var n := w * 0x4_0000 + x * 0x1000 + y * 0x40 + z;
    assert DecodeChar(b).value.0 as int == n;
    JoinedGroups(w, x, y, z);
  }

  /** Six-bit groups put side by side are read back by division and remainder. */
  lemma JoinedGroups(w: int, x: int, y: int, z: int)
    requires 0 <= w && 0 <= x < 0x40 && 0 <= y < 0x40 && 0 <= z < 0x40
    ensures var n := w * 0x4_0000 + x * 0x1000 + y * 0x40 + z;
            n / 0x4_0000 == w && (n / 0x1000) % 0x40 == x && (n / 0x40) % 0x40 == y && n % 0x40 == z
            && n / 0x1000 == w * 0x40 + x
  {
    var n := w * 0x4_0000 + x * 0x1000 + y * 0x40 + z;
    var hi, mid := w * 0x40 + x, w * 0x1000 + x * 0x40 + y;
    assert n == w * 0x4_0000 + (x * 0x1000 + y * 0x40 + z);
    ShiftOut18(w, x * 0x1000 + y * 0x40 + z);
    assert n == hi * 0x1000 + (y * 0x40 + z);
    ShiftOut12(hi, y * 0x40 + z);
    ShiftOut6(w, x);
    assert n == mid * 0x40 + z && mid == hi * 0x40 + y;
    ShiftOut6(mid, z);
    ShiftOut6(hi, y);
  }

  /** Dividing by 2^6 undoes a shift by six bits. */
  lemma ShiftOut6(a: int, r: int)
    requires 0 <= r < 0x40
    ensures (a * 0x40 + r) / 0x40 == a && (a * 0x40 + r) % 0x40 == r
  {
  }

  /** Dividing by 2^12 undoes a shift by twelve bits. */
  lemma ShiftOut12(a: int, r: int)
    requires 0 <= r < 0x1000
    ensures (a * 0x1000 + r) / 0x1000 == a
  {
  }

  /** Dividing by 2^18 undoes a shift by eighteen bits. */
  lemma ShiftOut18(a: int, r: int)
    requires 0 <= r < 0x4_0000
    ensures (a * 0x4_0000 + r) / 0x4_0000 == a
  {
  }

  /** Encoding undoes decoding: only the one encoding of a text decodes to it. */
  lemma {:induction false} EncodeDecode(b: seq<byte>)
    requires Decode(b).Some?
    ensures Encode(Decode(b).value) == b
    decreases |b|
  {
    if b != [] {
      var (c, k) := DecodeChar(b).value;
      var rest := Decode(b[k..]).value;
      assert Decode(b) == Some([c] + rest);
      EncodeDecodeChar(b);
      EncodeDecode(b[k..]);
      EncodedPieces(b, k, c, rest);
    }
  }

  /** An octet string cut into a character's encoding and a text's encoding encodes the two together. */
  lemma EncodedPieces(b: seq<byte>, k: nat, c: char, rest: string)
    requires k <= |b| && b[..k] == EncodeChar(c) && b[k..] == Encode(rest)
    ensures Encode([c] + rest) == b
  {
    assert ([c] + rest)[0] == c && ([c] + rest)[1..] == rest;
    assert b[..k] + b[k..] == b;
  }

  /** A text's first character is encoded first. */
  lemma EncodeCons(c: char, s: string)
    ensures Encode([c] + s) == EncodeChar(c) + Encode(s)
  {
    assert ([c] + s)[1..] == s;
  }

  /** The encoding of a concatenation is the concatenation of the encodings. */
  lemma {:induction false} EncodeAppend(a: string, b: string)
    ensures Encode(a + b) == Encode(a) + Encode(b)
  {
    if a == [] {
      assert a + b == b;
    } else {
      assert (a + b)[1..] == a[1..] + b;
      EncodeAppend(a[1..], b);
    }
  }

  predicate IsAscii(s: string) {
    forall i :: 0 <= i < |s| ==> s[i] as int < 0x80
  }

  /** The codes of an ASCII text, one octet per character. */
  function AsciiOctets(s: string): (r: seq<byte>)
    requires IsAscii(s)
  {
    seq(|s|, i requires 0 <= i < |s| => s[i] as int)
  }

  /** ASCII text is its own encoding, one octet per character. */
  lemma {:induction false} EncodeAscii(s: string)
    requires IsAscii(s)
    ensures Encode(s) == AsciiOctets(s)
  {
    if s != [] {
      EncodeAscii(s[1..]);
      assert AsciiOctets(s) == [s[0] as int] + AsciiOctets(s[1..]);
    }
  }
}
