/**
  The fixture helper `create_pdu` of the encoding tests: the hex dump of a PDU
  is chomped, its spaces and newlines are removed, and the remaining digits are
  packed with Ruby's `pack("H*")` (two digits per octet, high nibble first).
 */
module HexPack {
  import opened Bytes

  /** The line terminators `String#chomp` removes with the default separator. */
  predicate IsLineEnd(c: char) {
    c == '\n' || c == '\r'
  }

  /**
    `String#chomp` with the default separator: one trailing "\r\n", "\n" or
    "\r" is removed, and nothing else.
   */
  function Chomp(s: string): (r: string)
    ensures r <= s
    ensures s[|r|..] in {"", "\n", "\r", "\r\n"}
    ensures |r| == |s| <==> s == [] || !IsLineEnd(s[|s| - 1])
    ensures s[|r|..] == "\n" ==> r == [] || r[|r| - 1] != '\r'
  {
    if |s| >= 2 && s[|s| - 2..] == "\r\n" then
      assert s[|s| - 1] == s[|s| - 2..][1];
      s[..|s| - 2]
    else if |s| >= 1 && IsLineEnd(s[|s| - 1]) then
      assert s[|s| - 1..] == [s[|s| - 1]];
      assert |s| >= 2 ==> s[|s| - 2..] == [s[|s| - 2], s[|s| - 1]];
      s[..|s| - 1]
    else
      assert s[|s|..] == "";
      s
  }

  /** `gsub(c, "")`: every occurrence of `c` is deleted, the rest kept in order. */
  function Without(s: string, c: char): (r: string)
    ensures c !in r
    ensures forall d :: d in r ==> d in s
    ensures |r| <= |s|
  {
    if s == [] then []
    else if s[0] == c then Without(s[1..], c)
    else [s[0]] + Without(s[1..], c)
  }

  /** Deleting from a concatenation deletes from each part. */
  lemma {:induction false} WithoutAppend(a: string, b: string, c: char)
    ensures Without(a + b, c) == Without(a, c) + Without(b, c)
  {
    if a == [] {
      assert a + b == b;
    } else {
      assert (a + b)[1..] == a[1..] + b;
      WithoutAppend(a[1..], b, c);
    }
  }

  /** A string without `c` is left as it is. */
  lemma {:induction false} WithoutAbsent(s: string, c: char)
    requires c !in s
    ensures Without(s, c) == s
  {
    if s != [] {
      WithoutAbsent(s[1..], c);
    }
  }

  /** The characters `pack("H")` reads as ASCII letters. */
  predicate IsAsciiLetter(c: char) {
    ('a' <= c <= 'z') || ('A' <= c <= 'Z')
  }

  /**
    The nibble `pack("H")` takes from one character: the low four bits of its
    code, plus nine (modulo 16) when the character is an ASCII letter.
   */
  function Nibble(c: char): (v: int)
    ensures 0 <= v < 16
  {
    var code := c as int;
    if IsAsciiLetter(c) then (code % 16 + 9) % 16 else code % 16
  }

  predicate IsHexDigit(c: char) {
    ('0' <= c <= '9') || ('a' <= c <= 'f') || ('A' <= c <= 'F')
  }

  /** The conventional value of a hexadecimal digit, in either case. */
  function HexDigitValue(c: char): (v: int)
    requires IsHexDigit(c)
  {
    if '0' <= c <= '9' then c as int - '0' as int
    else if 'a' <= c <= 'f' then c as int - 'a' as int + 10
    else c as int - 'A' as int + 10
  }

  /** On hexadecimal digits the nibble is the digit's value. */
  lemma NibbleOfHexDigit(c: char)
    requires IsHexDigit(c)
    ensures Nibble(c) == HexDigitValue(c)
  {
  }

  /**
    `pack("H*")`: each pair of digits becomes one octet, the first digit giving
    the high nibble; an odd last digit gives an octet whose low nibble is zero.
   */
  function PackHex(s: string): (r: seq<byte>)
    ensures |r| == (|s| + 1) / 2
  {
    if |s| == 0 then []
    else if |s| == 1 then [Nibble(s[0]) * 16]
    else [Nibble(s[0]) * 16 + Nibble(s[1])] + PackHex(s[2..])
  }

  /**
    Octet `i` of the packed string holds digits `2 * i` (high nibble) and
    `2 * i + 1` (low nibble); an odd last digit is padded with a zero nibble.
   */
  lemma {:induction false} PackHexAt(s: string, i: nat)
    requires i < (|s| + 1) / 2
    ensures 2 * i + 1 < |s| ==> PackHex(s)[i] == Nibble(s[2 * i]) * 16 + Nibble(s[2 * i + 1])
    ensures 2 * i + 1 == |s| ==> PackHex(s)[i] == Nibble(s[2 * i]) * 16
  {
    if i > 0 {
      var t := s[2..];
      PackHexAt(t, i - 1);
      assert PackHex(s) == [Nibble(s[0]) * 16 + Nibble(s[1])] + PackHex(t);
      assert PackHex(s)[i] == PackHex(t)[i - 1];
      assert t[2 * (i - 1)] == s[2 * i];
      assert 2 * (i - 1) + 1 < |t| ==> t[2 * (i - 1) + 1] == s[2 * i + 1];
    }
  }

  /** Packing a concatenation whose first part has an even number of digits packs each part. */
  lemma {:induction false} PackHexAppend(a: string, b: string)
    requires |a| % 2 == 0
    ensures PackHex(a + b) == PackHex(a) + PackHex(b)
  {
    if a == [] {
      assert a + b == b;
    } else {
      assert (a + b)[2..] == a[2..] + b;
      PackHexAppend(a[2..], b);
    }
  }

  /** The lower-case digit for a nibble. */
  function LowerHexDigit(v: int): (c: char)
    requires 0 <= v < 16
    ensures IsHexDigit(c) && HexDigitValue(c) == v
  {
    if v < 10 then ('0' as int + v) as char else ('a' as int + v - 10) as char
  }

  /** The hex dump of octets, two lower-case digits per octet. */
  function HexDump(b: seq<byte>): (s: string)
    ensures |s| == 2 * |b|
  {
    if b == [] then []
    else [LowerHexDigit(b[0] / 16), LowerHexDigit(b[0] % 16)] + HexDump(b[1..])
  }

  /** Packing a hex dump gives back the octets that were dumped. */
  lemma {:induction false} PackHexDump(b: seq<byte>)
    ensures PackHex(HexDump(b)) == b
  {
    if b != [] {
      PackHexDump(b[1..]);
      var s := HexDump(b);
      assert s[2..] == HexDump(b[1..]);
      NibbleOfHexDigit(s[0]);
      NibbleOfHexDigit(s[1]);
    }
  }

  /** A string made of even-length runs of lower-case hex digits. */
  predicate IsLowerHexDump(s: string) {
    |s| % 2 == 0 && forall i :: 0 <= i < |s| ==> IsLowerDigit(s[i])
  }

  /** Dumping what was packed from lower-case digits gives back the digits. */
  lemma {:induction false} HexDumpPack(s: string)
    requires IsLowerHexDump(s)
    ensures HexDump(PackHex(s)) == s
    decreases |s|
  {
    if s != [] {
      assert IsLowerHexDump(s[2..]);
      HexDumpPack(s[2..]);
      HexDumpPackStep(s);
      assert s == [s[0], s[1]] + s[2..];
    }
  }

  /** The first two digits come back as the first two digits of the dump. */
  lemma HexDumpPackStep(s: string)
    requires IsLowerHexDump(s) && s != []
    ensures HexDump(PackHex(s)) == [s[0], s[1]] + HexDump(PackHex(s[2..]))
  {
    var c0, c1 := s[0], s[1];
    assert IsLowerDigit(c0) && IsLowerDigit(c1);
    var q := PackHex(s[2..]);
    assert PackHex(s) == [Nibble(c0) * 16 + Nibble(c1)] + q;
    DumpPair(c0, c1, q);
  }

  predicate IsLowerDigit(c: char) {
    ('0' <= c <= '9') || ('a' <= c <= 'f')
  }

  /** Two lower-case digits packed into an octet are dumped as those digits. */
  lemma DumpPair(c0: char, c1: char, q: seq<byte>)
    requires IsLowerDigit(c0) && IsLowerDigit(c1)
    ensures HexDump([Nibble(c0) * 16 + Nibble(c1)] + q) == [c0, c1] + HexDump(q)
  {
    var hi, lo := Nibble(c0), Nibble(c1);
    HexDumpCons(hi * 16 + lo, q);
    NibblesOfOctet(hi, lo);
    LowerDigitOfNibble(c0);
    LowerDigitOfNibble(c1);
  }

  /** The dump of a leading octet is its two digits. */
  lemma HexDumpCons(o: byte, rest: seq<byte>)
    ensures HexDump([o] + rest) == [LowerHexDigit(o / 16), LowerHexDigit(o % 16)] + HexDump(rest)
  {
    assert ([o] + rest)[1..] == rest;
  }

  /** An octet's high and low nibbles are its quotient and remainder by 16. */
  lemma NibblesOfOctet(hi: int, lo: int)
    requires 0 <= hi < 16 && 0 <= lo < 16
    ensures (hi * 16 + lo) / 16 == hi && (hi * 16 + lo) % 16 == lo
  {
  }

  lemma LowerDigitOfNibble(c: char)
    requires IsLowerDigit(c)
    ensures LowerHexDigit(Nibble(c)) == c
  {
  }

  /** The digits `create_pdu` packs: the chomped dump without spaces and newlines. */
  function HexDigits(raw: string): (s: string)
    ensures ' ' !in s && '\n' !in s
  {
    Without(Without(Chomp(raw), ' '), '\n')
  }

  /**
    The octets `create_pdu` hands to the parser: the digits with spaces and
    newlines removed, packed two to an octet.
   */
  function CreatePduBytes(raw: string): (r: seq<byte>)
    ensures IsLowerHexDump(HexDigits(raw)) ==> HexDump(r) == HexDigits(raw)
  {
    var digits := HexDigits(raw);
    assert IsLowerHexDump(digits) ==> HexDump(PackHex(digits)) == digits by {
      if IsLowerHexDump(digits) { HexDumpPack(digits); }
    }
    PackHex(digits)
  }
}
