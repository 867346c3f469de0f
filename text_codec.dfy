/**
  Decoding of a deliver_sm short_message into text, chosen by data_coding:
  0 reads HP Roman-8 with a two-octet escape led by 0x8D, 8 reads UCS-2 as
  big-endian 16-bit units. The PDU's `short_message` is that text in UTF-8.
 */
module TextCodec {
  import opened Bytes
  import opened Results
  import Utf8
  import PduParser

  /** data_coding of the HP Roman-8 alphabet with escapes. */
  const Roman8Coding: byte := 0

  /** data_coding of UCS-2. */
  const Ucs2Coding: byte := 8

  /** The lead octet of a two-octet escape in data_coding 0. */
  const EscapeLead: byte := 0x8D

  /**
    The HP Roman-8 character table. Its contents are not part of this model:
    a decoder is given one, and the fixtures assume only printable ASCII and
    two other entries of it (`AgreesWithFixtures`).
   */
  type Roman8Table = byte -> char

  /**
    What the model assumes of the table: every printable ASCII octet is
    itself in HP Roman-8 (most of them appear in no fixture), 0xBB is '£'
    and 0xC5 is 'é'.
   */
  predicate AgreesWithFixtures(t: Roman8Table) {
    (forall b: byte :: 0x20 <= b < 0x7F ==> t(b) == b as char)
    && t(0xBB) == '\U{A3}' && t(0xC5) == '\U{E9}'
  }

  /**
    The character an escape pair 0x8D `e` stands for, for the eight second
    octets the encoding tests show; None for every other octet.
   */
  function EscapeTarget(e: byte): (r: Option<char>)
    ensures r.Some? <==> e in {0x65, 0x28, 0x29, 0x5B, 0x5C, 0x5D, 0x7C, 0x7E}
    ensures r == Some('\U{20AC}') <==> e == 0x65
    ensures r.Some? && e != 0x65 ==> r.value as int < 0x80
  {
    if e == 0x65 then Some('\U{20AC}')
    else if e == 0x28 then Some('{')
    else if e == 0x29 then Some('}')
    else if e == 0x5B || e == 0x5C || e == 0x5D || e == 0x7C || e == 0x7E then Some(e as char)
    else None
  }

  /** The eight escape pairs and what each stands for. */
  lemma EscapeTargets()
    ensures EscapeTarget(0x65) == Some('\U{20AC}')
    ensures EscapeTarget(0x28) == Some('{') && EscapeTarget(0x29) == Some('}')
    ensures EscapeTarget(0x5B) == Some('[') && EscapeTarget(0x5D) == Some(']')
    ensures EscapeTarget(0x5C) == Some('\\') && EscapeTarget(0x7C) == Some('|')
    ensures EscapeTarget(0x7E) == Some('~')
    ensures forall e: byte :: EscapeTarget(e).Some? <==> e in {0x65, 0x28, 0x29, 0x5B, 0x5C, 0x5D, 0x7C, 0x7E}
  {
  }

  /**
    Every 0x8D lead octet, reading left to right, is followed by one of the
    eight known second octets. Other payloads have no witnessed decoding.
   */
  predicate EscapesKnown(p: seq<byte>)
    decreases |p|
  {
    if p == [] then true
    else if p[0] == EscapeLead then |p| >= 2 && EscapeTarget(p[1]).Some? && EscapesKnown(p[2..])
    else EscapesKnown(p[1..])
  }

  /**
    data_coding 0: an escape pair becomes the character it stands for, and
    every other octet the character the table gives it.
   */
  function DecodeRoman8(p: seq<byte>, t: Roman8Table): (r: string)
    requires EscapesKnown(p)
    ensures |r| <= |p|
    decreases |p|
  {
    if p == [] then []
    else if p[0] == EscapeLead then [EscapeTarget(p[1]).value] + DecodeRoman8(p[2..], t)
    else [t(p[0])] + DecodeRoman8(p[1..], t)
  }

  /**
    A payload whose escapes are complete can be followed by any other: the
    decoding of the whole is the two decodings side by side.
   */
  lemma {:induction false} Roman8Append(a: seq<byte>, b: seq<byte>, t: Roman8Table)
    requires EscapesKnown(a)
    ensures EscapesKnown(a + b) <==> EscapesKnown(b)
    ensures EscapesKnown(b) ==> DecodeRoman8(a + b, t) == DecodeRoman8(a, t) + DecodeRoman8(b, t)
    decreases |a|
  {
    if a == [] {
      assert a + b == b;
    } else if a[0] == EscapeLead {
      assert (a + b)[2..] == a[2..] + b;
      Roman8Append(a[2..], b, t);
    } else {
      assert (a + b)[1..] == a[1..] + b;
      Roman8Append(a[1..], b, t);
    }
  }

  /** Without escape leads, each octet becomes exactly the character the table gives it. */
  lemma {:induction false} Roman8WithoutEscapes(p: seq<byte>, t: Roman8Table)
    requires EscapeLead !in p
    ensures EscapesKnown(p)
    ensures |DecodeRoman8(p, t)| == |p|
    ensures forall i :: 0 <= i < |p| ==> DecodeRoman8(p, t)[i] == t(p[i])
    decreases |p|
  {
    if p != [] {
      assert p[0] in p;
      assert forall x :: x in p[1..] ==> x in p;
      Roman8WithoutEscapes(p[1..], t);
    }
  }

  /** An escape pair between two complete payloads becomes exactly one character. */
  lemma Roman8EscapePair(a: seq<byte>, e: byte, b: seq<byte>, t: Roman8Table)
    requires EscapesKnown(a) && EscapesKnown(b) && EscapeTarget(e).Some?
    ensures EscapesKnown(a + [EscapeLead, e] + b)
    ensures DecodeRoman8(a + [EscapeLead, e] + b, t)
         == DecodeRoman8(a, t) + [EscapeTarget(e).value] + DecodeRoman8(b, t)
  {
    var pair := [EscapeLead, e];
    var tail := pair + b;
    assert a + pair + b == a + tail;
    assert pair[2..] == [];
    assert DecodeRoman8(pair, t) == [EscapeTarget(e).value];
    Roman8Append(pair, b, t);
    assert EscapesKnown(tail) && DecodeRoman8(tail, t) == [EscapeTarget(e).value] + DecodeRoman8(b, t);
    Roman8Append(a, tail, t);
    assert DecodeRoman8(a + tail, t) == DecodeRoman8(a, t) + DecodeRoman8(tail, t);
  }

  /** Printable ASCII octets: under a table that agrees with the tests, each decodes to itself. */
  predicate IsPrintableAscii(p: seq<byte>) {
    forall i :: 0 <= i < |p| ==> 0x20 <= p[i] < 0x7F
  }

  lemma Roman8PrintableAscii(p: seq<byte>, t: Roman8Table)
    requires AgreesWithFixtures(t) && IsPrintableAscii(p)
    ensures EscapesKnown(p)
    ensures DecodeRoman8(p, t) == seq(|p|, i requires 0 <= i < |p| => p[i] as char)
  {
    assert EscapeLead !in p by {
      forall i | 0 <= i < |p| ensures p[i] != EscapeLead { }
    }
    Roman8WithoutEscapes(p, t);
  }

  // ---------------------------------------------------------------------
  // UCS-2
  // ---------------------------------------------------------------------

  /**
    An even number of octets whose 16-bit units are not surrogates: each unit
    is then one whole character. (Odd lengths and surrogates have no
    witnessed decoding.)
   */
  predicate Ucs2Decodable(p: seq<byte>)
    decreases |p|
  {
    if |p| < 2 then p == []
    else !(0xD8 <= p[0] < 0xE0) && Ucs2Decodable(p[2..])
  }

  /** data_coding 8: each big-endian pair of octets is one character. */
  function DecodeUcs2(p: seq<byte>): (r: string)
    requires Ucs2Decodable(p)
    ensures 2 * |r| == |p|
    decreases |p|
  {
    if p == [] then []
    else [(p[0] as int * 0x100 + p[1] as int) as char] + DecodeUcs2(p[2..])
  }

  /** Character `i` is the unit made of octets `2 * i` (high) and `2 * i + 1` (low). */
  lemma {:induction false} Ucs2At(p: seq<byte>, i: nat)
    requires Ucs2Decodable(p) && i < |p| / 2
    ensures DecodeUcs2(p)[i] as int == p[2 * i] as int * 0x100 + p[2 * i + 1] as int
    decreases |p|
  {
    if i > 0 {
      Ucs2At(p[2..], i - 1);
    }
  }

  /** Characters that fit in one UCS-2 unit. */
  predicate InBasicPlane(s: string) {
    forall i :: 0 <= i < |s| ==> s[i] as int < 0x1_0000
  }

  /** The UCS-2 octets of a text of the Basic Multilingual Plane, high octet first. */
  function EncodeUcs2(s: string): (p: seq<byte>)
    requires InBasicPlane(s)
    ensures |p| == 2 * |s|
  {
    if s == [] then []
    else [s[0] as int / 0x100, s[0] as int % 0x100] + EncodeUcs2(s[1..])
  }

  /** Decoding undoes encoding. */
  lemma {:induction false} DecodeEncodeUcs2(s: string)
    requires InBasicPlane(s)
    ensures Ucs2Decodable(EncodeUcs2(s)) && DecodeUcs2(EncodeUcs2(s)) == s
  {
    if s != [] {
      var p := EncodeUcs2(s);
      assert p[2..] == EncodeUcs2(s[1..]);
      DecodeEncodeUcs2(s[1..]);
      assert s == [s[0]] + s[1..];
    }
  }

  /** Encoding undoes decoding. */
  lemma {:induction false} EncodeDecodeUcs2(p: seq<byte>)
    requires Ucs2Decodable(p)
    ensures InBasicPlane(DecodeUcs2(p)) && EncodeUcs2(DecodeUcs2(p)) == p
    decreases |p|
  {
    if p != [] {
      EncodeDecodeUcs2(p[2..]);
      var s := DecodeUcs2(p);
      assert s[1..] == DecodeUcs2(p[2..]);
      assert p == [p[0], p[1]] + p[2..];
    }
  }

  // ---------------------------------------------------------------------
  // Dispatch on data_coding
  // ---------------------------------------------------------------------

  /** The payloads whose decoding the encoding tests witness. */
  predicate Decodable(dataCoding: byte, p: seq<byte>) {
    (dataCoding == Roman8Coding && EscapesKnown(p)) || (dataCoding == Ucs2Coding && Ucs2Decodable(p))
  }

  /** The text of a short message with the given data_coding. */
  function DecodeText(dataCoding: byte, p: seq<byte>, t: Roman8Table): (r: string)
    requires Decodable(dataCoding, p)
    ensures dataCoding == Roman8Coding ==> |r| <= |p|
    ensures dataCoding == Roman8Coding && EscapeLead !in p
            ==> |r| == |p| && forall i :: 0 <= i < |p| ==> r[i] == t(p[i])
    ensures dataCoding == Ucs2Coding ==> InBasicPlane(r) && EncodeUcs2(r) == p
  {
    if dataCoding == Roman8Coding then
      assert EscapeLead !in p ==>
               (|DecodeRoman8(p, t)| == |p| && forall i :: 0 <= i < |p| ==> DecodeRoman8(p, t)[i] == t(p[i])) by {
        if EscapeLead !in p { Roman8WithoutEscapes(p, t); }
      }
      DecodeRoman8(p, t)
    else
      EncodeDecodeUcs2(p);
      DecodeUcs2(p)
  }

  /** `short_message` of a parsed deliver_sm: its decoded text in UTF-8. */
  function ShortMessage(b: PduParser.Body, t: Roman8Table): (r: seq<byte>)
    requires Decodable(b.dataCoding, b.shortMessage)
    ensures Utf8.Decode(r) == Some(DecodeText(b.dataCoding, b.shortMessage, t))
  {
    var text := DecodeText(b.dataCoding, b.shortMessage, t);
    Utf8.DecodeEncode(text);
    Utf8.Encode(text)
  }
}
