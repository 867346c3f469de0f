/**
  The SMPP v3.4 PDU header and the deliver_sm body, read as the encoding tests
  expect (section 4.6.1 of SMPP v3.4 gives the field order). Two departures
  from a strict reading of the standard are part of the behaviour:
  command_length is never compared with the buffer, and a short_message whose
  sm_length runs past the buffer is cut short instead of refused.
 */
module PduParser {
  import opened Bytes
  import opened Results

  /** command_id of deliver_sm (section 5.1.2.1 of SMPP v3.4). */
  const DeliverSmId: uint32 := 0x0000_0005

  /** Four 32-bit fields precede every body. */
  const HeaderLength: nat := 16

  datatype Header = Header(
    commandLength: uint32,
    commandId: uint32,
    commandStatus: uint32,
    sequenceNumber: uint32)

  /**
    The deliver_sm body. C-Octet strings are kept without their terminating
    NUL; `shortMessage` holds the raw octets, before any text decoding.
   */
  datatype Body = Body(
    serviceType: seq<byte>,
    sourceAddrTon: byte,
    sourceAddrNpi: byte,
    sourceAddr: seq<byte>,
    destAddrTon: byte,
    destAddrNpi: byte,
    destinationAddr: seq<byte>,
    esmClass: byte,
    protocolId: byte,
    priorityFlag: byte,
    scheduleDeliveryTime: seq<byte>,
    validityPeriod: seq<byte>,
    registeredDelivery: byte,
    replaceIfPresentFlag: byte,
    dataCoding: byte,
    smDefaultMsgId: byte,
    smLength: byte,
    shortMessage: seq<byte>)

  /** A parsed PDU; only deliver_sm has its body read in this model. */
  datatype Pdu =
    | DeliverSm(header: Header, body: Body)
    | OtherCommand(header: Header)

  datatype ParseError =
    | ShortHeader        // fewer than 16 octets: no complete header
    | MissingTerminator  // a C-Octet string runs to the end without a NUL
    | MissingField       // the body ends before a one-octet field

  /** A C-Octet string: the octets before the first NUL, and what follows that NUL. */
  function CString(s: seq<byte>): (r: Result<(seq<byte>, seq<byte>), ParseError>)
    ensures r.Ok? <==> 0 in s
    ensures r.Ok? ==> 0 !in r.value.0 && s == r.value.0 + [0] + r.value.1
    ensures r.Err? ==> r.error == MissingTerminator
  {
    if s == [] then Err(MissingTerminator)
    else if s[0] == 0 then Ok(([], s[1..]))
    else
      var tail :- CString(s[1..]);
      Ok(([s[0]] + tail.0, tail.1))
  }

  /** An Integer field one octet wide, and what follows it. */
  function Octet(s: seq<byte>): (r: Result<(byte, seq<byte>), ParseError>)
    ensures r.Ok? <==> s != []
    ensures r.Ok? ==> s == [r.value.0] + r.value.1
    ensures r.Err? ==> r.error == MissingField
  {
    if s == [] then Err(MissingField) else Ok((s[0], s[1..]))
  }

  /** At most the first `n` octets of `s`: what remains when sm_length asks for more is taken as it is. */
  function TakeAtMost(s: seq<byte>, n: nat): (r: seq<byte>)
    ensures r <= s
    ensures |r| == if |s| <= n then |s| else n
  {
    if |s| <= n then s else s[..n]
  }

  /**
    The deliver_sm body: every field in the order of section 4.6.1 of SMPP
    v3.4, then sm_length octets of short_message, or fewer when the buffer
    ends first. Octets after the short message (optional parameters) are
    ignored.
   */
  function ParseBody(s: seq<byte>): (r: Result<Body, ParseError>)
    ensures 0 !in s ==> r == Err(MissingTerminator)
    ensures r.Err? ==> r.error != ShortHeader
    ensures r.Ok? ==> |r.value.shortMessage| <= r.value.smLength
  {
    var serviceType :- CString(s);
    var sourceAddrTon :- Octet(serviceType.1);
    var sourceAddrNpi :- Octet(sourceAddrTon.1);
    var sourceAddr :- CString(sourceAddrNpi.1);
    var destAddrTon :- Octet(sourceAddr.1);
    var destAddrNpi :- Octet(destAddrTon.1);
    var destinationAddr :- CString(destAddrNpi.1);
    var esmClass :- Octet(destinationAddr.1);
    var protocolId :- Octet(esmClass.1);
    var priorityFlag :- Octet(protocolId.1);
    var scheduleDeliveryTime :- CString(priorityFlag.1);
    var validityPeriod :- CString(scheduleDeliveryTime.1);
    var registeredDelivery :- Octet(validityPeriod.1);
    var replaceIfPresentFlag :- Octet(registeredDelivery.1);
    var dataCoding :- Octet(replaceIfPresentFlag.1);
    var smDefaultMsgId :- Octet(dataCoding.1);
    var smLength :- Octet(smDefaultMsgId.1);
    Ok(Body(
      serviceType.0, sourceAddrTon.0, sourceAddrNpi.0, sourceAddr.0,
      destAddrTon.0, destAddrNpi.0, destinationAddr.0,
      esmClass.0, protocolId.0, priorityFlag.0,
      scheduleDeliveryTime.0, validityPeriod.0,
      registeredDelivery.0, replaceIfPresentFlag.0,
      dataCoding.0, smDefaultMsgId.0, smLength.0,
      TakeAtMost(smLength.1, smLength.0)))
  }

  /** The header: four big-endian 32-bit fields. */
  function ParseHeader(buf: seq<byte>): (h: Header)
    requires |buf| >= HeaderLength
    ensures HeaderBytes(h) == buf[..HeaderLength]
  {
    BytesOfBe32(buf[0], buf[1], buf[2], buf[3]);
    BytesOfBe32(buf[4], buf[5], buf[6], buf[7]);
    BytesOfBe32(buf[8], buf[9], buf[10], buf[11]);
    BytesOfBe32(buf[12], buf[13], buf[14], buf[15]);
    assert buf[..HeaderLength] == buf[0..4] + buf[4..8] + buf[8..12] + buf[12..16];
    Header(
      Be32(buf[0], buf[1], buf[2], buf[3]),
      Be32(buf[4], buf[5], buf[6], buf[7]),
      Be32(buf[8], buf[9], buf[10], buf[11]),
      Be32(buf[12], buf[13], buf[14], buf[15]))
  }

  /**
    A whole PDU: the header, then, for command_id 5, the deliver_sm body.
    command_length is read but not compared with the buffer's length.
   */
  function Parse(buf: seq<byte>): (r: Result<Pdu, ParseError>)
    ensures |buf| < HeaderLength <==> r == Err(ShortHeader)
    ensures r.Ok? ==> |buf| >= HeaderLength && r.value.header == ParseHeader(buf)
    ensures r.Ok? ==> (r.value.DeliverSm? <==> r.value.header.commandId == DeliverSmId)
    ensures |buf| >= HeaderLength && ParseHeader(buf).commandId != DeliverSmId ==> r.Ok?
  {
    if |buf| < HeaderLength then Err(ShortHeader)
    else
      var header := ParseHeader(buf);
      if header.commandId != DeliverSmId then Ok(OtherCommand(header))
      else
        var body :- ParseBody(buf[HeaderLength..]);
        Ok(DeliverSm(header, body))
  }

  // ---------------------------------------------------------------------
  // The wire layout, written out field by field
  // ---------------------------------------------------------------------

  function HeaderBytes(h: Header): (r: seq<byte>)
    ensures |r| == HeaderLength
  {
    Be32Bytes(h.commandLength) + Be32Bytes(h.commandId)
      + Be32Bytes(h.commandStatus) + Be32Bytes(h.sequenceNumber)
  }

  /** The body's C-Octet strings hold no NUL, so each ends at its terminator. */
  predicate StringsWithoutNul(b: Body) {
    0 !in b.serviceType && 0 !in b.sourceAddr && 0 !in b.destinationAddr
    && 0 !in b.scheduleDeliveryTime && 0 !in b.validityPeriod
  }

  /** The octets of every body field up to and including sm_length, followed by `tail`. */
  function BodyLayout(b: Body, tail: seq<byte>): seq<byte> {
    b.serviceType + [0] + ([b.sourceAddrTon] + ([b.sourceAddrNpi] +
    (b.sourceAddr + [0] + ([b.destAddrTon] + ([b.destAddrNpi] +
    (b.destinationAddr + [0] + ([b.esmClass] + ([b.protocolId] + ([b.priorityFlag] +
    (b.scheduleDeliveryTime + [0] + (b.validityPeriod + [0] +
    ([b.registeredDelivery] + ([b.replaceIfPresentFlag] + ([b.dataCoding] +
    ([b.smDefaultMsgId] + ([b.smLength] + tail))))))))))))))))
  }

  /** A deliver_sm PDU as it goes on the wire. */
  function Encode(h: Header, b: Body): seq<byte> {
    HeaderBytes(h) + BodyLayout(b, b.shortMessage)
  }

  // ---------------------------------------------------------------------
  // What the parser reads from a laid-out buffer
  // ---------------------------------------------------------------------

  /** A C-Octet string followed by its NUL is read back exactly, and reading stops at that NUL. */
  lemma {:induction false} CStringOf(str: seq<byte>, tail: seq<byte>)
    requires 0 !in str
    ensures CString(str + [0] + tail) == Ok((str, tail))
  {
    if str == [] {
      assert str + [0] + tail == [0] + tail;
    } else {
      assert (str + [0] + tail)[1..] == str[1..] + [0] + tail;
      CStringOf(str[1..], tail);
      assert [str[0]] + str[1..] == str;
    }
  }

  /**
    Every field up to sm_length is read from where the layout puts it, and
    short_message is the next sm_length octets, or all that remain when
    fewer remain.
   */
  lemma ParseBodyOfLayout(b: Body, tail: seq<byte>)
    requires StringsWithoutNul(b)
    ensures ParseBody(BodyLayout(b, tail)) == Ok(b.(shortMessage := TakeAtMost(tail, b.smLength)))
  {
    var s16 := [b.smLength] + tail;
    var s15 := [b.smDefaultMsgId] + s16;
    var s14 := [b.dataCoding] + s15;
    var s13 := [b.replaceIfPresentFlag] + s14;
    var s12 := [b.registeredDelivery] + s13;
    var s11 := b.validityPeriod + [0] + s12;
    var s10 := b.scheduleDeliveryTime + [0] + s11;
    var s9 := [b.priorityFlag] + s10;
    var s8 := [b.protocolId] + s9;
    var s7 := [b.esmClass] + s8;
    var s6 := b.destinationAddr + [0] + s7;
    var s5 := [b.destAddrNpi] + s6;
    var s4 := [b.destAddrTon] + s5;
    var s3 := b.sourceAddr + [0] + s4;
    var s2 := [b.sourceAddrNpi] + s3;
    var s1 := [b.sourceAddrTon] + s2;
    assert BodyLayout(b, tail) == b.serviceType + [0] + s1;
    CStringOf(b.serviceType, s1);
    CStringOf(b.sourceAddr, s4);
    CStringOf(b.destinationAddr, s7);
    CStringOf(b.scheduleDeliveryTime, s11);
    CStringOf(b.validityPeriod, s12);
  }

  /** The header is read back from its four big-endian fields. */
  lemma ParseHeaderOf(h: Header, rest: seq<byte>)
    ensures ParseHeader(HeaderBytes(h) + rest) == h
  {
    var buf := HeaderBytes(h) + rest;
    Be32OfBytes(h.commandLength);
    Be32OfBytes(h.commandId);
    Be32OfBytes(h.commandStatus);
    Be32OfBytes(h.sequenceNumber);
    assert buf[0..4] == Be32Bytes(h.commandLength);
    assert buf[4..8] == Be32Bytes(h.commandId);
    assert buf[8..12] == Be32Bytes(h.commandStatus);
    assert buf[12..16] == Be32Bytes(h.sequenceNumber);
  }

  /**
    A buffer laid out as a deliver_sm header and body parses as deliver_sm
    with exactly those fields, whatever command_length says, and with
    short_message cut to the octets that remain.
   */
  lemma ParseOfLayout(h: Header, b: Body, tail: seq<byte>)
    requires h.commandId == DeliverSmId && StringsWithoutNul(b)
    ensures Parse(HeaderBytes(h) + BodyLayout(b, tail))
         == Ok(DeliverSm(h, b.(shortMessage := TakeAtMost(tail, b.smLength))))
  {
    var buf := HeaderBytes(h) + BodyLayout(b, tail);
    ParseHeaderOf(h, BodyLayout(b, tail));
    assert buf[HeaderLength..] == BodyLayout(b, tail);
    ParseBodyOfLayout(b, tail);
  }

  /** Appending octets after a layout appends them to its tail. */
  lemma BodyLayoutAppend(b: Body, tail: seq<byte>, more: seq<byte>)
    ensures BodyLayout(b, tail) + more == BodyLayout(b, tail + more)
  {
  }

  /**
    Encoding round trip: a deliver_sm whose sm_length counts its short_message
    parses back to itself, whatever optional parameters follow it.
   */
  lemma ParseEncode(h: Header, b: Body, options: seq<byte>)
    requires h.commandId == DeliverSmId && StringsWithoutNul(b)
    requires |b.shortMessage| == b.smLength
    ensures Parse(Encode(h, b) + options) == Ok(DeliverSm(h, b))
  {
    var tail := b.shortMessage + options;
    var hd, layout := HeaderBytes(h), BodyLayout(b, b.shortMessage);
    Reassociate(hd, layout, options);
    BodyLayoutAppend(b, b.shortMessage, options);
    ParseOfLayout(h, b, tail);
    PrefixOfAppend(b.shortMessage, options);
    assert b.(shortMessage := TakeAtMost(tail, b.smLength)) == b;
  }

  lemma Reassociate(a: seq<byte>, b: seq<byte>, c: seq<byte>)
    ensures a + b + c == a + (b + c)
  {
  }

  /** Taking as many octets as the first part holds gives back the first part. */
  lemma PrefixOfAppend(a: seq<byte>, c: seq<byte>)
    ensures TakeAtMost(a + c, |a|) == a
  {
    assert (a + c)[..|a|] == a;
  }

  /**
    When sm_length asks for more octets than remain, short_message is all of
    the remaining octets and the PDU is still accepted.
   */
  lemma ShortMessageCutShort(h: Header, b: Body, rest: seq<byte>)
    requires h.commandId == DeliverSmId && StringsWithoutNul(b)
    requires |rest| < b.smLength
    ensures var r := Parse(HeaderBytes(h) + BodyLayout(b, rest));
            r.Ok? && r.value.DeliverSm? && r.value.body.shortMessage == rest
  {
    ParseOfLayout(h, b, rest);
  }

  /** The first four octets are read as command_length and as nothing else. */
  lemma HeaderWithLength(buf: seq<byte>, n: uint32)
    requires |buf| >= HeaderLength
    ensures ParseHeader(Be32Bytes(n) + buf[4..]) == ParseHeader(buf).(commandLength := n)
  {
    var r := Be32Bytes(n);
    var buf' := r + buf[4..];
    Be32OfBytes(n);
    assert buf'[0] == r[0] && buf'[1] == r[1] && buf'[2] == r[2] && buf'[3] == r[3];
    assert buf'[4] == buf[4] && buf'[5] == buf[5] && buf'[6] == buf[6] && buf'[7] == buf[7];
    assert buf'[8] == buf[8] && buf'[9] == buf[9] && buf'[10] == buf[10] && buf'[11] == buf[11];
    assert buf'[12] == buf[12] && buf'[13] == buf[13] && buf'[14] == buf[14] && buf'[15] == buf[15];
  }

  /** Overwriting the first four octets leaves the body's octets as they were. */
  lemma BodyAfterNewLength(p: seq<byte>, buf: seq<byte>)
    requires |p| == 4 && |buf| >= HeaderLength
    ensures (p + buf[4..])[HeaderLength..] == buf[HeaderLength..]
  {
  }

  /** `r'` is `r` with command_length replaced by `n`: the same success, the same error, the same fields. */
  predicate SameButLength(r: Result<Pdu, ParseError>, r': Result<Pdu, ParseError>, n: uint32) {
    r'.Ok? == r.Ok?
    && (r.Ok? ==> r'.value == r.value.(header := r.value.header.(commandLength := n)))
    && (r.Err? ==> r'.error == r.error)
  }

  /** Two buffers that differ at most in command_length parse alike but for that field. */
  lemma ParseSameBody(buf: seq<byte>, buf': seq<byte>, n: uint32)
    requires |buf| >= HeaderLength && |buf'| >= HeaderLength
    requires buf'[HeaderLength..] == buf[HeaderLength..]
    requires ParseHeader(buf') == ParseHeader(buf).(commandLength := n)
    ensures SameButLength(Parse(buf), Parse(buf'), n)
  {
    var h, h' := ParseHeader(buf), ParseHeader(buf');
    if h.commandId == DeliverSmId {
      var body := ParseBody(buf[HeaderLength..]);
      assert ParseBody(buf'[HeaderLength..]) == body;
    }
  }

  /**
    command_length is not validated: overwriting the first four octets with
    any value changes nothing but the header's command_length.
   */
  lemma CommandLengthNotChecked(buf: seq<byte>, n: uint32)
    requires |buf| >= HeaderLength
    ensures SameButLength(Parse(buf), Parse(Be32Bytes(n) + buf[4..]), n)
  {
    var buf' := Be32Bytes(n) + buf[4..];
    HeaderWithLength(buf, n);
    BodyAfterNewLength(Be32Bytes(n), buf);
    ParseSameBody(buf, buf', n);
  }

  /**
    Conversely, every body the parser accepts was read from a layout: its
    strings hold no NUL and the octets are that body's fields followed by a
    tail from which short_message was taken.
   */
  lemma ParseBodyComplete(s: seq<byte>)
    requires ParseBody(s).Ok?
    ensures var b := ParseBody(s).value;
            StringsWithoutNul(b)
            && exists tail :: s == BodyLayout(b, tail) && b.shortMessage == TakeAtMost(tail, b.smLength)
  {
    var b := ParseBody(s).value;
    var st := CString(s).value;
    var t1 := Octet(st.1).value;
    var t2 := Octet(t1.1).value;
    var sa := CString(t2.1).value;
    var t4 := Octet(sa.1).value;
    var t5 := Octet(t4.1).value;
    var da := CString(t5.1).value;
    var t7 := Octet(da.1).value;
    var t8 := Octet(t7.1).value;
    var t9 := Octet(t8.1).value;
    var sd := CString(t9.1).value;
    var vp := CString(sd.1).value;
    var t12 := Octet(vp.1).value;
    var t13 := Octet(t12.1).value;
    var t14 := Octet(t13.1).value;
    var t15 := Octet(t14.1).value;
    var t16 := Octet(t15.1).value;
    var tail := t16.1;
    assert s == BodyLayout(b, tail);
  }
}
