/**
  The ten deliver_sm fixtures of the encoding tests, each stated as a lemma:
  the heredoc dump is turned into octets as `create_pdu` does, parsed, and
  its short_message decoded and compared with the text the test expects.

  The solver is slow to evaluate recursive functions over long literals, so
  no fixture is evaluated whole. Small leaf lemmas evaluate half a dump line
  or a few octets at a time, or only cut a literal into pieces
  (`HeaderLineStart`, `PoundLine4End`, ...); generic lemmas over parameters
  (`ThreeLines`, `TwoLinesAndAGroup`, `AroundMiddle`, ...) then join the
  pieces by re-associating concatenations, which the solver does cheaply on
  variables and slowly on literals.
 */
module EncodingFixtures {
  import opened Bytes
  import opened Results
  import opened HexPack
  import opened PduParser
  import opened TextCodec
  import opened Heredocs
  import Utf8

  /** `create_pdu`: the dump's octets, parsed as a PDU. */
  function CreatePdu(raw: string): (r: Result<Pdu, ParseError>)
    ensures |HexDigits(raw)| < 31 <==> r == Err(ShortHeader)
    ensures r.Ok? ==> r.value.header == ParseHeader(CreatePduBytes(raw))
  {
    Parse(CreatePduBytes(raw))
  }

  /**
    A dump of a deliver_sm laid out field by field is parsed back as that
    deliver_sm, its short_message cut to sm_length.
   */
  lemma ParseOfDump(lines: List<List<string>>, h: Header, b: Body, tail: seq<byte>)
    requires lines != Nil && LinesOk(lines)
    requires h.commandId == DeliverSmId && StringsWithoutNul(b)
    requires DumpOctets(lines) == HeaderBytes(h) + BodyLayout(b, tail)
    ensures CreatePdu(Heredoc(lines)) == Ok(DeliverSm(h, b.(shortMessage := TakeAtMost(tail, b.smLength))))
  {
    CreatePduBytesOfHeredoc(lines);
    ParseOfLayout(h, b, tail);
  }

  /**
    What every encoding test asserts of `create_pdu`'s result: a deliver_sm
    with the given data_coding whose short_message is `text` in UTF-8.
   */
  predicate Delivers(r: Result<Pdu, ParseError>, dataCoding: byte, text: string, t: Roman8Table) {
    && r.Ok? && r.value.DeliverSm?
    && r.value.body.dataCoding == dataCoding
    && Decodable(dataCoding, r.value.body.shortMessage)
    && ShortMessage(r.value.body, t) == Utf8.Encode(text)
  }

  // ---------------------------------------------------------------------
  // The three lines every fixture starts with
  // ---------------------------------------------------------------------

  /**
    The dump lines every fixture shares, followed by `rest`: the header
    (command_length 0x3d, command_id 5, command_status 0, sequence_number
    2), an empty service_type, source and destination 447803029837 with
    TON 1 and NPI 1, and esm_class 0.
   */
  function WithSharedLines(rest: List<List<string>>): List<List<string>> {
    Cons(Cons("0000", Cons("003d", Cons("0000", Cons("0005", Cons("0000", Cons("0000", Cons("0000", Cons("0002", Nil)))))))),
    Cons(Cons("0001", Cons("0134", Cons("3437", Cons("3830", Cons("3330", Cons("3239", Cons("3833", Cons("3700", Nil)))))))),
    Cons(Cons("0101", Cons("3434", Cons("3738", Cons("3033", Cons("3032", Cons("3938", Cons("3337", Cons("0000", Nil)))))))),
    rest)))
  }

  const FixtureHeader: Header := Header(0x3d, DeliverSmId, 0, 2)

  /** The address "447803029837" both fixtures' addresses hold. */
  function FixtureAddress(): seq<byte> {
    [0x34, 0x34, 0x37, 0x38, 0x30, 0x33, 0x30, 0x32, 0x39, 0x38, 0x33, 0x37]
  }

  /** The fixtures' deliver_sm body: all fields but the last three are zero, empty or the shared address. */
  function FixtureBody(dataCoding: byte, smLength: byte, shortMessage: seq<byte>): Body {
    Body([], 1, 1, FixtureAddress(), 1, 1, FixtureAddress(), 0, 0, 0, [], [], 0, 0,
      dataCoding, 0, smLength, shortMessage)
  }

  /** No C-Octet string field of the fixture body holds a NUL. */
  lemma FixtureStrings(dataCoding: byte, smLength: byte, shortMessage: seq<byte>)
    ensures StringsWithoutNul(FixtureBody(dataCoding, smLength, shortMessage))
  {
    var a := FixtureAddress();
    forall i | 0 <= i < |a|
      ensures a[i] != 0
    {
    }
  }

  lemma HeaderLineStart()
    ensures LineOctets(Cons("0000", Cons("003d", Cons("0000", Cons("0005", Nil))))) == [0x00, 0x00, 0x00, 0x3d, 0x00, 0x00, 0x00, 0x05]
  {
  }

  lemma HeaderLineEnd()
    ensures LineOctets(Cons("0000", Cons("0000", Cons("0000", Cons("0002", Nil))))) == [0x00, 0x00, 0x00, 0x00, 0x00, 0x00, 0x00, 0x02]
  {
  }

  lemma SourceLineStart()
    ensures LineOctets(Cons("0001", Cons("0134", Cons("3437", Cons("3830", Nil))))) == [0x00, 0x01, 0x01, 0x34, 0x34, 0x37, 0x38, 0x30]
  {
  }

  lemma SourceLineEnd()
    ensures LineOctets(Cons("3330", Cons("3239", Cons("3833", Cons("3700", Nil))))) == [0x33, 0x30, 0x32, 0x39, 0x38, 0x33, 0x37, 0x00]
  {
  }

  lemma DestinationLineStart()
    ensures LineOctets(Cons("0101", Cons("3434", Cons("3738", Cons("3033", Nil))))) == [0x01, 0x01, 0x34, 0x34, 0x37, 0x38, 0x30, 0x33]
  {
  }

  lemma DestinationLineEnd()
    ensures LineOctets(Cons("3032", Cons("3938", Cons("3337", Cons("0000", Nil))))) == [0x30, 0x32, 0x39, 0x38, 0x33, 0x37, 0x00, 0x00]
  {
  }

  /** The first shared line is the header. */
  lemma HeaderLine()
    ensures LineOctets(Cons("0000", Cons("003d", Cons("0000", Cons("0005", Cons("0000", Cons("0000", Cons("0000", Cons("0002", Nil)))))))))
         == [0x00, 0x00, 0x00, 0x3d, 0x00, 0x00, 0x00, 0x05] + [0x00, 0x00, 0x00, 0x00, 0x00, 0x00, 0x00, 0x02]
  {
    HeaderLineStart();
    HeaderLineEnd();
    LineOctetsAppend(Cons("0000", Cons("003d", Cons("0000", Cons("0005", Nil)))), Cons("0000", Cons("0000", Cons("0000", Cons("0002", Nil)))));
  }

  /** The second is service_type, the source TON and NPI and source_addr. */
  lemma SourceLine()
    ensures LineOctets(Cons("0001", Cons("0134", Cons("3437", Cons("3830", Cons("3330", Cons("3239", Cons("3833", Cons("3700", Nil)))))))))
         == [0x00, 0x01, 0x01, 0x34, 0x34, 0x37, 0x38, 0x30] + [0x33, 0x30, 0x32, 0x39, 0x38, 0x33, 0x37, 0x00]
  {
    SourceLineStart();
    SourceLineEnd();
    LineOctetsAppend(Cons("0001", Cons("0134", Cons("3437", Cons("3830", Nil)))), Cons("3330", Cons("3239", Cons("3833", Cons("3700", Nil)))));
  }

  /** The third is the destination TON and NPI, destination_addr and esm_class. */
  lemma DestinationLine()
    ensures LineOctets(Cons("0101", Cons("3434", Cons("3738", Cons("3033", Cons("3032", Cons("3938", Cons("3337", Cons("0000", Nil)))))))))
         == [0x01, 0x01, 0x34, 0x34, 0x37, 0x38, 0x30, 0x33] + [0x30, 0x32, 0x39, 0x38, 0x33, 0x37, 0x00, 0x00]
  {
    DestinationLineStart();
    DestinationLineEnd();
    LineOctetsAppend(Cons("0101", Cons("3434", Cons("3738", Cons("3033", Nil)))), Cons("3032", Cons("3938", Cons("3337", Cons("0000", Nil)))));
  }

  /** The shared lines are well-formed dump lines. */
  lemma SharedLinesOk(rest: List<List<string>>)
    requires LinesOk(rest)
    ensures LinesOk(WithSharedLines(rest))
  {
  }

  /** The shared lines' octets, line after line. */
  lemma SharedLinesOctets(rest: List<List<string>>)
    ensures DumpOctets(WithSharedLines(rest))
         == ([0x00, 0x00, 0x00, 0x3d, 0x00, 0x00, 0x00, 0x05] + [0x00, 0x00, 0x00, 0x00, 0x00, 0x00, 0x00, 0x02])
          + (([0x00, 0x01, 0x01, 0x34, 0x34, 0x37, 0x38, 0x30] + [0x33, 0x30, 0x32, 0x39, 0x38, 0x33, 0x37, 0x00])
          + (([0x01, 0x01, 0x34, 0x34, 0x37, 0x38, 0x30, 0x33] + [0x30, 0x32, 0x39, 0x38, 0x33, 0x37, 0x00, 0x00])
          + DumpOctets(rest)))
  {
    HeaderLine();
    SourceLine();
    DestinationLine();
    var lines := WithSharedLines(rest);
    assert DumpOctets(lines) == LineOctets(lines.head) + DumpOctets(lines.tail);
    assert DumpOctets(lines.tail) == LineOctets(lines.tail.head) + DumpOctets(lines.tail.tail);
    assert DumpOctets(lines.tail.tail) == LineOctets(lines.tail.tail.head) + DumpOctets(rest);
  }

  lemma HeaderOctets()
    ensures [0x00, 0x00, 0x00, 0x3d, 0x00, 0x00, 0x00, 0x05] + [0x00, 0x00, 0x00, 0x00, 0x00, 0x00, 0x00, 0x02]
         == HeaderBytes(FixtureHeader)
  {
  }

  lemma SourceOctets()
    ensures [0x00, 0x01, 0x01, 0x34, 0x34, 0x37, 0x38, 0x30] + [0x33, 0x30, 0x32, 0x39, 0x38, 0x33, 0x37, 0x00]
         == [0x00, 0x01, 0x01] + FixtureAddress() + [0x00]
  {
  }

  lemma DestinationOctets()
    ensures [0x01, 0x01, 0x34, 0x34, 0x37, 0x38, 0x30, 0x33] + [0x30, 0x32, 0x39, 0x38, 0x33, 0x37, 0x00, 0x00]
         == [0x01, 0x01] + FixtureAddress() + [0x00, 0x00]
  {
  }

  /** Laid out, the fixture body is the two address lines' fields, then the fields the fixtures vary. */
  lemma FixtureBodyLayout(dataCoding: byte, smLength: byte, payload: seq<byte>)
    ensures BodyLayout(FixtureBody(dataCoding, smLength, payload), payload)
         == ([0x00, 0x01, 0x01] + FixtureAddress() + [0x00])
          + (([0x01, 0x01] + FixtureAddress() + [0x00, 0x00])
          + ([0, 0, 0, 0, 0, 0, dataCoding, 0, smLength] + payload))
  {
  }

  /** The octets of a fixture are a deliver_sm laid out field by field. */
  lemma FixtureOctets(rest: List<List<string>>, dataCoding: byte, smLength: byte, payload: seq<byte>)
    requires DumpOctets(rest) == [0, 0, 0, 0, 0, 0, dataCoding, 0, smLength] + payload
    ensures DumpOctets(WithSharedLines(rest))
         == HeaderBytes(FixtureHeader) + BodyLayout(FixtureBody(dataCoding, smLength, payload), payload)
  {
    SharedLinesOctets(rest);
    HeaderOctets();
    SourceOctets();
    DestinationOctets();
    FixtureBodyLayout(dataCoding, smLength, payload);
  }

  /**
    A fixture whose own lines give six zero octets, data_coding, a zero
    sm_default_msg_id, sm_length and then a payload is parsed as a
    deliver_sm with that data_coding and that sm_length, whose
    short_message is the payload cut to sm_length.
   */
  lemma FixtureParses(rest: List<List<string>>, dataCoding: byte, smLength: byte, payload: seq<byte>)
    requires LinesOk(rest)
    requires DumpOctets(rest) == [0, 0, 0, 0, 0, 0, dataCoding, 0, smLength] + payload
    ensures CreatePdu(Heredoc(WithSharedLines(rest)))
         == Ok(DeliverSm(FixtureHeader, FixtureBody(dataCoding, smLength, TakeAtMost(payload, smLength))))
  {
    SharedLinesOk(rest);
    FixtureOctets(rest, dataCoding, smLength, payload);
    var b := FixtureBody(dataCoding, smLength, payload);
    FixtureStrings(dataCoding, smLength, payload);
    ParseOfDump(WithSharedLines(rest), FixtureHeader, b, payload);
    assert b.(shortMessage := TakeAtMost(payload, smLength))
        == FixtureBody(dataCoding, smLength, TakeAtMost(payload, smLength));
  }

  /** When the payload fits in sm_length, the short_message is the whole payload. */
  lemma FixtureParsesWhole(rest: List<List<string>>, dataCoding: byte, smLength: byte, payload: seq<byte>)
    requires LinesOk(rest) && |payload| <= smLength as int
    requires DumpOctets(rest) == [0, 0, 0, 0, 0, 0, dataCoding, 0, smLength] + payload
    ensures CreatePdu(Heredoc(WithSharedLines(rest)))
         == Ok(DeliverSm(FixtureHeader, FixtureBody(dataCoding, smLength, payload)))
  {
    FixtureParses(rest, dataCoding, smLength, payload);
    assert TakeAtMost(payload, smLength) == payload;
  }

  // ---------------------------------------------------------------------
  // Decoding helpers
  // ---------------------------------------------------------------------

  /** Printable ASCII text, from the blank to the tilde. */
  predicate IsPrintableText(s: string) {
    forall i :: 0 <= i < |s| ==> ' ' <= s[i] <= '~'
  }

  /** Printable ASCII text, sent one octet per character, is decoded back under a table that agrees with the tests. */
  lemma Roman8OfText(s: string, t: Roman8Table)
    requires AgreesWithFixtures(t) && IsPrintableText(s)
    ensures Utf8.IsAscii(s)
    ensures EscapesKnown(Utf8.AsciiOctets(s)) && DecodeRoman8(Utf8.AsciiOctets(s), t) == s
  {
    var p := Utf8.AsciiOctets(s);
    Roman8PrintableAscii(p, t);
    assert DecodeRoman8(p, t) == s;
  }

  /** A single octet other than the escape lead is the character the table gives it. */
  lemma Roman8OfOctet(x: byte, t: Roman8Table)
    requires x != EscapeLead
    ensures EscapesKnown([x]) && DecodeRoman8([x], t) == [t(x)]
  {
    assert [x][1..] == [];
  }

  /** The octets of two ASCII texts side by side are the two texts' octets side by side. */
  lemma AsciiOctetsAppend(a: string, b: string)
    requires Utf8.IsAscii(a) && Utf8.IsAscii(b)
    ensures Utf8.IsAscii(a + b)
    ensures Utf8.AsciiOctets(a + b) == Utf8.AsciiOctets(a) + Utf8.AsciiOctets(b)
  {
  }

  /**
    The octets of three dump lines, each given in halves, regrouped as the
    varying fields and then a payload of six pieces that the lines split.
   */
  lemma ThreeLines(l1: seq<byte>, l2: seq<byte>, l3: seq<byte>, l4: seq<byte>, l5: seq<byte>, l6: seq<byte>,
                   fields: seq<byte>, a: seq<byte>, b: seq<byte>, x: seq<byte>, c: seq<byte>, d: seq<byte>, y: seq<byte>)
    requires l1 + l2 == fields + a && l3 + l4 == b + x + c && l5 + l6 == d + y
    ensures (l1 + l2) + ((l3 + l4) + ((l5 + l6) + [])) == fields + (a + b + x + c + d + y)
  {
  }

  /** As `ThreeLines`, for a dump whose last line is a single group. */
  lemma TwoLinesAndAGroup(l1: seq<byte>, l2: seq<byte>, l3: seq<byte>, l4: seq<byte>, l5: seq<byte>,
                          fields: seq<byte>, a: seq<byte>, b: seq<byte>, x: seq<byte>, c: seq<byte>, d: seq<byte>)
    requires l1 + l2 == fields + a && l3 + l4 == b + x + c && l5 == d
    ensures (l1 + l2) + ((l3 + l4) + (l5 + [])) == fields + (a + b + x + c + d)
  {
  }

  /** Five pieces, the middle one apart. */
  lemma AroundMiddle<T>(a: seq<T>, b: seq<T>, x: seq<T>, c: seq<T>, d: seq<T>)
    ensures a + b + x + c + d == (a + b) + x + (c + d)
  {
  }

  /** As `ThreeLines`, for a dump of two lines. */
  lemma TwoLines(l1: seq<byte>, l2: seq<byte>, l3: seq<byte>, fields: seq<byte>, a: seq<byte>, b: seq<byte>)
    requires l1 + l2 == fields + a && l3 == b
    ensures (l1 + l2) + (l3 + []) == fields + (a + b)
  {
  }

  // ---------------------------------------------------------------------
  // The pound sign from HP Roman-8
  // ---------------------------------------------------------------------

  /** Four groups of zeros: eight zero octets. */
  lemma ZeroGroups()
    ensures LineOctets(Cons("0000", Cons("0000", Cons("0000", Cons("0000", Nil))))) == [0, 0, 0, 0, 0, 0, 0, 0]
  {
  }

  lemma PoundLine4End()
    ensures LineOctets(Cons("2950", Cons("6C65", Cons("6173", Cons("6520", Nil))))) == [0x29, 0x50, 0x6C, 0x65, 0x61, 0x73, 0x65, 0x20]
  {
  }

  lemma PoundLine5Start()
    ensures LineOctets(Cons("6465", Cons("706F", Cons("7369", Cons("7420", Nil))))) == [0x64, 0x65, 0x70, 0x6F, 0x73, 0x69, 0x74, 0x20]
  {
  }

  lemma PoundLine5End()
    ensures LineOctets(Cons("BB35", Cons("2069", Cons("6E74", Cons("6F20", Nil))))) == [0xBB, 0x35, 0x20, 0x69, 0x6E, 0x74, 0x6F, 0x20]
  {
  }

  lemma PoundLine6Start()
    ensures LineOctets(Cons("6D79", Cons("2061", Cons("6363", Cons("6F75", Nil))))) == [0x6D, 0x79, 0x20, 0x61, 0x63, 0x63, 0x6F, 0x75]
  {
  }

  lemma PoundLine6End()
    ensures LineOctets(Cons("6E74", Cons("2C20", Cons("4A6F", Cons("73C5", Nil))))) == [0x6E, 0x74, 0x2C, 0x20, 0x4A, 0x6F, 0x73, 0xC5]
  {
  }

  /** The pound-sign fixture's own lines. */
  function PoundLines(): List<List<string>> {
    Cons(Cons("0000", Cons("0000", Cons("0000", Cons("0000", Cons("2950", Cons("6C65", Cons("6173", Cons("6520", Nil)))))))),
    Cons(Cons("6465", Cons("706F", Cons("7369", Cons("7420", Cons("BB35", Cons("2069", Cons("6E74", Cons("6F20", Nil)))))))),
    Cons(Cons("6D79", Cons("2061", Cons("6363", Cons("6F75", Cons("6E74", Cons("2C20", Cons("4A6F", Cons("73C5", Nil)))))))),
    Nil)))
  }

  lemma PoundLinesOk()
    ensures LinesOk(PoundLines())
  {
    assert GroupsOk(Cons("0000", Cons("0000", Cons("0000", Cons("0000", Cons("2950", Cons("6C65", Cons("6173", Cons("6520", Nil)))))))));
    assert GroupsOk(Cons("6465", Cons("706F", Cons("7369", Cons("7420", Cons("BB35", Cons("2069", Cons("6E74", Cons("6F20", Nil)))))))));
    assert GroupsOk(Cons("6D79", Cons("2061", Cons("6363", Cons("6F75", Cons("6E74", Cons("2C20", Cons("4A6F", Cons("73C5", Nil)))))))));
  }

  lemma PoundLinesOctets()
    ensures DumpOctets(PoundLines())
         == ([0, 0, 0, 0, 0, 0, 0, 0] + [0x29, 0x50, 0x6C, 0x65, 0x61, 0x73, 0x65, 0x20])
          + (([0x64, 0x65, 0x70, 0x6F, 0x73, 0x69, 0x74, 0x20] + [0xBB, 0x35, 0x20, 0x69, 0x6E, 0x74, 0x6F, 0x20])
          + (([0x6D, 0x79, 0x20, 0x61, 0x63, 0x63, 0x6F, 0x75] + [0x6E, 0x74, 0x2C, 0x20, 0x4A, 0x6F, 0x73, 0xC5])
          + []))
  {
    ZeroGroups();
    PoundLine4End();
    PoundLine5Start();
    PoundLine5End();
    PoundLine6Start();
    PoundLine6End();
    var lines := PoundLines();
    LineOctetsAppend(Cons("0000", Cons("0000", Cons("0000", Cons("0000", Nil)))), Cons("2950", Cons("6C65", Cons("6173", Cons("6520", Nil)))));
    LineOctetsAppend(Cons("6465", Cons("706F", Cons("7369", Cons("7420", Nil)))), Cons("BB35", Cons("2069", Cons("6E74", Cons("6F20", Nil)))));
    LineOctetsAppend(Cons("6D79", Cons("2061", Cons("6363", Cons("6F75", Nil)))), Cons("6E74", Cons("2C20", Cons("4A6F", Cons("73C5", Nil)))));
    assert DumpOctets(lines) == LineOctets(lines.head) + DumpOctets(lines.tail);
    assert DumpOctets(lines.tail) == LineOctets(lines.tail.head) + DumpOctets(lines.tail.tail);
    assert DumpOctets(lines.tail.tail) == LineOctets(lines.tail.tail.head) + DumpOctets(Nil);
  }

  /**
    The pound-sign payload: 39 octets, two of them outside ASCII, in the
    pieces the dump lines split it into.
   */
  function PoundPayload(): seq<byte> {
    Utf8.AsciiOctets("Please ") + Utf8.AsciiOctets("deposit ") + [0xBB] + Utf8.AsciiOctets("5 into ")
    + Utf8.AsciiOctets("my account, Jos") + [0xC5]
  }

  lemma PoundLine4Fields()
    ensures [0, 0, 0, 0, 0, 0, 0, 0] + [0x29, 0x50, 0x6C, 0x65, 0x61, 0x73, 0x65, 0x20]
         == [0, 0, 0, 0, 0, 0, Roman8Coding, 0, 0x29] + Utf8.AsciiOctets("Please ")
  {
  }

  lemma PoundLine5Fields()
    ensures [0x64, 0x65, 0x70, 0x6F, 0x73, 0x69, 0x74, 0x20] + [0xBB, 0x35, 0x20, 0x69, 0x6E, 0x74, 0x6F, 0x20]
         == Utf8.AsciiOctets("deposit ") + [0xBB] + Utf8.AsciiOctets("5 into ")
  {
  }

  lemma PoundLine6Fields()
    ensures [0x6D, 0x79, 0x20, 0x61, 0x63, 0x63, 0x6F, 0x75] + [0x6E, 0x74, 0x2C, 0x20, 0x4A, 0x6F, 0x73, 0xC5]
         == Utf8.AsciiOctets("my account, Jos") + [0xC5]
  {
  }

  lemma PoundOctets()
    ensures ([0, 0, 0, 0, 0, 0, 0, 0] + [0x29, 0x50, 0x6C, 0x65, 0x61, 0x73, 0x65, 0x20])
          + (([0x64, 0x65, 0x70, 0x6F, 0x73, 0x69, 0x74, 0x20] + [0xBB, 0x35, 0x20, 0x69, 0x6E, 0x74, 0x6F, 0x20])
          + (([0x6D, 0x79, 0x20, 0x61, 0x63, 0x63, 0x6F, 0x75] + [0x6E, 0x74, 0x2C, 0x20, 0x4A, 0x6F, 0x73, 0xC5])
          + []))
         == [0, 0, 0, 0, 0, 0, Roman8Coding, 0, 0x29] + PoundPayload()
  {
    PoundLine4Fields();
    PoundLine5Fields();
    PoundLine6Fields();
    ThreeLines([0, 0, 0, 0, 0, 0, 0, 0], [0x29, 0x50, 0x6C, 0x65, 0x61, 0x73, 0x65, 0x20],
      [0x64, 0x65, 0x70, 0x6F, 0x73, 0x69, 0x74, 0x20], [0xBB, 0x35, 0x20, 0x69, 0x6E, 0x74, 0x6F, 0x20],
      [0x6D, 0x79, 0x20, 0x61, 0x63, 0x63, 0x6F, 0x75], [0x6E, 0x74, 0x2C, 0x20, 0x4A, 0x6F, 0x73, 0xC5],
      [0, 0, 0, 0, 0, 0, Roman8Coding, 0, 0x29], Utf8.AsciiOctets("Please "), Utf8.AsciiOctets("deposit "), [0xBB],
      Utf8.AsciiOctets("5 into "), Utf8.AsciiOctets("my account, Jos"), [0xC5]);
  }

  /** Printable text with two other octets of the table decodes piece by piece. */
  lemma Roman8WithOctets(a: string, b: string, x: byte, c: string, d: string, y: byte, t: Roman8Table)
    requires AgreesWithFixtures(t) && x != EscapeLead && y != EscapeLead
    requires IsPrintableText(a) && IsPrintableText(b) && IsPrintableText(c) && IsPrintableText(d)
    ensures var p := Utf8.AsciiOctets(a) + Utf8.AsciiOctets(b) + [x] + Utf8.AsciiOctets(c) + Utf8.AsciiOctets(d) + [y];
            EscapesKnown(p) && DecodeRoman8(p, t) == a + b + [t(x)] + c + d + [t(y)]
  {
    Roman8OfText(a, t);
    Roman8OfText(b, t);
    Roman8OfText(c, t);
    Roman8OfText(d, t);
    Roman8OfOctet(x, t);
    Roman8OfOctet(y, t);
    var pa, pb, pc, pd := Utf8.AsciiOctets(a), Utf8.AsciiOctets(b), Utf8.AsciiOctets(c), Utf8.AsciiOctets(d);
    Roman8Append(pa, pb, t);
    Roman8Append(pa + pb, [x], t);
    Roman8Append(pa + pb + [x], pc, t);
    Roman8Append(pa + pb + [x] + pc, pd, t);
    Roman8Append(pa + pb + [x] + pc + pd, [y], t);
  }

  lemma PoundText(t: Roman8Table)
    requires AgreesWithFixtures(t)
    ensures EscapesKnown(PoundPayload())
    ensures DecodeRoman8(PoundPayload(), t)
         == "Please " + "deposit " + "\U{A3}" + "5 into " + "my account, Jos" + "\U{E9}"
  {
    Roman8WithOctets("Please ", "deposit ", 0xBB, "5 into ", "my account, Jos", 0xC5, t);
  }

  lemma PoundSentence()
    ensures "Please " + "deposit " + "\U{A3}" + "5 into " + "my account, Jos" + "\U{E9}"
         == "Please deposit \U{A3}5 into my account, Jos\U{E9}"
  {
  }

  /**
    A fixture dump that parses to the shared deliver_sm with a payload
    whose decoding is `text` delivers `text`.
   */
  lemma FixtureDelivers(rest: List<List<string>>, dataCoding: byte, smLength: byte, payload: seq<byte>,
                        text: string, t: Roman8Table)
    requires CreatePdu(Heredoc(WithSharedLines(rest))) == Ok(DeliverSm(FixtureHeader, FixtureBody(dataCoding, smLength, payload)))
    requires Decodable(dataCoding, payload) && DecodeText(dataCoding, payload, t) == text
    ensures Delivers(CreatePdu(Heredoc(WithSharedLines(rest))), dataCoding, text, t)
  {
  }

  lemma PoundDump()
    ensures DumpOctets(PoundLines()) == [0, 0, 0, 0, 0, 0, Roman8Coding, 0, 0x29] + PoundPayload()
  {
    PoundLinesOctets();
    PoundOctets();
  }

  lemma PoundPayloadLength()
    ensures |PoundPayload()| == 39
  {
  }

  /** The pound-sign dump parses to a deliver_sm carrying the whole payload. */
  lemma PoundPdu()
    ensures CreatePdu(Heredoc(WithSharedLines(PoundLines())))
         == Ok(DeliverSm(FixtureHeader, FixtureBody(Roman8Coding, 0x29, PoundPayload())))
  {
    PoundLinesOk();
    PoundDump();
    PoundPayloadLength();
    FixtureParsesWhole(PoundLines(), Roman8Coding, 0x29, PoundPayload());
  }

  /**
    test_should_decode_pound_sign_from_hp_roman_8_to_utf_8: octets 0xBB and
    0xC5 of HP Roman-8 arrive as the pound sign and e-acute.
   */
  lemma PoundSignFromRoman8(t: Roman8Table)
    requires AgreesWithFixtures(t)
    ensures Delivers(CreatePdu(Heredoc(WithSharedLines(PoundLines()))), Roman8Coding,
                     "Please deposit \U{A3}5 into my account, Jos\U{E9}", t)
  {
    PoundPdu();
    PoundText(t);
    PoundSentence();
    FixtureDelivers(PoundLines(), Roman8Coding, 0x29, PoundPayload(),
                    "Please deposit \U{A3}5 into my account, Jos\U{E9}", t);
  }

  // ---------------------------------------------------------------------
  // The euro sign
  // ---------------------------------------------------------------------

  lemma EuroLine4End()
    ensures LineOctets(Cons("1950", Cons("6c65", Cons("6173", Cons("6520", Nil))))) == [0x19, 0x50, 0x6C, 0x65, 0x61, 0x73, 0x65, 0x20]
  {
  }

  lemma EuroLine5Start()
    ensures LineOctets(Cons("6465", Cons("706f", Cons("7369", Cons("7420", Nil))))) == [0x64, 0x65, 0x70, 0x6F, 0x73, 0x69, 0x74, 0x20]
  {
  }

  lemma EuroLine5End()
    ensures LineOctets(Cons("8d65", Cons("3520", Cons("7468", Cons("616e", Nil))))) == [0x8D, 0x65, 0x35, 0x20, 0x74, 0x68, 0x61, 0x6E]
  {
  }

  lemma EuroLine6()
    ensures LineOctets(Cons("6b73", Nil)) == [0x6B, 0x73]
  {
  }

  /** The euro-sign fixture's own lines. */
  function EuroLines(): List<List<string>> {
    Cons(Cons("0000", Cons("0000", Cons("0000", Cons("0000", Cons("1950", Cons("6c65", Cons("6173", Cons("6520", Nil)))))))),
    Cons(Cons("6465", Cons("706f", Cons("7369", Cons("7420", Cons("8d65", Cons("3520", Cons("7468", Cons("616e", Nil)))))))),
    Cons(Cons("6b73", Nil),
    Nil)))
  }

  lemma EuroLinesOk()
    ensures LinesOk(EuroLines())
  {
  }

  lemma EuroLinesOctets()
    ensures DumpOctets(EuroLines())
         == ([0, 0, 0, 0, 0, 0, 0, 0] + [0x19, 0x50, 0x6C, 0x65, 0x61, 0x73, 0x65, 0x20])
          + (([0x64, 0x65, 0x70, 0x6F, 0x73, 0x69, 0x74, 0x20] + [0x8D, 0x65, 0x35, 0x20, 0x74, 0x68, 0x61, 0x6E])
          + ([0x6B, 0x73] + []))
  {
    ZeroGroups();
    EuroLine4End();
    EuroLine5Start();
    EuroLine5End();
    EuroLine6();
    var lines := EuroLines();
    LineOctetsAppend(Cons("0000", Cons("0000", Cons("0000", Cons("0000", Nil)))), Cons("1950", Cons("6c65", Cons("6173", Cons("6520", Nil)))));
    LineOctetsAppend(Cons("6465", Cons("706f", Cons("7369", Cons("7420", Nil)))), Cons("8d65", Cons("3520", Cons("7468", Cons("616e", Nil)))));
    assert DumpOctets(lines) == LineOctets(lines.head) + DumpOctets(lines.tail);
    assert DumpOctets(lines.tail) == LineOctets(lines.tail.head) + DumpOctets(lines.tail.tail);
    assert DumpOctets(lines.tail.tail) == LineOctets(lines.tail.tail.head) + DumpOctets(Nil);
  }

  /** The euro-sign payload: 25 octets around the escape pair 0x8D 0x65, in the pieces the dump lines split it into. */
  function EuroPayload(): seq<byte> {
    Utf8.AsciiOctets("Please ") + Utf8.AsciiOctets("deposit ") + [EscapeLead, 0x65] + Utf8.AsciiOctets("5 than")
    + Utf8.AsciiOctets("ks")
  }

  lemma EuroLine4Fields()
    ensures [0, 0, 0, 0, 0, 0, 0, 0] + [0x19, 0x50, 0x6C, 0x65, 0x61, 0x73, 0x65, 0x20]
         == [0, 0, 0, 0, 0, 0, Roman8Coding, 0, 0x19] + Utf8.AsciiOctets("Please ")
  {
  }

  lemma EuroLine5Fields()
    ensures [0x64, 0x65, 0x70, 0x6F, 0x73, 0x69, 0x74, 0x20] + [0x8D, 0x65, 0x35, 0x20, 0x74, 0x68, 0x61, 0x6E]
         == Utf8.AsciiOctets("deposit ") + [EscapeLead, 0x65] + Utf8.AsciiOctets("5 than")
  {
  }

  lemma EuroLine6Fields()
    ensures [0x6B, 0x73] == Utf8.AsciiOctets("ks")
  {
  }

  lemma EuroOctets()
    ensures ([0, 0, 0, 0, 0, 0, 0, 0] + [0x19, 0x50, 0x6C, 0x65, 0x61, 0x73, 0x65, 0x20])
          + (([0x64, 0x65, 0x70, 0x6F, 0x73, 0x69, 0x74, 0x20] + [0x8D, 0x65, 0x35, 0x20, 0x74, 0x68, 0x61, 0x6E])
          + ([0x6B, 0x73] + []))
         == [0, 0, 0, 0, 0, 0, Roman8Coding, 0, 0x19] + EuroPayload()
  {
    EuroLine4Fields();
    EuroLine5Fields();
    EuroLine6Fields();
    TwoLinesAndAGroup([0, 0, 0, 0, 0, 0, 0, 0], [0x19, 0x50, 0x6C, 0x65, 0x61, 0x73, 0x65, 0x20],
      [0x64, 0x65, 0x70, 0x6F, 0x73, 0x69, 0x74, 0x20], [0x8D, 0x65, 0x35, 0x20, 0x74, 0x68, 0x61, 0x6E],
      [0x6B, 0x73],
      [0, 0, 0, 0, 0, 0, Roman8Coding, 0, 0x19], Utf8.AsciiOctets("Please "), Utf8.AsciiOctets("deposit "),
      [EscapeLead, 0x65], Utf8.AsciiOctets("5 than"), Utf8.AsciiOctets("ks"));
  }

  lemma EuroDump()
    ensures DumpOctets(EuroLines()) == [0, 0, 0, 0, 0, 0, Roman8Coding, 0, 0x19] + EuroPayload()
  {
    EuroLinesOctets();
    EuroOctets();
  }

  lemma EuroPayloadLength()
    ensures |EuroPayload()| == 25
  {
  }

  lemma EuroPdu()
    ensures CreatePdu(Heredoc(WithSharedLines(EuroLines())))
         == Ok(DeliverSm(FixtureHeader, FixtureBody(Roman8Coding, 0x19, EuroPayload())))
  {
    EuroLinesOk();
    EuroDump();
    EuroPayloadLength();
    FixtureParsesWhole(EuroLines(), Roman8Coding, 0x19, EuroPayload());
  }

  /** Printable text around an escape pair decodes to the text around the escaped character. */
  lemma Roman8AroundEscape(a: string, b: string, e: byte, c: string, d: string, t: Roman8Table)
    requires AgreesWithFixtures(t) && EscapeTarget(e).Some?
    requires IsPrintableText(a) && IsPrintableText(b) && IsPrintableText(c) && IsPrintableText(d)
    ensures var p := Utf8.AsciiOctets(a) + Utf8.AsciiOctets(b) + [EscapeLead, e] + Utf8.AsciiOctets(c) + Utf8.AsciiOctets(d);
            EscapesKnown(p) && DecodeRoman8(p, t) == a + b + [EscapeTarget(e).value] + c + d
  {
    var pa, pb, pc, pd := Utf8.AsciiOctets(a), Utf8.AsciiOctets(b), Utf8.AsciiOctets(c), Utf8.AsciiOctets(d);
    Roman8OfText(a, t);
    Roman8OfText(b, t);
    Roman8OfText(c, t);
    Roman8OfText(d, t);
    Roman8Append(pa, pb, t);
    Roman8Append(pc, pd, t);
    Roman8EscapePair(pa + pb, e, pc + pd, t);
    AroundMiddle(pa, pb, [EscapeLead, e], pc, pd);
    AroundMiddle(a, b, [EscapeTarget(e).value], c, d);
  }

  lemma EuroText(t: Roman8Table)
    requires AgreesWithFixtures(t)
    ensures EscapesKnown(EuroPayload())
    ensures DecodeRoman8(EuroPayload(), t) == "Please " + "deposit " + "\U{20AC}" + "5 than" + "ks"
  {
    EscapeTargets();
    Roman8AroundEscape("Please ", "deposit ", 0x65, "5 than", "ks", t);
  }

  lemma EuroSentence()
    ensures "Please " + "deposit " + "\U{20AC}" + "5 than" + "ks" == "Please deposit \U{20AC}5 thanks"
  {
  }

  /**
    test_should_unescape_gsm_escaped_euro_symbol: the escape pair 0x8D 0x65
    arrives as the euro sign.
   */
  lemma EuroSignUnescaped(t: Roman8Table)
    requires AgreesWithFixtures(t)
    ensures Delivers(CreatePdu(Heredoc(WithSharedLines(EuroLines()))), Roman8Coding, "Please deposit \U{20AC}5 thanks", t)
  {
    EuroPdu();
    EuroText(t);
    EuroSentence();
    FixtureDelivers(EuroLines(), Roman8Coding, 0x19, EuroPayload(), "Please deposit \U{20AC}5 thanks", t);
  }

  // ---------------------------------------------------------------------
  // The seven escaped brackets and signs
  // ---------------------------------------------------------------------

  /** The groups an escape fixture's own line starts with: six zero octets, data_coding 0, sm_length 2, 0x8D. */
  function EscapeLineStart(): List<string> {
    Cons("0000", Cons("0000", Cons("0000", Cons("0000", Cons("028d", Nil)))))
  }

  /** The one own line of an escape fixture, ending in group `x`. */
  function EscapeLines(x: string): List<List<string>> {
    Cons(Append(EscapeLineStart(), Cons(x, Nil)), Nil)
  }

  lemma EscapeLinesOk(x: string)
    requires IsGroup(x)
    ensures LinesOk(EscapeLines(x))
  {
    GroupsOkAppend(EscapeLineStart(), Cons(x, Nil));
  }

  lemma EscapeStartOctets()
    ensures LineOctets(EscapeLineStart()) == [0, 0, 0, 0, 0, 0, 0, 0, 0x02, 0x8D]
  {
  }

  lemma EscapeDump(x: string, e: byte)
    requires PackHex(x) == [e]
    ensures DumpOctets(EscapeLines(x)) == [0, 0, 0, 0, 0, 0, Roman8Coding, 0, 2] + [EscapeLead, e]
  {
    EscapeStartOctets();
    LineOctetsAppend(EscapeLineStart(), Cons(x, Nil));
    assert LineOctets(Cons(x, Nil)) == [e];
  }

  /** An escape pair alone decodes to the character it stands for, whatever the table. */
  lemma EscapeText(e: byte, c: char, t: Roman8Table)
    requires EscapeTarget(e) == Some(c)
    ensures EscapesKnown([EscapeLead, e]) && DecodeRoman8([EscapeLead, e], t) == [c]
  {
    var p: seq<byte> := [EscapeLead, e];
    assert p[2..] == [];
  }

  /**
    An escape fixture whose last group `x` is the octet `e` of a known
    escape pair delivers the one character the pair stands for.
   */
  lemma EscapedFixture(x: string, e: byte, c: char, t: Roman8Table)
    requires IsGroup(x) && PackHex(x) == [e] && EscapeTarget(e) == Some(c)
    ensures Delivers(CreatePdu(Heredoc(WithSharedLines(EscapeLines(x)))), Roman8Coding, [c], t)
  {
    EscapeLinesOk(x);
    EscapeDump(x, e);
    FixtureParsesWhole(EscapeLines(x), Roman8Coding, 2, [EscapeLead, e]);
    EscapeText(e, c, t);
    FixtureDelivers(EscapeLines(x), Roman8Coding, 2, [EscapeLead, e], [c], t);
  }

  /** test_should_unescape_gsm_escaped_left_curly_bracket_symbol: 0x8D 0x28 arrives as a left brace. */
  lemma EscapedLeftCurlyBracket(t: Roman8Table)
    ensures Delivers(CreatePdu(Heredoc(WithSharedLines(EscapeLines("28")))), Roman8Coding, "{", t)
  {
    EscapedFixture("28", 0x28, '{', t);
  }

  /** test_should_unescape_gsm_escaped_right_curly_bracket_symbol: 0x8D 0x29 arrives as a right brace. */
  lemma EscapedRightCurlyBracket(t: Roman8Table)
    ensures Delivers(CreatePdu(Heredoc(WithSharedLines(EscapeLines("29")))), Roman8Coding, "}", t)
  {
    EscapedFixture("29", 0x29, '}', t);
  }

  /** test_should_unescape_gsm_escaped_tilde_symbol: 0x8D 0x7E arrives as a tilde. */
  lemma EscapedTilde(t: Roman8Table)
    ensures Delivers(CreatePdu(Heredoc(WithSharedLines(EscapeLines("7e")))), Roman8Coding, "~", t)
  {
    EscapedFixture("7e", 0x7E, '~', t);
  }

  /** test_should_unescape_gsm_escaped_left_square_bracket_symbol: 0x8D 0x5B arrives as a left bracket. */
  lemma EscapedLeftSquareBracket(t: Roman8Table)
    ensures Delivers(CreatePdu(Heredoc(WithSharedLines(EscapeLines("5b")))), Roman8Coding, "[", t)
  {
    EscapedFixture("5b", 0x5B, '[', t);
  }

  /** test_should_unescape_gsm_escaped_right_square_bracket_symbol: 0x8D 0x5D arrives as a right bracket. */
  lemma EscapedRightSquareBracket(t: Roman8Table)
    ensures Delivers(CreatePdu(Heredoc(WithSharedLines(EscapeLines("5d")))), Roman8Coding, "]", t)
  {
    EscapedFixture("5d", 0x5D, ']', t);
  }

  /** test_should_unescape_gsm_escaped_backslash_symbol: 0x8D 0x5C arrives as a backslash. */
  lemma EscapedBackslash(t: Roman8Table)
    ensures Delivers(CreatePdu(Heredoc(WithSharedLines(EscapeLines("5c")))), Roman8Coding, "\\", t)
  {
    EscapedFixture("5c", 0x5C, '\\', t);
  }

  /** test_should_unescape_gsm_escaped_vertical_bar_symbol: 0x8D 0x7C arrives as a vertical bar. */
  lemma EscapedVerticalBar(t: Roman8Table)
    ensures Delivers(CreatePdu(Heredoc(WithSharedLines(EscapeLines("7c")))), Roman8Coding, "|", t)
  {
    EscapedFixture("7c", 0x7C, '|', t);
  }

  // ---------------------------------------------------------------------
  // UCS-2
  // ---------------------------------------------------------------------

  lemma Ucs2Line4Start()
    ensures LineOctets(Cons("0000", Cons("0000", Cons("0000", Cons("0800", Nil))))) == [0, 0, 0, 0, 0, 0, 0x08, 0x00]
  {
  }

  lemma Ucs2Line4End()
    ensures LineOctets(Cons("0E00", Cons("db00", Cons("f100", Cons("ef00", Nil))))) == [0x0E, 0x00, 0xDB, 0x00, 0xF1, 0x00, 0xEF, 0x00]
  {
  }

  lemma Ucs2Line5()
    ensures LineOctets(Cons("e700", Cons("f800", Cons("6401", Cons("13", Nil))))) == [0xE7, 0x00, 0xF8, 0x00, 0x64, 0x01, 0x13]
  {
  }

  /** The UCS-2 fixture's own lines. */
  function Ucs2Lines(): List<List<string>> {
    Cons(Cons("0000", Cons("0000", Cons("0000", Cons("0800", Cons("0E00", Cons("db00", Cons("f100", Cons("ef00", Nil)))))))),
    Cons(Cons("e700", Cons("f800", Cons("6401", Cons("13", Nil)))),
    Nil))
  }

  lemma Ucs2LinesOk()
    ensures LinesOk(Ucs2Lines())
  {
  }

  lemma Ucs2LinesOctets()
    ensures DumpOctets(Ucs2Lines())
         == ([0, 0, 0, 0, 0, 0, 0x08, 0x00] + [0x0E, 0x00, 0xDB, 0x00, 0xF1, 0x00, 0xEF, 0x00])
          + ([0xE7, 0x00, 0xF8, 0x00, 0x64, 0x01, 0x13] + [])
  {
    Ucs2Line4Start();
    Ucs2Line4End();
    Ucs2Line5();
    var lines := Ucs2Lines();
    LineOctetsAppend(Cons("0000", Cons("0000", Cons("0000", Cons("0800", Nil)))), Cons("0E00", Cons("db00", Cons("f100", Cons("ef00", Nil)))));
    assert DumpOctets(lines) == LineOctets(lines.head) + DumpOctets(lines.tail);
    assert DumpOctets(lines.tail) == LineOctets(lines.tail.head) + DumpOctets(Nil);
  }

  /** The UCS-2 payload: seven big-endian units, in the pieces the dump lines split it into. */
  function Ucs2Payload(): seq<byte> {
    [0x00, 0xDB, 0x00, 0xF1, 0x00, 0xEF, 0x00] + [0xE7, 0x00, 0xF8, 0x00, 0x64, 0x01, 0x13]
  }

  lemma Ucs2Line4Fields()
    ensures [0, 0, 0, 0, 0, 0, 0x08, 0x00] + [0x0E, 0x00, 0xDB, 0x00, 0xF1, 0x00, 0xEF, 0x00]
         == [0, 0, 0, 0, 0, 0, Ucs2Coding, 0, 0x0E] + [0x00, 0xDB, 0x00, 0xF1, 0x00, 0xEF, 0x00]
  {
  }

  lemma Ucs2Dump()
    ensures DumpOctets(Ucs2Lines()) == [0, 0, 0, 0, 0, 0, Ucs2Coding, 0, 0x0E] + Ucs2Payload()
  {
    Ucs2LinesOctets();
    Ucs2Line4Fields();
    TwoLines([0, 0, 0, 0, 0, 0, 0x08, 0x00], [0x0E, 0x00, 0xDB, 0x00, 0xF1, 0x00, 0xEF, 0x00],
      [0xE7, 0x00, 0xF8, 0x00, 0x64, 0x01, 0x13],
      [0, 0, 0, 0, 0, 0, Ucs2Coding, 0, 0x0E], [0x00, 0xDB, 0x00, 0xF1, 0x00, 0xEF, 0x00],
      [0xE7, 0x00, 0xF8, 0x00, 0x64, 0x01, 0x13]);
  }

  lemma Ucs2Pdu()
    ensures CreatePdu(Heredoc(WithSharedLines(Ucs2Lines())))
         == Ok(DeliverSm(FixtureHeader, FixtureBody(Ucs2Coding, 0x0E, Ucs2Payload())))
  {
    Ucs2LinesOk();
    Ucs2Dump();
    FixtureParsesWhole(Ucs2Lines(), Ucs2Coding, 0x0E, Ucs2Payload());
  }

  /** One unit in front of a decodable payload adds its character in front of the text. */
  lemma Ucs2Unit(hi: byte, lo: byte, rest: seq<byte>)
    requires Ucs2Decodable(rest) && !(0xD8 <= hi < 0xE0)
    ensures Ucs2Decodable([hi, lo] + rest)
    ensures DecodeUcs2([hi, lo] + rest) == [(hi as int * 0x100 + lo as int) as char] + DecodeUcs2(rest)
  {
    assert ([hi, lo] + rest)[2..] == rest;
  }

  lemma Ucs2Units()
    ensures Ucs2Payload()
         == [0x00, 0xDB] + ([0x00, 0xF1] + ([0x00, 0xEF] + ([0x00, 0xE7] + ([0x00, 0xF8] + ([0x00, 0x64] + ([0x01, 0x13] + []))))))
  {
  }

  lemma Ucs2Chars()
    ensures ['\U{DB}'] + (['\U{F1}'] + (['\U{EF}'] + (['\U{E7}'] + (['\U{F8}'] + (['d'] + (['\U{113}'] + []))))))
         == "\U{DB}\U{F1}\U{EF}\U{E7}\U{F8}d\U{113}"
  {
  }

  lemma Ucs2Text()
    ensures Ucs2Decodable(Ucs2Payload())
    ensures DecodeUcs2(Ucs2Payload()) == "\U{DB}\U{F1}\U{EF}\U{E7}\U{F8}d\U{113}"
  {
    Ucs2Units();
    Ucs2Chars();
    var p7: seq<byte> := [0x01, 0x13] + [];
    var p6: seq<byte> := [0x00, 0x64] + p7;
    var p5: seq<byte> := [0x00, 0xF8] + p6;
    var p4: seq<byte> := [0x00, 0xE7] + p5;
    var p3: seq<byte> := [0x00, 0xEF] + p4;
    var p2: seq<byte> := [0x00, 0xF1] + p3;
    assert DecodeUcs2([]) == [];
    Ucs2Unit(0x01, 0x13, []);
    Ucs2Unit(0x00, 0x64, p7);
    Ucs2Unit(0x00, 0xF8, p6);
    Ucs2Unit(0x00, 0xE7, p5);
    Ucs2Unit(0x00, 0xEF, p4);
    Ucs2Unit(0x00, 0xF1, p3);
    Ucs2Unit(0x00, 0xDB, p2);
  }

  /**
    test_should_convert_ucs_2_into_utf_8_where_data_coding_indicates_its_presence:
    with data_coding 8 the short_message is read as UCS-2.
   */
  lemma Ucs2IntoUtf8(t: Roman8Table)
    ensures Delivers(CreatePdu(Heredoc(WithSharedLines(Ucs2Lines()))), Ucs2Coding,
                     "\U{DB}\U{F1}\U{EF}\U{E7}\U{F8}d\U{113}", t)
  {
    Ucs2Pdu();
    Ucs2Text();
    FixtureDelivers(Ucs2Lines(), Ucs2Coding, 0x0E, Ucs2Payload(), "\U{DB}\U{F1}\U{EF}\U{E7}\U{F8}d\U{113}", t);
  }

  // ---------------------------------------------------------------------
  // The expected texts as the tests write them, octet by octet
  // ---------------------------------------------------------------------

  /** The UTF-8 octets the tests spell out in octal for each non-ASCII character they expect. */
  lemma ExpectedUtf8()
    ensures Utf8.EncodeChar('\U{A3}') == [0xC2, 0xA3] && Utf8.EncodeChar('\U{E9}') == [0xC3, 0xA9]
    ensures Utf8.EncodeChar('\U{20AC}') == [0xE2, 0x82, 0xAC]
    ensures Utf8.EncodeChar('\U{DB}') == [0xC3, 0x9B] && Utf8.EncodeChar('\U{F1}') == [0xC3, 0xB1]
    ensures Utf8.EncodeChar('\U{EF}') == [0xC3, 0xAF] && Utf8.EncodeChar('\U{E7}') == [0xC3, 0xA7]
    ensures Utf8.EncodeChar('\U{F8}') == [0xC3, 0xB8] && Utf8.EncodeChar('\U{113}') == [0xC4, 0x93]
  {
  }

  /** The text the UCS-2 test expects, one character at a time. */
  lemma Ucs2ExpectedChars()
    ensures "\U{DB}\U{F1}\U{EF}\U{E7}\U{F8}d\U{113}"
         == ['\U{DB}'] + (['\U{F1}'] + (['\U{EF}'] + (['\U{E7}'] + (['\U{F8}'] + (['d'] + (['\U{113}'] + ""))))))
  {
  }

  /** The thirteen octets the UCS-2 test spells out, one character's encoding at a time. */
  lemma Ucs2ExpectedPieces()
    ensures [0xC3, 0x9B, 0xC3, 0xB1, 0xC3, 0xAF, 0xC3, 0xA7, 0xC3, 0xB8, 0x64, 0xC4, 0x93]
         == [0xC3, 0x9B] + ([0xC3, 0xB1] + ([0xC3, 0xAF] + ([0xC3, 0xA7] + ([0xC3, 0xB8] + ([0x64] + ([0xC4, 0x93] + []))))))
  {
  }

  /** The UTF-8 of "Ûñïçødē" is the octet string the UCS-2 test compares short_message with. */
  lemma Ucs2ExpectedOctets()
    ensures Utf8.Encode("\U{DB}\U{F1}\U{EF}\U{E7}\U{F8}d\U{113}")
         == [0xC3, 0x9B, 0xC3, 0xB1, 0xC3, 0xAF, 0xC3, 0xA7, 0xC3, 0xB8, 0x64, 0xC4, 0x93]
  {
    ExpectedUtf8();
    Ucs2ExpectedChars();
    Ucs2ExpectedPieces();
    var s7: string := ['\U{113}'] + "";
    var s6: string := ['d'] + s7;
    var s5: string := ['\U{F8}'] + s6;
    var s4: string := ['\U{E7}'] + s5;
    var s3: string := ['\U{EF}'] + s4;
    var s2: string := ['\U{F1}'] + s3;
    assert Utf8.Encode("") == [];
    assert Utf8.EncodeChar('d') == [0x64];
    Utf8.EncodeCons('\U{113}', "");
    Utf8.EncodeCons('d', s7);
    Utf8.EncodeCons('\U{F8}', s6);
    Utf8.EncodeCons('\U{E7}', s5);
    Utf8.EncodeCons('\U{EF}', s4);
    Utf8.EncodeCons('\U{F1}', s3);
    Utf8.EncodeCons('\U{DB}', s2);
  }

  /**
    The UCS-2 test's comparison as written: the short_message of the parsed
    deliver_sm is exactly the thirteen octets of its expected string.
   */
  lemma Ucs2ShortMessageOctets(t: Roman8Table)
    ensures var r := CreatePdu(Heredoc(WithSharedLines(Ucs2Lines())));
            r.Ok? && r.value.DeliverSm? && r.value.body.dataCoding == Ucs2Coding
            && Decodable(Ucs2Coding, r.value.body.shortMessage)
            && ShortMessage(r.value.body, t)
               == [0xC3, 0x9B, 0xC3, 0xB1, 0xC3, 0xAF, 0xC3, 0xA7, 0xC3, 0xB8, 0x64, 0xC4, 0x93]
  {
    Ucs2IntoUtf8(t);
    Ucs2ExpectedOctets();
  }
}
