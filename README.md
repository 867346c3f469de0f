# ruby-smpp encoding tests, modelled in Dafny

The encoding tests of ruby-smpp (`test/encoding_test.rb`) feed ten hex dumps
of SMPP v3.4 `deliver_sm` PDUs to a fixture helper, `create_pdu`, and check the
resulting PDU's class, its `data_coding` and its `short_message`. The
`short_message` is the payload decoded to UTF-8. This project models the
pipeline those tests pin down, byte for byte, as pure Dafny functions. It then
proves each of the ten tests as a lemma about the model.

- **`create_pdu`** (module `HexPack`, with the dump layout in `Heredocs`): the
  heredoc text is chomped, its blanks and newlines are removed with `gsub`, and
  the digits are packed with `pack("H*")`. Packing puts two digits in each
  octet, high nibble first. Characters other than hexadecimal digits get the
  nibble Ruby gives them.
- **The PDU parser** (module `PduParser`): a 16-octet header of four big-endian
  32-bit fields, then, for command_id 5, the deliver_sm body of section 4.6.1
  of SMPP v3.4. The body fields come in their fixed order: C-Octet strings
  ending in NUL and one-octet fields, then `sm_length` octets of
  `short_message`.
- **The text decoder** (module `TextCodec`, output encoded by module `Utf8` as
  in section 3 of RFC 3629):
  - data_coding 0 is HP Roman-8, with a two-octet escape that starts with 0x8D.
  - data_coding 8 is UCS-2, read as big-endian 16-bit units.
- **The fixtures** (module `EncodingFixtures`): each test's dump written as its
  lines of digit groups, with a lemma that `create_pdu` yields a deliver_sm
  with the expected `data_coding` and `short_message`.

The HP Roman-8 table is a parameter, `Roman8Table`. `AgreesWithFixtures`
assumes three things of it: every printable ASCII octet (0x20 to 0x7E) is
itself in HP Roman-8, 0xBB is U+00A3 and 0xC5 is U+00E9. The first covers all
95 printable ASCII octets, most of which appear in no fixture; the tests
witness only the last two outright.

Where the tests and a strict reading of SMPP disagree, the model follows the
tests:

- command_length is never compared with the buffer's length. Every fixture
  declares 0x3d octets but is longer or shorter than that, and all of them
  parse.
- A `short_message` shorter than `sm_length` is taken as it is, with no error.
  The pound-sign fixture declares 41 octets and carries 39.

So there is no length-mismatch error and no truncated-body error for those
cases. The escape lead is 0x8D, as in the fixtures, not 0x1B. An escape pair
whose second octet is not one of the eight shown has no decoding in the model:
the tests say nothing about it.

## Model

| member | source | states |
|---|---|---|
| HexPack.Chomp | test/encoding_test.rb:167 | `chomp` removes exactly one trailing "\r\n", "\n" or "\r", keeps the rest as a prefix, and removes nothing when the text does not end in a line terminator |
| HexPack.Without | test/encoding_test.rb:167 | `gsub(c, "")` leaves no `c`, adds no character and never lengthens the text |
| HexPack.WithoutAppend | test/encoding_test.rb:167 | deleting a character from a concatenation deletes it from each part |
| HexPack.WithoutAbsent | test/encoding_test.rb:167 | deleting a character that does not occur changes nothing |
| HexPack.NibbleOfHexDigit | test/encoding_test.rb:167 | `pack("H")`'s nibble of a hexadecimal digit, in either case, is the digit's value |
| HexPack.PackHex | test/encoding_test.rb:167 | `pack("H*")` yields one octet per two digits, rounding up for an odd last digit |
| HexPack.PackHexAt | test/encoding_test.rb:167 | octet `i` holds digit `2i` as its high nibble and digit `2i+1` as its low one; a lone last digit gets a zero low nibble |
| HexPack.PackHexAppend | test/encoding_test.rb:167 | packing digits split after an even count packs each part separately |
| HexPack.PackHexDump | test/encoding_test.rb:167 | packing the lower-case hex dump of any octets gives back those octets |
| HexPack.HexDumpPack | test/encoding_test.rb:167 | the hex dump of packed lower-case digits gives back the digits |
| HexPack.CreatePduBytes | test/encoding_test.rb:167 | when the chomped, blank-free digits are lower-case hex of even length, the octets handed to the parser dump back to exactly those digits |
| HexPack.HexDigits | test/encoding_test.rb:167 | the digits handed to `pack` contain no blank and no newline |
| Heredocs.SqueezedHeredoc | test/encoding_test.rb:8-15 | removing blanks and newlines from an indented heredoc dump leaves exactly its digit groups in order, and the dump has no carriage return |
| Heredocs.PackDigits | test/encoding_test.rb:167 | the dump's digits are even in number and pack to the groups' octets, line by line |
| Heredocs.ChompNewline | test/encoding_test.rb:167 | chomp removes a final newline that no carriage return precedes |
| Heredocs.CreatePduBytesOfHeredoc | test/encoding_test.rb:166-168 | for a dump in the fixtures' layout (four blanks of indentation, one blank between groups), the octets `create_pdu` gives the parser are its groups' octets, wherever the lines break |
| Heredocs.LineOctetsAppend | test/encoding_test.rb:166-168 | a line's octets split wherever its groups are split |
| Heredocs.GroupsOkAppend | test/encoding_test.rb:166-168 | a line is well formed exactly when both of its parts are |
| Bytes.Be32OfBytes | test/encoding_test.rb:9 | the four big-endian octets of a 32-bit value read back as that value |
| Bytes.BytesOfBe32 | test/encoding_test.rb:9 | four octets read as a big-endian value are written back as the same octets |
| PduParser.CString | test/encoding_test.rb:10-11 | a C-Octet string is found exactly when a NUL remains: the string has no NUL and is followed by the NUL and the rest; otherwise MissingTerminator |
| PduParser.Octet | test/encoding_test.rb:11-12 | a one-octet field is read exactly when an octet remains; otherwise MissingField |
| PduParser.TakeAtMost | test/encoding_test.rb:12-14 | short_message is a prefix of what remains, `sm_length` long or all of it when fewer octets remain |
| PduParser.ParseHeader | test/encoding_test.rb:9 | the four header fields, written back in network order, are exactly the buffer's first sixteen octets |
| PduParser.ParseBody | test/encoding_test.rb:10-14 | a body without any NUL fails at service_type with MissingTerminator; a body never fails with ShortHeader; an accepted short_message is never longer than sm_length |
| PduParser.Parse | test/encoding_test.rb:168 | fewer than sixteen octets is exactly the case of ShortHeader; an accepted PDU carries the buffer's header, and is a DeliverSm exactly when command_id is 5; any other command_id is accepted as that command's header |
| PduParser.HeaderBytes | test/encoding_test.rb:9 | the header is sixteen octets |
| PduParser.CStringOf | test/encoding_test.rb:10-11 | a NUL-free string followed by NUL is read back as that string, the rest untouched |
| PduParser.ParseBodyOfLayout | test/encoding_test.rb:10-14 | a body laid out field by field in deliver_sm order is read back field by field, short_message cut to sm_length |
| PduParser.ParseHeaderOf | test/encoding_test.rb:9 | the header's four big-endian fields are read back from its octets, whatever follows |
| PduParser.ParseOfLayout | test/encoding_test.rb:9-14 | a buffer with command_id 5 laid out as header and deliver_sm body parses as that DeliverSm |
| PduParser.BodyLayoutAppend | test/encoding_test.rb:12-14 | octets after the short_message are part of the tail the short_message is cut from |
| PduParser.ParseEncode | test/encoding_test.rb:9-14 | encoding a deliver_sm whose short_message is sm_length long and parsing it back gives the same PDU, whatever trails it |
| PduParser.ShortMessageCutShort | test/encoding_test.rb:12-14 | when fewer octets than sm_length remain, parsing succeeds and short_message is exactly the remaining octets |
| PduParser.HeaderWithLength | test/encoding_test.rb:9 | the first four octets are read as command_length and as nothing else |
| PduParser.ParseSameBody | test/encoding_test.rb:9-14 | two buffers that agree after the header and in every header field but command_length parse alike, but for command_length |
| PduParser.CommandLengthNotChecked | test/encoding_test.rb:9-14 | replacing command_length by any value changes whether and how the buffer parses only in that header field |
| PduParser.ParseBodyComplete | test/encoding_test.rb:10-14 | every body the parser accepts has NUL-free strings and was read from that body's layout followed by a tail |
| TextCodec.EscapeTarget | test/encoding_test.rb:31 | a second octet has a meaning exactly when it is one of 0x65, 0x28, 0x29, 0x5B, 0x5C, 0x5D, 0x7C and 0x7E; the pair stands for € exactly when it is 0x65, and for an ASCII character otherwise |
| TextCodec.EscapeTargets | test/encoding_test.rb:30-32 | 0x8D followed by 0x65, 0x28, 0x29, 0x5B, 0x5D, 0x5C, 0x7C or 0x7E stands for €, {, }, [, ], \\, \| and ~, and no other second octet is known |
| TextCodec.DecodeRoman8 | test/encoding_test.rb:12-14 | the decoded text is never longer than the payload |
| TextCodec.Roman8Append | test/encoding_test.rb:12-14 | a payload after complete escapes decodes separately, and the whole is the two texts side by side |
| TextCodec.Roman8WithoutEscapes | test/encoding_test.rb:12-14 | without 0x8D every octet becomes exactly one character, the one the table gives it, in order |
| TextCodec.Roman8EscapePair | test/encoding_test.rb:31 | an escape pair between complete payloads becomes exactly one character, the one it stands for |
| TextCodec.Roman8PrintableAscii | test/encoding_test.rb:12-14 | printable ASCII octets decode to themselves |
| TextCodec.DecodeUcs2 | test/encoding_test.rb:153-154 | UCS-2 text has one character for every two octets |
| TextCodec.Ucs2At | test/encoding_test.rb:153-154 | character `i` is octet `2i` times 256 plus octet `2i+1` |
| TextCodec.EncodeUcs2 | test/encoding_test.rb:153-154 | every character of the Basic Multilingual Plane takes two octets |
| TextCodec.DecodeEncodeUcs2 | test/encoding_test.rb:153-154 | decoding the UCS-2 octets of a text gives back the text |
| TextCodec.EncodeDecodeUcs2 | test/encoding_test.rb:153-154 | every decodable UCS-2 payload is the encoding of its decoded text |
| TextCodec.DecodeText | test/encoding_test.rb:19 | data_coding 0 decodes as HP Roman-8, never lengthening the payload and mapping octet by octet through the table when there is no escape; data_coding 8 decodes as UCS-2 into a Basic Multilingual Plane text whose UCS-2 encoding is the payload |
| TextCodec.ShortMessage | test/encoding_test.rb:22 | short_message is well-formed UTF-8 that decodes to exactly the payload's decoded text |
| Utf8.Encode | test/encoding_test.rb:21 | UTF-8 never takes fewer octets than characters |
| Utf8.EncodedLength | test/encoding_test.rb:21 | a character takes 1, 2, 3 or 4 octets exactly as RFC 3629 assigns by code point range |
| Utf8.DecodeChar | test/encoding_test.rb:21 | a decoded character takes at least one octet and no more than there are |
| Utf8.DecodeEncodeChar | test/encoding_test.rb:21 | each character's octets decode back to it, whatever follows them |
| Utf8.DecodeEncode | test/encoding_test.rb:21 | decoding the UTF-8 of a text gives back the text |
| Utf8.EncodeDecodeChar | test/encoding_test.rb:21 | the octets a well-formed character is decoded from are its only encoding |
| Utf8.EncodeDecode | test/encoding_test.rb:21 | every well-formed octet string is the encoding of its decoded text |
| Utf8.EncodeAppend | test/encoding_test.rb:21 | the UTF-8 of a concatenation is the concatenation of the UTF-8 |
| Utf8.EncodeAscii | test/encoding_test.rb:21 | ASCII text is its own UTF-8, one octet per character |
| EncodingFixtures.CreatePdu | test/encoding_test.rb:166-169 | `create_pdu` fails for want of a header exactly when fewer than 31 digits remain after chomping and removing blanks and newlines; an accepted PDU carries the header read from the packed octets |
| EncodingFixtures.ParseOfDump | test/encoding_test.rb:166-168 | a heredoc dump of a deliver_sm laid out field by field is parsed by `create_pdu` as that deliver_sm |
| EncodingFixtures.SharedLinesOctets | test/encoding_test.rb:9-11 | the three lines every fixture starts with are the header and the addressing fields |
| EncodingFixtures.FixtureParses | test/encoding_test.rb:9-14 | a fixture's dump parses as a DeliverSm from 447803029837 to 447803029837 with its data_coding and sm_length, short_message cut to sm_length |
| EncodingFixtures.PoundDump | test/encoding_test.rb:12-14 | the pound-sign fixture's own lines are data_coding 0, sm_length 0x29 and a 39-octet payload |
| EncodingFixtures.PoundText | test/encoding_test.rb:12-14 | that payload decodes to "Please deposit £5 into my account, Jos" and é |
| EncodingFixtures.PoundSignFromRoman8 | test/encoding_test.rb:7-23 | test_should_decode_pound_sign_from_hp_roman_8_to_utf_8: a DeliverSm with data_coding 0 and the UTF-8 of "Please deposit £5 into my account, José" |
| EncodingFixtures.EuroText | test/encoding_test.rb:30-32 | the euro fixture's 25 octets decode to 24 characters, the escape pair 0x8D 0x65 becoming € |
| EncodingFixtures.EuroSignUnescaped | test/encoding_test.rb:25-41 | test_should_unescape_gsm_escaped_euro_symbol: a DeliverSm with data_coding 0 and the UTF-8 of "Please deposit €5 thanks" |
| EncodingFixtures.EscapedFixture | test/encoding_test.rb:48 | a one-pair escape fixture delivers exactly the character its pair stands for |
| EncodingFixtures.EscapedLeftCurlyBracket | test/encoding_test.rb:43-56 | test_should_unescape_gsm_escaped_left_curly_bracket_symbol: short_message "{" |
| EncodingFixtures.EscapedRightCurlyBracket | test/encoding_test.rb:58-71 | test_should_unescape_gsm_escaped_right_curly_bracket_symbol: short_message "}" |
| EncodingFixtures.EscapedTilde | test/encoding_test.rb:73-86 | test_should_unescape_gsm_escaped_tilde_symbol: short_message "~" |
| EncodingFixtures.EscapedLeftSquareBracket | test/encoding_test.rb:88-101 | test_should_unescape_gsm_escaped_left_square_bracket_symbol: short_message "[" |
| EncodingFixtures.EscapedRightSquareBracket | test/encoding_test.rb:103-116 | test_should_unescape_gsm_escaped_right_square_bracket_symbol: short_message "]" |
| EncodingFixtures.EscapedBackslash | test/encoding_test.rb:118-131 | test_should_unescape_gsm_escaped_backslash_symbol: short_message "\\" |
| EncodingFixtures.EscapedVerticalBar | test/encoding_test.rb:133-146 | test_should_unescape_gsm_escaped_vertical_bar_symbol: short_message "\|" |
| EncodingFixtures.Ucs2Text | test/encoding_test.rb:153-154 | the UCS-2 fixture's 14 octets decode, two octets per character, to the 7 characters "Ûñïçødē", ending in U+0113 from 0x01 0x13 |
| EncodingFixtures.Ucs2IntoUtf8 | test/encoding_test.rb:148-163 | test_should_convert_ucs_2_into_utf_8_where_data_coding_indicates_its_presence: a DeliverSm with data_coding 8 and the UTF-8 of "Ûñïçødē" |
| EncodingFixtures.Ucs2ExpectedOctets | test/encoding_test.rb:161 | the UTF-8 of "Ûñïçødē" is the thirteen octets the test writes in octal |
| EncodingFixtures.Ucs2ShortMessageOctets | test/encoding_test.rb:148-163 | the UCS-2 fixture's short_message equals those thirteen octets, as the test compares them |
| EncodingFixtures.ExpectedUtf8 | test/encoding_test.rb:21 | the octal escapes of the expected strings are the UTF-8 of £, é, €, Û, ñ, ï, ç, ø and ē |

## Left out

- The Test::Unit harness, the `require` lines and `assert_equal`: test infrastructure, not behaviour.
- The HP Roman-8 table and the Iconv conversion behind it: the library code is not part of this model. The table is the parameter `Roman8Table`. `AgreesWithFixtures` assumes that printable ASCII is itself in HP Roman-8, and that 0xBB is £ and 0xC5 is é; nothing else is assumed of the table.
- The library's `Smpp::Pdu::Base.create`, `DeliverSm` and `short_message` are not part of this model. The parser and decoder are rebuilt from the wire layout and the fixtures. The error values `ShortHeader`, `MissingTerminator` and `MissingField` are the model's own names for inputs that stop the parse; the tests show none of them.
- PDUs other than deliver_sm: the parser recognises command_id 5 only and returns the header alone for any other command_id.
- TLV optional parameters after short_message: they are tolerated (`ParseEncode` allows any trailing octets) and not decoded.
- Sessions, binding, sequence numbers, transport and logging: they are not in the tested code.
- TextCodec.DecodeText: data_coding values other than 0 and 8 have no decoding. Nor do a 0x8D followed by an octet other than the eight shown, a 0x8D as the last octet, an odd-length UCS-2 payload and a UCS-2 surrogate unit. The tests show none of them, so `Decodable` excludes them rather than inventing a rule.
- Heredocs.Heredoc: a dump is modelled as its lines of digit groups, each line indented by four blanks and its groups separated by one blank. That is the form every fixture has, not every string `create_pdu` accepts. `HexPack.CreatePduBytes` itself takes any string.
- Non-ASCII characters in a dump: `pack("H*")` works on the string's bytes, the model on its characters. The two agree on ASCII, which is all the dumps contain.
