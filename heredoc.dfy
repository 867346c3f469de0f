/**
  The hex dumps the encoding tests feed to `create_pdu`: a heredoc of
  indented lines, each holding groups of hex digits separated by single
  spaces, and what `create_pdu` makes of such a dump.
 */
module Heredocs {
  import opened Bytes
  import opened HexPack

  /**
    A dump is a list of lines, and a line a list of digit groups. A list
    datatype rather than `seq` holds them because the verifier unfolds the
    functions below over a list literal one constructor at a time, which
    keeps the proofs about the fixtures' long dumps small.
   */
  datatype List<T> = Nil | Cons(head: T, tail: List<T>)

  function Append<T>(a: List<T>, b: List<T>): List<T> {
    match a
    case Nil => b
    case Cons(x, rest) => Cons(x, Append(rest, b))
  }

  /** Groups of digits separated by single spaces. */
  function Joined(groups: List<string>): string {
    match groups
    case Nil => ""
    case Cons(g, Nil) => g
    case Cons(g, rest) => g + " " + Joined(rest)
  }

  /** A dump line as a `<<-` heredoc keeps it: four spaces of indentation, the groups, a newline. */
  function HeredocLine(groups: List<string>): string {
    "    " + Joined(groups) + "\n"
  }

  /** The text of a heredoc dump, line after line. */
  function Heredoc(lines: List<List<string>>): string {
    match lines
    case Nil => ""
    case Cons(l, rest) => HeredocLine(l) + Heredoc(rest)
  }

  /** The digits of a dump line, with the spacing taken away. */
  function LineDigits(groups: List<string>): string {
    match groups
    case Nil => ""
    case Cons(g, rest) => g + LineDigits(rest)
  }

  /** The digits of a dump, with the layout taken away. */
  function Digits(lines: List<List<string>>): string {
    match lines
    case Nil => ""
    case Cons(l, rest) => LineDigits(l) + Digits(rest)
  }

  /** The octets of a dump line, group by group. */
  function LineOctets(groups: List<string>): seq<byte> {
    match groups
    case Nil => []
    case Cons(g, rest) => PackHex(g) + LineOctets(rest)
  }

  /** The octets of a dump, line by line. */
  function DumpOctets(lines: List<List<string>>): seq<byte> {
    match lines
    case Nil => []
    case Cons(l, rest) => LineOctets(l) + DumpOctets(rest)
  }

  /** A group holds an even number of hexadecimal digits. */
  predicate IsGroup(g: string) {
    |g| % 2 == 0 && forall i :: 0 <= i < |g| ==> IsHexDigit(g[i])
  }

  /** A group has no blank and no line end in it. */
  lemma GroupHasNoLayout(g: string)
    requires IsGroup(g)
    ensures ' ' !in g && '\n' !in g && '\r' !in g
  {
    forall i | 0 <= i < |g|
      ensures g[i] != ' ' && g[i] != '\n' && g[i] != '\r'
    {
      assert IsHexDigit(g[i]);
    }
  }

  predicate GroupsOk(groups: List<string>) {
    match groups
    case Nil => true
    case Cons(g, rest) => IsGroup(g) && GroupsOk(rest)
  }

  predicate LinesOk(lines: List<List<string>>) {
    match lines
    case Nil => true
    case Cons(l, rest) => GroupsOk(l) && LinesOk(rest)
  }

  /** Spaces and newlines taken away, as `create_pdu` does after chomping. */
  function Squeezed(s: string): string {
    Without(Without(s, ' '), '\n')
  }

  lemma SqueezedAppend(a: string, b: string)
    ensures Squeezed(a + b) == Squeezed(a) + Squeezed(b)
  {
    WithoutAppend(a, b, ' ');
    WithoutAppend(Without(a, ' '), Without(b, ' '), '\n');
  }

  lemma {:induction false} SqueezedJoined(groups: List<string>)
    requires GroupsOk(groups)
    ensures Squeezed(Joined(groups)) == LineDigits(groups)
    ensures '\r' !in Joined(groups)
  {
    match groups
    case Nil =>
    case Cons(g, rest) =>
      GroupHasNoLayout(g);
      WithoutAbsent(g, ' ');
      WithoutAbsent(g, '\n');
      assert Squeezed(g) == g;
      assert LineDigits(groups) == g + LineDigits(rest);
      if rest == Nil {
        assert Joined(groups) == g;
        assert LineDigits(groups) == g;
      } else {
        SqueezedJoined(rest);
        var j := Joined(rest);
        assert Joined(groups) == g + " " + j;
        SqueezedAppend(g + " ", j);
        SqueezedAppend(g, " ");
        assert Squeezed(" ") == "";
        assert '\r' !in g + " " + j by {
          assert forall c :: c in g + " " + j ==> c in g || c == ' ' || c in j;
        }
      }
  }

  /** One heredoc line squeezes to its digits and holds no carriage return. */
  lemma SqueezedLine(l: List<string>)
    requires GroupsOk(l)
    ensures Squeezed(HeredocLine(l)) == LineDigits(l)
    ensures '\r' !in HeredocLine(l)
  {
    SqueezedJoined(l);
    var indent, body, nl := "    ", Joined(l), "\n";
    assert HeredocLine(l) == indent + body + nl;
    assert Squeezed(indent) == "" && Squeezed(nl) == "";
    SqueezedAppend(indent, body);
    SqueezedAppend(indent + body, nl);
    assert '\r' !in indent && '\r' !in nl;
    AbsentFromParts(indent, body, nl, '\r');
  }

  /** A character in none of three strings is not in their concatenation. */
  lemma AbsentFromParts(a: string, b: string, c: string, x: char)
    requires x !in a && x !in b && x !in c
    ensures x !in a + b + c
  {
    assert forall y :: y in a + b + c ==> y in a || y in b || y in c;
  }

  lemma {:induction false} SqueezedHeredoc(lines: List<List<string>>)
    requires LinesOk(lines)
    ensures Squeezed(Heredoc(lines)) == Digits(lines)
    ensures '\r' !in Heredoc(lines)
  {
    match lines
    case Nil =>
    case Cons(l, rest) =>
      SqueezedLine(l);
      SqueezedHeredoc(rest);
      var line, more := HeredocLine(l), Heredoc(rest);
      assert Heredoc(lines) == line + more;
      SqueezedAppend(line, more);
      assert Digits(lines) == LineDigits(l) + Digits(rest);
      assert '\r' !in line + more by {
        assert forall c :: c in line + more ==> c in line || c in more;
      }
  }

  lemma EvenSum(x: int, y: int)
    requires x % 2 == 0 && y % 2 == 0
    ensures (x + y) % 2 == 0
  {
  }

  lemma {:induction false} PackLineDigits(groups: List<string>)
    requires GroupsOk(groups)
    ensures |LineDigits(groups)| % 2 == 0
    ensures PackHex(LineDigits(groups)) == LineOctets(groups)
  {
    match groups
    case Nil =>
    case Cons(g, rest) =>
      PackLineDigits(rest);
      var d := LineDigits(rest);
      assert LineDigits(groups) == g + d;
      EvenSum(|g|, |d|);
      PackHexAppend(g, d);
  }

  lemma {:induction false} PackDigits(lines: List<List<string>>)
    requires LinesOk(lines)
    ensures |Digits(lines)| % 2 == 0
    ensures PackHex(Digits(lines)) == DumpOctets(lines)
  {
    match lines
    case Nil =>
    case Cons(l, rest) =>
      PackLineDigits(l);
      PackDigits(rest);
      var g, d := LineDigits(l), Digits(rest);
      assert Digits(lines) == g + d;
      EvenSum(|g|, |d|);
      PackHexAppend(g, d);
  }

  /** A chomp takes off a final newline that no carriage return precedes. */
  lemma ChompNewline(r: string)
    requires '\r' !in r
    ensures Chomp(r + "\n") == r
  {
    var s := r + "\n";
    if |s| >= 2 {
      assert s[|s| - 2] == r[|r| - 1];
      assert r[|r| - 1] in r;
    }
    assert s[..|s| - 1] == r;
  }

  lemma {:induction false} HeredocEndsInNewline(lines: List<List<string>>)
    requires lines != Nil
    ensures |Heredoc(lines)| > 0 && Heredoc(lines)[|Heredoc(lines)| - 1] == '\n'
  {
    match lines
    case Cons(l, rest) =>
      if rest != Nil {
        HeredocEndsInNewline(rest);
      }
  }

  /**
    `create_pdu` on a heredoc dump in the fixtures' layout (four blanks of
    indentation, one blank between groups): the octets are the groups'
    octets in order, wherever the lines break.
   */
  lemma CreatePduBytesOfHeredoc(lines: List<List<string>>)
    requires lines != Nil && LinesOk(lines)
    ensures CreatePduBytes(Heredoc(lines)) == DumpOctets(lines)
  {
    var s := Heredoc(lines);
    SqueezedHeredoc(lines);
    HeredocEndsInNewline(lines);
    var body := s[..|s| - 1];
    assert s == body + "\n";
    assert '\r' !in body by {
      assert forall c :: c in body ==> c in s;
    }
    ChompNewline(body);
    SqueezedAppend(body, "\n");
    assert Squeezed("\n") == "";
    assert Chomp(s) == body;
    assert HexDigits(s) == Squeezed(body);
    assert Squeezed(body) == Squeezed(s);
    PackDigits(lines);
    assert CreatePduBytes(s) == PackHex(Digits(lines));
  }

  /** A line's octets split wherever the line is split. */
  lemma {:induction false} LineOctetsAppend(a: List<string>, b: List<string>)
    ensures LineOctets(Append(a, b)) == LineOctets(a) + LineOctets(b)
  {
    match a
    case Nil =>
    case Cons(g, rest) =>
      LineOctetsAppend(rest, b);
  }

  /** A line split in two is well formed when both parts are. */
  lemma {:induction false} GroupsOkAppend(a: List<string>, b: List<string>)
    ensures GroupsOk(Append(a, b)) == (GroupsOk(a) && GroupsOk(b))
  {
    match a
    case Nil =>
    case Cons(g, rest) =>
      GroupsOkAppend(rest, b);
  }
}
