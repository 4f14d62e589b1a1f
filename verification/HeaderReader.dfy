/**
  A reference reader for response headers, written over the text alone (section 3 of RFC 7230: a
  status line, header fields, an empty line), and the proof that it undoes the header printer.
 */
module HeaderReader {
  import opened Wrappers
  import opened Text
  import opened IntegerAccumulator
  import opened NumberParsing
  import opened HeaderString

  /** What a reader finds in a header: fields are names and values, in order. */
  datatype Head = Head(major: nat, minor: nat, status: nat, reason: string, fields: seq<(string, string)>)

  // ---------------------------------------------------------------------------------------------
  // The reader.

  /** The text before the first line end, and the text after it. */
  function ReadLine(w: string): (r: Option<(string, string)>)
    ensures r.Some? ==> |r.value.1| < |w|
  {
    if |w| < 2 then None
    else if w[..2] == CRLF then Some(("", w[2..]))
    else
      match ReadLine(w[1..])
      case None => None
      case Some((line, rest)) => Some(([w[0]] + line, rest))
  }

  /** A name and a value around the first colon and space. */
  function ReadField(line: string): Option<(string, string)> {
    if |line| < 2 then None
    else if line[..2] == ": " then Some(("", line[2..]))
    else
      match ReadField(line[1..])
      case None => None
      case Some((name, value)) => Some(([line[0]] + name, value))
  }

  function ReadFields(w: string): Option<(seq<(string, string)>, string)>
    decreases |w|
  {
    match ReadLine(w)
    case None => None
    case Some((line, rest)) =>
      if line == "" then Some(([], rest))
      else
        match ReadField(line)
        case None => None
        case Some(field) =>
          match ReadFields(rest)
          case None => None
          case Some((fields, after)) => Some(([field] + fields, after))
  }

  predicate DigitAt(w: string, i: nat) { i < |w| && '0' <= w[i] <= '9' }

  function DigitValue(w: string, i: nat): nat
    requires DigitAt(w, i)
  {
    w[i] as nat - '0' as nat
  }

  function ReadStatusLine(line: string): Option<Head> {
    if && 13 <= |line| && line[..5] == "HTTP/" && line[6] == '.' && line[8] == ' ' && line[12] == ' '
       && DigitAt(line, 5) && DigitAt(line, 7) && DigitAt(line, 9) && DigitAt(line, 10) && DigitAt(line, 11)
    then
      var status := 100 * DigitValue(line, 9) + 10 * DigitValue(line, 10) + DigitValue(line, 11);
      Some(Head(DigitValue(line, 5), DigitValue(line, 7), status, line[13..], []))
    else None
  }

  function ReadHead(w: string): Option<(Head, string)> {
    match ReadLine(w)
    case None => None
    case Some((line, rest)) =>
      match ReadStatusLine(line)
      case None => None
      case Some(head) =>
        match ReadFields(rest)
        case None => None
        case Some((fields, after)) => Some((head.(fields := fields), after))
  }

  /** The meaning of the value of a Connection field. */
  function ReadConnection(value: string): Option<ConnectionValue> {
    if value == "keep-alive" then Some(KeepAlive)
    else if value == "close" then Some(Close)
    else if value == "Upgrade" then Some(Upgrade)
    else None
  }

  /** The number in a Content-Length field, read by the 64-bit decimal parser. */
  function ReadLength(value: string): Option<int> {
    match ParseDigits(Decimal, IntType(64, false), PositiveExtremum, DigitsLimit(1, 127), value, 0)
    case Number(pos, n) => if pos == |value| then Some(n) else None
    case NoNumber(_, _) => None
  }

  // ---------------------------------------------------------------------------------------------
  // What the printer puts in.

  function ConnectionWord(c: ConnectionValue): string {
    match c
    case KeepAlive => "keep-alive"
    case Close => "close"
    case Upgrade => "Upgrade"
  }

  /** The fields of the header text: connection, length if asked for, the fields of the header. */
  function FrontFields(h: Header, addContentLength: bool): seq<Field> {
    [Field(OtherField, "Connection", ConnectionWord(h.connection))]
    + if addContentLength then [Field(OtherField, "Content-Length", Print(Decimal, h.contentLength))] else []
  }

  function Pairs(fields: seq<Field>): (r: seq<(string, string)>)
    ensures |r| == |fields|
  {
    seq(|fields|, k requires 0 <= k < |fields| => (fields[k].name, fields[k].value))
  }

  /** What the source expects of its callers without checking: no line break anywhere, no colon in a
      name, and a version and status of one and three digits. */
  ghost predicate Printable(h: Header) {
    && h.major <= 9 && h.minor <= 9 && h.statusCode <= 999
    && '\r' !in h.reason
    && forall k :: 0 <= k < |h.fields| ==> CleanField(h.fields[k])
  }

  predicate CleanField(f: Field) { '\r' !in f.name && ':' !in f.name && '\r' !in f.value }

  // ---------------------------------------------------------------------------------------------

  lemma {:induction false} ReadsLine(line: string, rest: string)
    requires '\r' !in line
    ensures ReadLine(line + (CRLF + rest)) == Some((line, rest))
  {
    var w := line + (CRLF + rest);
    if line == "" {
      assert w[..2] == CRLF && w[2..] == rest;
    } else {
      assert w[0] == line[0] && w[0] != '\r';
      assert w[..2][0] == w[0];
      assert w[1..] == line[1..] + (CRLF + rest);
      ReadsLine(line[1..], rest);
      assert CRLF[0] == '\r' && w[..2] != CRLF;
      assert [line[0]] + line[1..] == line;
    }
  }

  lemma {:induction false} ReadsField(name: string, value: string)
    requires ':' !in name
    ensures ReadField(name + (": " + value)) == Some((name, value))
  {
    var line := name + (": " + value);
    if name == "" {
      assert line[..2] == ": " && line[2..] == value;
    } else {
      assert line[0] == name[0] && line[0] != ':';
      assert line[..2][0] == line[0];
      assert line[1..] == name[1..] + (": " + value);
      ReadsField(name[1..], value);
      assert ": "[0] == ':' && line[..2] != ": ";
      assert [name[0]] + name[1..] == name;
    }
  }

  lemma {:induction false} FieldLinesCons(fields: seq<Field>)
    requires fields != []
    ensures FieldLines(fields) == FieldLine(fields[0]) + FieldLines(fields[1..])
  {
    hide FieldLine;
    var n := |fields| - 1;
    if n == 0 {
      assert fields[..0] == [] && fields[1..] == [];
    } else {
      var init := fields[..n];
      FieldLinesCons(init);
      assert fields[1..][..n - 1] == init[1..] && fields[1..][n - 1] == fields[n];
      Regroup(FieldLine(fields[0]), FieldLines(init[1..]), FieldLine(fields[n]));
    }
  }

  lemma Regroup(a: string, b: string, c: string)
    ensures a + (b + c) == (a + b) + c
  {}

  lemma FieldLineText(f: Field, more: string)
    ensures FieldLine(f) + more == (f.name + (": " + f.value)) + (CRLF + more)
    ensures CleanField(f) ==> '\r' !in f.name + (": " + f.value) && f.name + (": " + f.value) != ""
  {}

  lemma {:induction false} ReadsFields(fields: seq<Field>, rest: string)
    requires forall k :: 0 <= k < |fields| ==> CleanField(fields[k])
    ensures ReadFields(FieldLines(fields) + (CRLF + rest)) == Some((Pairs(fields), rest))
  {
    hide FieldLine, FieldLines, CleanField, ReadField, ReadLine;
    var w := FieldLines(fields) + (CRLF + rest);
    if fields == [] {
      NoFieldLines();
      assert w == "" + (CRLF + rest);
      ReadsLine("", rest);
    } else {
      var f := fields[0];
      var more := FieldLines(fields[1..]) + (CRLF + rest);
      FieldLinesCons(fields);
      Regroup(FieldLine(f), FieldLines(fields[1..]), CRLF + rest);
      FieldLineText(f, more);
      CleanName(f);
      ReadsLine(f.name + (": " + f.value), more);
      ReadsField(f.name, f.value);
      ReadsFields(fields[1..], rest);
      assert Pairs(fields) == [(f.name, f.value)] + Pairs(fields[1..]);
    }
  }

  lemma NoFieldLines()
    ensures FieldLines([]) == ""
  {}

  lemma CleanName(f: Field)
    requires CleanField(f)
    ensures ':' !in f.name
  {}

  lemma ReadsStatusLine(h: Header)
    requires h.major <= 9 && h.minor <= 9 && h.statusCode <= 999
    ensures ReadStatusLine(StatusLine(h)) == Some(Head(h.major, h.minor, h.statusCode, h.reason, []))
  {
    var l := StatusLine(h);
    assert l[..5] == "HTTP/";
    assert l[13..] == h.reason;
    var sc := h.statusCode;
    assert 100 * (sc / 100 % 10) + 10 * (sc / 10 % 10) + sc % 10 == sc;
  }

  lemma StatusLineIsALine(h: Header)
    requires h.major <= 9 && h.minor <= 9 && '\r' !in h.reason
    ensures '\r' !in StatusLine(h)
  {}

  lemma {:induction false} FieldLinesConcat(a: seq<Field>, b: seq<Field>)
    ensures FieldLines(a + b) == FieldLines(a) + FieldLines(b)
  {
    hide FieldLine;
    if b == [] {
      assert a + b == a;
    } else {
      var n := |b| - 1;
      assert (a + b)[..|a + b| - 1] == a + b[..n] && (a + b)[|a + b| - 1] == b[n];
      FieldLinesConcat(a, b[..n]);
      Regroup(FieldLines(a), FieldLines(b[..n]), FieldLine(b[n]));
    }
  }

  lemma OneLine(f: Field)
    ensures FieldLines([f]) == FieldLine(f)
  {
    assert [f][..0] == [];
  }

  /** Connection and length are written like fields. */
  lemma FrontLines(h: Header, addContentLength: bool)
    ensures FieldLines(FrontFields(h, addContentLength))
            == ConnectionLine(h.connection) + if addContentLength then LengthLine(h.contentLength) else ""
  {
    var c := Field(OtherField, "Connection", ConnectionWord(h.connection));
    var n := Field(OtherField, "Content-Length", Print(Decimal, h.contentLength));
    assert FieldLine(c) == ConnectionLine(h.connection);
    assert FieldLine(n) == LengthLine(h.contentLength);
    hide Print, FieldLines, ConnectionLine, LengthLine, ConnectionWord;
    OneLine(c);
    OneLine(n);
    FieldLinesConcat([c], [n]);
  }

  lemma {:induction false} DigitsAreClean(n: nat)
    ensures '\r' !in Print(Decimal, n)
  {
    var ds := DigitsOf(Decimal, n);
    forall k | 0 <= k < |ds| ensures DigitChar(ds[k]) != '\r' {}
  }

  /** The printed header, read by the reference reader wherever it stands in the output, gives back
      version, status code, reason phrase, the connection and content length fields and the fields
      of the header in order, and what follows it. */
  lemma ReadUndoesPrint(h: Header, addContentLength: bool, rest: string)
    requires Printable(h)
    ensures ReadHead(HeaderText(h, addContentLength) + rest)
            == Some((Head(h.major, h.minor, h.statusCode, h.reason, Pairs(FrontFields(h, addContentLength) + h.fields)), rest))
  {
    hide StatusLine, FieldLines, ReadStatusLine, ReadFields, ReadLine, ConnectionLine, LengthLine, Pairs, CleanField;
    var front := FrontFields(h, addContentLength);
    var all := front + h.fields;
    FrontLines(h, addContentLength);
    FieldLinesConcat(front, h.fields);
    FrontIsClean(h, addContentLength);
    assert HeaderText(h, addContentLength) + rest == StatusLine(h) + (CRLF + (FieldLines(all) + (CRLF + rest)));
    StatusLineIsALine(h);
    ReadsLine(StatusLine(h), FieldLines(all) + (CRLF + rest));
    ReadsStatusLine(h);
    ReadsFields(all, rest);
  }

  lemma FrontIsClean(h: Header, addContentLength: bool)
    ensures forall k :: 0 <= k < |FrontFields(h, addContentLength)| ==> CleanField(FrontFields(h, addContentLength)[k])
  {
    DigitsAreClean(h.contentLength);
    hide Print;
  }

  /** The connection field says what the header says, and the length field is the content length. */
  lemma FieldsMeanTheHeader(h: Header)
    ensures ReadConnection(ConnectionWord(h.connection)) == Some(h.connection)
    ensures ReadLength(Print(Decimal, h.contentLength)) == Some(h.contentLength)
  {
    var n := h.contentLength;
    var text := Print(Decimal, n);
    LengthFits(n);
    hide Print, ParseDigits;
    ParseUndoesPrint(Decimal, IntType(64, false), PositiveExtremum, DigitsLimit(1, 127), "", n, "");
    assert "" + text + "" == text;
  }

  lemma LengthFits(n: UInt64)
    ensures 1 <= |Print(Decimal, n)| <= 20 && n <= Limit(IntType(64, false), PositiveExtremum)
  {
    TenToTwenty();
    DecimalLength(n, 20);
    assert Pow2(64) == 0x1_0000_0000_0000_0000 by {
      Pow32();
      assert Pow2(36) == 0x10_0000_0000;
      assert Pow2(40) == 0x100_0000_0000;
      assert Pow2(44) == 0x1000_0000_0000;
      assert Pow2(48) == 0x1_0000_0000_0000;
      assert Pow2(52) == 0x10_0000_0000_0000;
      assert Pow2(56) == 0x100_0000_0000_0000;
      assert Pow2(60) == 0x1000_0000_0000_0000;
    }
  }
}
