/** The serialised response header (restinio/impl/header_helpers.hpp). */
module HeaderString {
  import opened Text
  import opened NumberParsing
  import opened IntegerAccumulator

  datatype FieldId = TransferEncoding | OtherField

  datatype Field = Field(id: FieldId, name: string, value: string)

  datatype ConnectionValue = KeepAlive | Close | Upgrade

  type UInt64 = n: nat | n < 0x1_0000_0000_0000_0000

  datatype Header = Header(
    major: nat,
    minor: nat,
    statusCode: nat,
    reason: string,
    connection: ConnectionValue,
    contentLength: UInt64,
    fields: seq<Field>)
  {
    predicate ShouldKeepAlive() { connection == KeepAlive }
  }

  /** `static_cast<char>('0' + v)`. */
  function VersionChar(v: nat): char { ((48 + v) % 256) as char }

  function StatusDigit(d: nat): char { '0' + (d % 10) as char }

  function StatusLine(h: Header): string {
    "HTTP/" + [VersionChar(h.major)] + "." + [VersionChar(h.minor)] + " "
    + [StatusDigit(h.statusCode / 100), StatusDigit(h.statusCode / 10), StatusDigit(h.statusCode)] + " " + h.reason
  }

  function ConnectionLine(c: ConnectionValue): string {
    match c
    case KeepAlive => "Connection: keep-alive\r\n"
    case Close => "Connection: close\r\n"
    case Upgrade => "Connection: Upgrade\r\n"
  }

  function LengthLine(n: nat): string { "Content-Length: " + Print(Decimal, n) + CRLF }

  function FieldLine(f: Field): string { f.name + ": " + f.value + CRLF }

  function FieldLines(fields: seq<Field>): string {
    if fields == [] then [] else FieldLines(fields[..|fields| - 1]) + FieldLine(fields[|fields| - 1])
  }

  function HeaderText(h: Header, addContentLength: bool): string {
    StatusLine(h) + CRLF + ConnectionLine(h.connection)
    + (if addContentLength then LengthLine(h.contentLength) else "") + FieldLines(h.fields) + CRLF
  }

  method CreateHeaderString(h: Header, addContentLength: bool) returns (result: string)
    ensures result == HeaderText(h, addContentLength)
  {
    result := "HTTP/";
    result := result + [VersionChar(h.major)] + "." + [VersionChar(h.minor)] + " ";
    result := result + [StatusDigit(h.statusCode / 100), StatusDigit(h.statusCode / 10), StatusDigit(h.statusCode)];
    result := result + " " + h.reason;
    assert result == StatusLine(h);
    result := result + CRLF + ConnectionLine(h.connection);
    if addContentLength {
      result := result + LengthLine(h.contentLength);
    }
    hide StatusLine, ConnectionLine, LengthLine;
    result := AppendFields(result, h.fields);
    result := result + CRLF;
  }

  /** The `for_each_field` loop. */
  method AppendFields(start: string, fields: seq<Field>) returns (result: string)
    ensures result == start + FieldLines(fields)
  {
    hide FieldLine;
    result := start;
    var i := 0;
    while i < |fields|
      invariant 0 <= i <= |fields| && result == start + FieldLines(fields[..i])
    {
      assert fields[..i + 1][..i] == fields[..i];
      assert start + FieldLines(fields[..i]) + FieldLine(fields[i]) == start + (FieldLines(fields[..i]) + FieldLine(fields[i]));
      result := result + FieldLine(fields[i]);
      i := i + 1;
    }
    assert fields[..i] == fields;
  }

  /** `calculate_approx_buffer_size_for_header`. */
  method ApproxBufferSize(h: Header) returns (result: nat)
    ensures result == Reserve(h)
  {
    result := 13 + |h.reason| + 2 + 26 + (20 + 18) + 2;
    var i := 0;
    while i < |h.fields|
      invariant 0 <= i <= |h.fields| && result == 81 + |h.reason| + FieldsReserve(h.fields[..i])
    {
      assert h.fields[..i + 1][..i] == h.fields[..i];
      result := result + |h.fields[i].name| + 2 + |h.fields[i].value| + 2;
      i := i + 1;
    }
    assert h.fields[..i] == h.fields;
  }

  function FieldsReserve(fields: seq<Field>): nat {
    if fields == [] then 0
    else FieldsReserve(fields[..|fields| - 1]) + |fields[|fields| - 1].name| + 2 + |fields[|fields| - 1].value| + 2
  }

  function Reserve(h: Header): nat { 81 + |h.reason| + FieldsReserve(h.fields) }

  function StatusLineSize(h: Header): nat { 8 + 1 + 3 + 1 + |h.reason| }

  lemma StatusLineLength(h: Header)
    ensures |StatusLine(h)| == StatusLineSize(h)
  {}

  /** The computed size delimits exactly the status line, whatever follows. */
  lemma StatusLineIsDelimited(h: Header, addContentLength: bool)
    ensures var text := HeaderText(h, addContentLength);
            var n := StatusLineSize(h);
            && n + 2 <= |text| && text[..n] == StatusLine(h) && text[n..n + 2] == CRLF
  {
    StatusLineLength(h);
    hide StatusLine, ConnectionLine, LengthLine, FieldLines;
    var n := StatusLineSize(h);
    var text := HeaderText(h, addContentLength);
    assert text[n] == '\r' && text[n + 1] == '\n';
  }

  function Pow10(n: nat): nat { if n == 0 then 1 else 10 * Pow10(n - 1) }

  lemma {:induction false} DecimalLength(n: nat, k: nat)
    requires n < Pow10(k) && 0 < k
    ensures |Print(Decimal, n)| <= k
  {
    if n >= 10 {
      DecimalLength(Quotient(Decimal, n), k - 1);
    }
  }

  lemma TenToTwenty()
    ensures Pow10(20) == 100000000000000000000
  {
    assert Pow10(5) == 100000;
    assert Pow10(10) == 10000000000;
    assert Pow10(15) == 1000000000000000;
  }

  lemma {:induction false} FieldsFit(fields: seq<Field>)
    ensures |FieldLines(fields)| == FieldsReserve(fields)
  {
    if fields != [] {
      FieldsFit(fields[..|fields| - 1]);
    }
  }

  /** The header never outgrows the buffer reserved for it. */
  lemma HeaderFitsReserve(h: Header, addContentLength: bool)
    ensures |HeaderText(h, addContentLength)| <= Reserve(h)
  {
    FieldsFit(h.fields);
    TenToTwenty();
    DecimalLength(h.contentLength, 20);
  }
}
