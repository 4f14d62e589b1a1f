/**
  The chunked transfer coding of section 4.1 of RFC 7230: the bytes the chunked builder emits, and
  a reference decoder that undoes them.
 */
module ChunkedCoding {
  import opened Wrappers
  import opened Text
  import opened Buffers
  import opened IntegerAccumulator
  import opened NumberParsing

  const LAST_CHUNK := "0\r\n\r\n"

  function Hex(n: nat): string { Print(Hexadecimal, n) }

  /** One chunk on the wire, and a sequence of them. */
  function Chunk(c: string): string { Hex(|c|) + (CRLF + (c + CRLF)) }

  function Chunks(cs: seq<string>): string {
    if cs == [] then [] else Chunk(cs[0]) + Chunks(cs[1..])
  }

  function Concat(cs: seq<string>): string {
    if cs == [] then [] else cs[0] + Concat(cs[1..])
  }

  predicate StartsWithCrlf(w: string) { 2 <= |w| && w[..2] == CRLF }

  /** A size line: hexadecimal digits and a line end; no extensions. */
  function ReadSize(w: string): (r: Option<(nat, string)>)
    ensures r.Some? ==> |r.value.1| < |w|
  {
    var n := RunLength(Hexadecimal, w, 0, |w|);
    if n == 0 || !StartsWithCrlf(w[n..]) then None
    else Some((ValueOf(16, DigitsAt(Hexadecimal, w, 0, n)), w[n..][2..]))
  }

  /** The data of a chunked body, and what follows it; no trailers. */
  function Decode(w: string): Option<(string, string)>
    decreases |w|
  {
    match ReadSize(w)
    case None => None
    case Some((size, r)) =>
      if size == 0 then
        if StartsWithCrlf(r) then Some(("", r[2..])) else None
      else if |r| < size || !StartsWithCrlf(r[size..]) then None
      else
        match Decode(r[size..][2..])
        case None => None
        case Some((data, rest)) => Some((r[..size] + data, rest))
  }

  lemma DropsCrlf(rest: string)
    ensures StartsWithCrlf(CRLF + rest) && (CRLF + rest)[2..] == rest
  {}

  /** Reading a printed size. */
  lemma ReadsPrintedSize(n: nat, rest: string)
    ensures ReadSize(Hex(n) + (CRLF + rest)) == Some((n, rest))
  {
    NotADigit();
    hide ToDigit, RunLength, DigitsAt, ValueOf, DigitsOf, StartsWithCrlf;
    var r := CRLF + rest;
    var w := Hex(n) + r;
    assert w == "" + Print(Hexadecimal, n) + r;
    PrintSpells(Hexadecimal, n);
    SpelledRun(Hexadecimal, "", Hex(n), n, r, |w|);
    ValueOfDigits(Hexadecimal, n);
    assert w[|Hex(n)|..] == r;
    DropsCrlf(rest);
  }

  lemma NotADigit()
    ensures ToDigit(Hexadecimal, '\r').None?
  {}

  lemma DecodesLast(rest: string)
    ensures Decode(LAST_CHUNK + rest) == Some(("", rest))
  {
    assert Hex(0) == "0" by { assert DigitsOf(Hexadecimal, 0) == [0]; }
    hide ReadSize, StartsWithCrlf;
    assert LAST_CHUNK + rest == Hex(0) + (CRLF + (CRLF + rest));
    ReadsPrintedSize(0, CRLF + rest);
    DropsCrlf(rest);
  }

  lemma DecodesChunk(c: string, rest: string)
    requires c != []
    ensures Decode(Chunk(c) + rest)
            == match Decode(rest) case None => None case Some((data, tail)) => Some((c + data, tail))
  {
    hide ReadSize, StartsWithCrlf, Hex;
    var body := c + (CRLF + rest);
    assert Chunk(c) + rest == Hex(|c|) + (CRLF + body);
    ReadsPrintedSize(|c|, body);
    assert body[|c|..] == CRLF + rest && body[..|c|] == c;
    DropsCrlf(rest);
  }

  predicate NoneEmpty(cs: seq<string>) { forall i :: 0 <= i < |cs| ==> cs[i] != [] }

  /** Decoding undoes encoding and stops exactly at the end of the body. */
  lemma {:induction false} DecodeUndoesEncode(cs: seq<string>, rest: string)
    requires NoneEmpty(cs)
    ensures Decode(Chunks(cs) + (LAST_CHUNK + rest)) == Some((Concat(cs), rest))
  {
    hide Decode, Chunk;
    var tail := LAST_CHUNK + rest;
    if cs == [] {
      assert Chunks(cs) + tail == tail;
      DecodesLast(rest);
    } else {
      DecodeUndoesEncode(cs[1..], rest);
      DecodesChunk(cs[0], Chunks(cs[1..]) + tail);
      assert Chunks(cs) + tail == Chunk(cs[0]) + (Chunks(cs[1..]) + tail);
    }
  }

  lemma Regroup(a: string, b: string, c: string)
    ensures a + (b + c) == (a + b) + c
  {}

  lemma {:induction false} ChunksConcat(a: seq<string>, b: seq<string>)
    ensures Chunks(a + b) == Chunks(a) + Chunks(b)
  {
    hide Chunk;
    if a == [] {
      assert a + b == b;
    } else {
      ChunksConcat(a[1..], b);
      assert (a + b)[1..] == a[1..] + b && (a + b)[0] == a[0];
      Regroup(Chunk(a[0]), Chunks(a[1..]), Chunks(b));
    }
  }

  // ---------------------------------------------------------------------------------------------
  // The buffers of one flush.

  function Bytes(items: seq<Item>): string {
    if items == [] then []
    else Bytes(items[..|items| - 1]) + if items[|items| - 1].Trivial? then items[|items| - 1].bytes else ""
  }

  lemma {:induction false} BytesConcat(a: seq<Item>, b: seq<Item>)
    ensures Bytes(a + b) == Bytes(a) + Bytes(b)
  {
    if b == [] {
      assert a + b == a;
    } else {
      BytesConcat(a, b[..|b| - 1]);
      assert (a + b)[..|a + b| - 1] == a + b[..|b| - 1];
    }
  }

  /** Size lines and data; every size line but the first also ends the chunk before it. */
  function ChunkItems(cs: seq<string>): seq<Item> {
    if cs == [] then []
    else
      var init := cs[..|cs| - 1];
      var c := cs[|cs| - 1];
      ChunkItems(init) + [Trivial((if init == [] then "" else CRLF) + Hex(|c|) + CRLF), Trivial(c)]
  }

  /** The end of the last chunk, and the last chunk itself. */
  function Appendix(cs: seq<string>, addZeroChunk: bool): string {
    (if cs == [] then "" else CRLF) + (if addZeroChunk then LAST_CHUNK else "")
  }

  function AppendixItems(cs: seq<string>, addZeroChunk: bool): seq<Item> {
    if Appendix(cs, addZeroChunk) == [] then [] else [Trivial(Appendix(cs, addZeroChunk))]
  }

  function CreateBufs(header: Option<string>, cs: seq<string>, addZeroChunk: bool): seq<Item> {
    (if header.Some? then [Trivial(header.value)] else []) + ChunkItems(cs) + AppendixItems(cs, addZeroChunk)
  }

  lemma NoChunkItems()
    ensures ChunkItems([]) == []
  {}

  lemma ChunkItemsStep(cs: seq<string>, i: nat)
    requires i < |cs|
    ensures ChunkItems(cs[..i + 1])
            == ChunkItems(cs[..i]) + [Trivial((if i == 0 then "" else CRLF) + Hex(|cs[i]|) + CRLF), Trivial(cs[i])]
  {
    hide Hex;
    assert cs[..i + 1][..i] == cs[..i];
  }

  lemma TwoMore(head: seq<Item>, items: seq<Item>, a: Item, b: Item)
    ensures (head + items) + [a] + [b] == head + (items + [a, b])
  {}

  lemma AppendixIs(cs: seq<string>, addZeroChunk: bool, appendix: string)
    requires appendix == (if cs != [] then CRLF else "") + (if addZeroChunk then LAST_CHUNK else "")
    ensures appendix == Appendix(cs, addZeroChunk)
  {}

  /** The loop of `create_bufs`. */
  method CreateBuffers(header: Option<string>, cs: seq<string>, addZeroChunk: bool) returns (bufs: seq<Item>)
    ensures bufs == CreateBufs(header, cs, addZeroChunk)
  {
    hide Hex, ChunkItems, Appendix;
    ghost var head := if header.Some? then [Trivial(header.value)] else [];
    bufs := [];
    if header.Some? {
      bufs := [Trivial(header.value)];
    }
    assert cs[..0] == [] && head + ChunkItems([]) == head by { NoChunkItems(); }
    var lead := "";
    var i := 0;
    while i < |cs|
      invariant 0 <= i <= |cs| && lead == if i == 0 then "" else CRLF
      invariant bufs == head + ChunkItems(cs[..i])
    {
      ChunkItemsStep(cs, i);
      TwoMore(head, ChunkItems(cs[..i]), Trivial(lead + Hex(|cs[i]|) + CRLF), Trivial(cs[i]));
      bufs := bufs + [Trivial(lead + Hex(|cs[i]|) + CRLF)];
      lead := CRLF;
      bufs := bufs + [Trivial(cs[i])];
      i := i + 1;
    }
    assert cs[..i] == cs;
    var appendix := "";
    if cs != [] {
      appendix := CRLF;
    }
    if addZeroChunk {
      appendix := appendix + LAST_CHUNK;
    }
    assert appendix == Appendix(cs, addZeroChunk) by { AppendixIs(cs, addZeroChunk, appendix); }
    if appendix != "" {
      bufs := bufs + [Trivial(appendix)];
    }
  }

  lemma BytesOfPair(a: string, b: string)
    ensures Bytes([Trivial(a), Trivial(b)]) == a + b
  {
    var items := [Trivial(a), Trivial(b)];
    assert items[..1] == [Trivial(a)];
    assert Bytes([Trivial(a)]) == a;
  }

  /** Without its last line end, a sequence of chunks. */
  lemma {:induction false} ChunkItemsBytes(cs: seq<string>)
    requires cs != []
    ensures Bytes(ChunkItems(cs)) + CRLF == Chunks(cs)
  {
    hide Bytes, Hex, Chunk;
    var init := cs[..|cs| - 1];
    var c := cs[|cs| - 1];
    var lead := if init == [] then "" else CRLF;
    var pair := [Trivial(lead + Hex(|c|) + CRLF), Trivial(c)];
    BytesConcat(ChunkItems(init), pair);
    BytesOfPair(lead + Hex(|c|) + CRLF, c);
    assert cs == init + [c];
    ChunksConcat(init, [c]);
    assert Chunks([c]) == Chunk(c) + [];
    if init == [] {
      NoBytes();
    } else {
      ChunkItemsBytes(init);
    }
    hide Chunks, ChunkItems;
    CompletesChunk(Bytes(ChunkItems(init)), Chunks(init), lead, c);
  }

  lemma CompletesChunk(bytes: string, chunks: string, lead: string, c: string)
    requires chunks == bytes + lead
    ensures bytes + (lead + Hex(|c|) + CRLF + c) + CRLF == chunks + Chunk(c)
  {
    hide Hex;
  }

  lemma NoBytes()
    ensures Bytes([]) == []
  {}

  lemma BytesOfOne(a: string)
    ensures Bytes([Trivial(a)]) == a
  {
    assert [Trivial(a)][..0] == [];
  }

  lemma AppendixCompletes(cs: seq<string>, addZeroChunk: bool)
    ensures Bytes(ChunkItems(cs)) + Bytes(AppendixItems(cs, addZeroChunk))
            == Chunks(cs) + (if addZeroChunk then LAST_CHUNK else "")
  {
    hide Bytes, Chunks, ChunkItems;
    var a := Appendix(cs, addZeroChunk);
    var zero := if addZeroChunk then LAST_CHUNK else "";
    NoBytes();
    BytesOfOne(a);
    assert Bytes(AppendixItems(cs, addZeroChunk)) == a;
    if cs == [] {
      NothingChunked();
    } else {
      ChunkItemsBytes(cs);
      assert Bytes(ChunkItems(cs)) + (CRLF + zero) == (Bytes(ChunkItems(cs)) + CRLF) + zero;
    }
  }

  lemma NothingChunked()
    ensures ChunkItems([]) == [] && Chunks([]) == []
  {}

  /** One flush emits the header if it is due, its chunks, and the last chunk if it is the end. */
  lemma FlushBytes(header: Option<string>, cs: seq<string>, addZeroChunk: bool)
    ensures Bytes(CreateBufs(header, cs, addZeroChunk))
            == (if header.Some? then header.value else "") + (Chunks(cs) + (if addZeroChunk then LAST_CHUNK else ""))
  {
    hide Bytes, Chunks, ChunkItems, AppendixItems;
    var head := if header.Some? then [Trivial(header.value)] else [];
    var tail := AppendixItems(cs, addZeroChunk);
    BytesConcat(head, ChunkItems(cs));
    BytesConcat(head + ChunkItems(cs), tail);
    AppendixCompletes(cs, addZeroChunk);
    NoBytes();
    if header.Some? {
      BytesOfOne(header.value);
    }
    assert Bytes(head) == if header.Some? then header.value else "";
    assert Bytes(head) + Bytes(ChunkItems(cs)) + Bytes(tail) == Bytes(head) + (Bytes(ChunkItems(cs)) + Bytes(tail));
  }
}
