/**
  The three response builders (restinio/message_builders.hpp) as state machines. What a builder
  hands to its connection is collected in a log.
 */
module ResponseBuilders {
  import opened Wrappers
  import opened Text
  import opened Buffers
  import opened HeaderString
  import opened ChunkedCoding

  /** One call of `write_response_parts`. */
  datatype Parts = Parts(final: bool, keepAlive: bool, items: seq<Item>, statusLineSize: nat, notify: bool)

  /** The calls a user can make on a builder. */
  datatype Call =
    | AppendHeader(field: Field)
    | ConnectionClose
    | SetContentLength(n: UInt64)
    | SetBody(item: Item)
    | AppendBody(item: Item)
    | AppendChunk(bytes: string)
    | Flush(notify: bool)
    | Done(notify: bool)

  function ChangeHeader(h: Header, call: Call): Header {
    match call
    case AppendHeader(field) => h.(fields := h.fields + [field])
    case ConnectionClose => h.(connection := Close)
    case SetContentLength(n) => h.(contentLength := n)
    case _ => h
  }

  /** The first item is the header, and the status line size delimits the status line inside it. */
  ghost predicate BeginsWithHeader(p: Parts, h: Header, addContentLength: bool) {
    && p.items != [] && p.items[0] == Trivial(HeaderText(h, addContentLength))
    && p.statusLineSize == StatusLineSize(h)
  }

  /** The groups of one response: the first begins with the header and is the only one with a status
      line, all carry the connection attribute of the header that was sent, and exactly the last one
      of a completed response is final. */
  ghost predicate ProperLog(log: seq<Parts>, connected: bool, keepAlive: bool, addContentLength: bool) {
    && (!connected ==> log != [])
    && (forall k :: 0 <= k < |log| ==> log[k].keepAlive == keepAlive)
    && (forall k :: 0 <= k < |log| ==> (log[k].final <==> !connected && k == |log| - 1))
    && (forall k :: 0 < k < |log| ==> log[k].statusLineSize == 0)
    && (log != [] ==> exists h :: BeginsWithHeader(log[0], h, addContentLength) && h.ShouldKeepAlive() == keepAlive)
  }

  /** The condition `status_line_size` checks, so it never throws here. */
  predicate StatusLineFits(p: Parts) {
    p.statusLineSize == 0 ||
    (p.items != [] && p.items[0].Trivial? && p.statusLineSize <= |p.items[0].bytes|)
  }

  lemma ProperStatusLinesFit(log: seq<Parts>, connected: bool, keepAlive: bool, addContentLength: bool)
    requires ProperLog(log, connected, keepAlive, addContentLength)
    ensures forall k :: 0 <= k < |log| ==> StatusLineFits(log[k])
  {
    if log != [] {
      var h :| BeginsWithHeader(log[0], h, addContentLength) && h.ShouldKeepAlive() == keepAlive;
      StatusLineIsDelimited(h, addContentLength);
    }
  }

  /** Adding one more group to the log. */
  lemma LogGrows(log: seq<Parts>, p: Parts, keepAlive: bool, addContentLength: bool)
    requires ProperLog(log, true, if log == [] then p.keepAlive else keepAlive, addContentLength)
    requires log != [] ==> p.keepAlive == keepAlive && p.statusLineSize == 0
    requires log == [] ==> exists h :: BeginsWithHeader(p, h, addContentLength) && h.ShouldKeepAlive() == p.keepAlive
    ensures ProperLog(log + [p], !p.final, p.keepAlive, addContentLength)
  {
    var more := log + [p];
    assert forall k :: 0 <= k < |log| ==> more[k] == log[k];
  }

  // ---------------------------------------------------------------------------------------------
  // Chunked output.

  datatype ChunkedState = ChunkedState(
    header: Header,
    connected: bool,
    headerSent: bool,
    keepAlive: bool,
    chunks: seq<string>,
    log: seq<Parts>)

  function ChunkedStart(h: Header): ChunkedState { ChunkedState(h, true, false, true, [], []) }

  predicate Contains(w: string, m: string) { exists i :: 0 <= i <= |w| && OccursAt(w, m, i) }

  function FindField(fields: seq<Field>, i: nat): Option<nat>
    decreases |fields| - i
  {
    if i >= |fields| then None
    else if fields[i].id == TransferEncoding then Some(i)
    else FindField(fields, i + 1)
  }

  /** `prepare_header_for_sending`: the transfer coding is announced, once. */
  function AnnounceChunked(h: Header): Header {
    var k := FindField(h.fields, 0);
    if k.None? || |h.fields| <= k.value then h.(fields := h.fields + [Field(TransferEncoding, "Transfer-Encoding", "chunked")])
    else
      var f := h.fields[k.value];
      if Contains(f.value, "chunked") then h
      else h.(fields := h.fields[k.value := f.(value := f.value + ",chunked")])
  }

  function ChunkedSend(s: ChunkedState, final: bool, notify: bool): ChunkedState {
    var header := if s.headerSent then s.header else AnnounceChunked(s.header);
    var keepAlive := if s.headerSent then s.keepAlive else s.header.ShouldKeepAlive();
    var size := if s.headerSent then 0 else StatusLineSize(s.header);
    var bufs := CreateBufs(if s.headerSent then None else Some(HeaderText(header, false)), s.chunks, final);
    var log := if bufs != [] || notify then s.log + [Parts(final, keepAlive, bufs, size, notify)] else s.log;
    ChunkedState(header, s.connected, true, keepAlive, [], log)
  }

  /** A call; `done()` on a finished builder throws and changes nothing. */
  function ChunkedCall(s: ChunkedState, call: Call): ChunkedState {
    match call
    case AppendChunk(bytes) => if bytes != [] then s.(chunks := s.chunks + [bytes]) else s
    case Flush(notify) => if s.connected then ChunkedSend(s, false, notify) else s
    case Done(notify) => if s.connected then ChunkedSend(s, true, notify).(connected := false) else s
    case SetBody(_) | AppendBody(_) | SetContentLength(_) => s
    case _ => s.(header := ChangeHeader(s.header, call))
  }

  function ChunkedRun(h: Header, calls: seq<Call>): ChunkedState {
    if calls == [] then ChunkedStart(h)
    else ChunkedCall(ChunkedRun(h, calls[..|calls| - 1]), calls[|calls| - 1])
  }

  /** The nonempty chunks of a sequence of calls. */
  function AppendedChunks(calls: seq<Call>): (cs: seq<string>)
    ensures NoneEmpty(cs)
  {
    if calls == [] then []
    else
      var last := calls[|calls| - 1];
      var init := AppendedChunks(calls[..|calls| - 1]);
      if last.AppendChunk? && last.bytes != [] then init + [last.bytes] else init
  }

  /** Everything put on the wire, and the header in front of it. */
  function Wire(log: seq<Parts>): string {
    if log == [] then [] else Wire(log[..|log| - 1]) + Bytes(log[|log| - 1].items)
  }

  function SentHeader(log: seq<Parts>): string {
    if log != [] && log[0].items != [] && log[0].items[0].Trivial? then log[0].items[0].bytes else ""
  }

  ghost predicate ChunkedInv(s: ChunkedState) {
    && (s.headerSent <==> s.log != [])
    && ProperLog(s.log, s.connected, s.keepAlive, false)
  }

  lemma ChunkedSendInv(s: ChunkedState, final: bool, notify: bool)
    requires ChunkedInv(s) && s.connected
    ensures ChunkedInv(ChunkedSend(s, final, notify).(connected := !final))
    ensures final ==> |ChunkedSend(s, final, notify).log| == |s.log| + 1
  {
    var t := ChunkedSend(s, final, notify);
    var bufs := CreateBufs(if s.headerSent then None else Some(HeaderText(t.header, false)), s.chunks, final);
    if bufs != [] || notify {
      var p := t.log[|s.log|];
      if !s.headerSent {
        assert AnnounceChunked(s.header).reason == s.header.reason && AnnounceChunked(s.header).connection == s.header.connection;
        assert BeginsWithHeader(p, t.header, false) && t.header.ShouldKeepAlive() == p.keepAlive;
        assert ProperLog(s.log, true, p.keepAlive, false);
      }
      LogGrows(s.log, p, s.keepAlive, false);
    }
  }

  lemma ChunkedCallInv(s: ChunkedState, call: Call)
    requires ChunkedInv(s)
    ensures ChunkedInv(ChunkedCall(s, call))
  {
    hide ChunkedSend, ProperLog;
    match call
    case Flush(notify) =>
      if s.connected {
        ChunkedSendInv(s, false, notify);
        ChunkedSendKeepsConnection(s, false, notify);
      }
    case Done(notify) => if s.connected { ChunkedSendInv(s, true, notify); }
    case _ =>
  }

  lemma ChunkedSendKeepsConnection(s: ChunkedState, final: bool, notify: bool)
    ensures ChunkedSend(s, final, notify).connected == s.connected
  {}

  lemma {:induction false} ChunkedRunInv(h: Header, calls: seq<Call>)
    ensures ChunkedInv(ChunkedRun(h, calls))
  {
    if calls != [] {
      ChunkedRunInv(h, calls[..|calls| - 1]);
      ChunkedCallInv(ChunkedRun(h, calls[..|calls| - 1]), calls[|calls| - 1]);
    }
  }

  /** A flush moves the waiting chunks to the wire. */
  lemma ChunkedSendWire(s: ChunkedState, final: bool, notify: bool)
    requires ChunkedInv(s) && s.connected
    ensures var t := ChunkedSend(s, final, notify);
            && Wire(t.log) == Wire(s.log) + ((if s.headerSent then "" else SentHeader(t.log)) + (Chunks(s.chunks) + (if final then LAST_CHUNK else "")))
            && (s.headerSent ==> SentHeader(t.log) == SentHeader(s.log))
            && t.chunks == []
  {
    hide Bytes, Chunks, ChunkItems, ProperLog, AnnounceChunked, HeaderText;
    var t := ChunkedSend(s, final, notify);
    var head := if s.headerSent then None else Some(HeaderText(t.header, false));
    var bufs := CreateBufs(head, s.chunks, final);
    FlushBytes(head, s.chunks, final);
    if bufs != [] || notify {
      assert t.log[..|t.log| - 1] == s.log;
      assert Wire(t.log) == Wire(s.log) + Bytes(bufs);
    } else {
      NoBytes();
      assert s.headerSent;
    }
  }

  /** Wire and waiting chunks together are the header and all chunks. */
  ghost predicate WireHolds(s: ChunkedState, cs: seq<string>) {
    s.connected && Wire(s.log) + Chunks(s.chunks) == SentHeader(s.log) + Chunks(cs)
  }

  lemma ChunkedFlushWire(s: ChunkedState, notify: bool, cs: seq<string>)
    requires ChunkedInv(s) && WireHolds(s, cs)
    ensures WireHolds(ChunkedSend(s, false, notify), cs)
  {
    hide Chunks, ChunkedSend, ProperLog;
    var t := ChunkedSend(s, false, notify);
    ChunkedSendWire(s, false, notify);
    ChunkedSendKeepsConnection(s, false, notify);
    NothingChunked();
    if s.headerSent {
      hide Wire, SentHeader;
      FlushAfterHeader(Wire(s.log), SentHeader(s.log), Chunks(s.chunks), Chunks(cs));
    } else {
      assert Wire(s.log) == "" && SentHeader(s.log) == "";
      hide Wire, SentHeader;
      FlushWithHeader(SentHeader(t.log), Chunks(s.chunks), Chunks(cs));
    }
  }

  lemma FlushAfterHeader(before: string, header: string, waiting: string, all: string)
    requires before + waiting == header + all
    ensures before + ("" + (waiting + "")) + "" == header + all
  {
    assert waiting + "" == waiting;
  }

  lemma FlushWithHeader(header: string, waiting: string, all: string)
    requires "" + waiting == "" + all
    ensures "" + (header + (waiting + "")) + "" == header + all
  {
    assert "" + waiting == waiting && "" + all == all && waiting + "" == waiting;
  }

  lemma ChunkedAppendWire(s: ChunkedState, bytes: string, cs: seq<string>)
    requires WireHolds(s, cs)
    ensures WireHolds(s.(chunks := s.chunks + [bytes]), cs + [bytes])
  {
    hide Chunks, Wire, SentHeader;
    ChunksConcat(s.chunks, [bytes]);
    ChunksConcat(cs, [bytes]);
    BothGrow(Wire(s.log), Chunks(s.chunks), SentHeader(s.log), Chunks(cs), Chunks([bytes]));
  }

  lemma BothGrow(a: string, b: string, c: string, d: string, more: string)
    requires a + b == c + d
    ensures a + (b + more) == c + (d + more)
  {
    assert a + (b + more) == (a + b) + more && c + (d + more) == (c + d) + more;
  }

  /** While the response is being built: what is on the wire and what waits are the header and the
      chunks appended so far. */
  lemma {:induction false} ChunkedWire(h: Header, calls: seq<Call>)
    requires forall i :: 0 <= i < |calls| ==> !calls[i].Done?
    ensures WireHolds(ChunkedRun(h, calls), AppendedChunks(calls))
  {
    hide WireHolds, ChunkedInv, ChunkedSend;
    if calls == [] {
      NothingWired(h);
    } else {
      var init := calls[..|calls| - 1];
      var s := ChunkedRun(h, init);
      ChunkedWire(h, init);
      ChunkedRunInv(h, init);
      var call := calls[|calls| - 1];
      if call.AppendChunk? {
        ChunkedAppendWire(s, call.bytes, AppendedChunks(init));
      } else if call.Flush? {
        ChunkedFlushWire(s, call.notify, AppendedChunks(init));
        StillConnected(s, AppendedChunks(init));
      } else {
        HeaderIsNotWire(s, call, AppendedChunks(init));
      }
    }
  }

  lemma NothingWired(h: Header)
    ensures WireHolds(ChunkedStart(h), [])
  {}

  lemma StillConnected(s: ChunkedState, cs: seq<string>)
    requires WireHolds(s, cs)
    ensures s.connected
  {}

  lemma HeaderIsNotWire(s: ChunkedState, call: Call, cs: seq<string>)
    requires WireHolds(s, cs) && !call.AppendChunk? && !call.Flush? && !call.Done?
    ensures WireHolds(ChunkedCall(s, call), cs)
  {
    hide Wire, Chunks, SentHeader;
  }

  /** After `done` nothing more is handed over, whatever is called. */
  lemma {:induction false} ChunkedStays(h: Header, calls: seq<Call>, more: seq<Call>)
    requires !ChunkedRun(h, calls).connected
    ensures var r := ChunkedRun(h, calls + more); !r.connected && r.log == ChunkedRun(h, calls).log
  {
    if more == [] {
      assert calls + more == calls;
    } else {
      hide ChunkedSend;
      var m := more[..|more| - 1];
      ChunkedStays(h, calls, m);
      assert (calls + more)[..|calls + more| - 1] == calls + m;
    }
  }

  /** Chunked round trip: however the calls are spread over flushes, the bytes after the header,
      read by the reference decoder, give back the appended data, and nothing follows them, not even
      when calls are made after `done`. */
  lemma ChunkedRoundTrip(h: Header, calls: seq<Call>, notify: bool, more: seq<Call>)
    requires forall i :: 0 <= i < |calls| ==> !calls[i].Done?
    ensures var s := ChunkedRun(h, calls + [Done(notify)] + more);
            && !s.connected
            && SentHeader(s.log) <= Wire(s.log)
            && Decode(Wire(s.log)[|SentHeader(s.log)|..]) == Some((Concat(AppendedChunks(calls)), ""))
  {
    hide Decode, Chunks, Concat, ChunkedInv, WireHolds;
    var all := calls + [Done(notify)];
    assert all[..|all| - 1] == calls && all[|calls|] == Done(notify);
    ChunkedRunInv(h, calls);
    ChunkedWire(h, calls);
    ChunkedFinish(ChunkedRun(h, calls), notify, AppendedChunks(calls));
    ChunkedStays(h, all, more);
  }

  lemma ChunkedFinish(s: ChunkedState, notify: bool, cs: seq<string>)
    requires ChunkedInv(s) && WireHolds(s, cs) && NoneEmpty(cs)
    ensures var t := ChunkedCall(s, Done(notify));
            && !t.connected
            && SentHeader(t.log) <= Wire(t.log)
            && Decode(Wire(t.log)[|SentHeader(t.log)|..]) == Some((Concat(cs), ""))
  {
    hide Decode, Chunks, Concat, ProperLog, ChunkedSend;
    var t := ChunkedSend(s, true, notify);
    ChunkedSendWire(s, true, notify);
    DecodeUndoesEncode(cs, "");
    assert LAST_CHUNK + "" == LAST_CHUNK;
    WireEnds(Wire(t.log), Wire(s.log), SentHeader(s.log), SentHeader(t.log), Chunks(s.chunks), Chunks(cs), s.headerSent);
  }

  lemma WireEnds(wire: string, before: string, headerBefore: string, header: string, waiting: string, all: string, sent: bool)
    requires before + waiting == headerBefore + all
    requires sent ==> header == headerBefore
    requires !sent ==> before == "" && headerBefore == ""
    requires wire == before + ((if sent then "" else header) + (waiting + LAST_CHUNK))
    ensures wire == header + (all + LAST_CHUNK)
    ensures header <= wire && wire[|header|..] == all + LAST_CHUNK
  {
    if sent {
      assert wire == (before + waiting) + LAST_CHUNK;
    } else {
      assert before + waiting == waiting && headerBefore + all == all;
    }
  }

  /** Over every sequence of calls the groups of a chunked response are proper. */
  lemma ChunkedGroupsAreProper(h: Header, calls: seq<Call>)
    ensures var s := ChunkedRun(h, calls); ProperLog(s.log, s.connected, s.keepAlive, false)
    ensures forall k :: 0 <= k < |ChunkedRun(h, calls).log| ==> StatusLineFits(ChunkedRun(h, calls).log[k])
  {
    ChunkedRunInv(h, calls);
    var s := ChunkedRun(h, calls);
    ProperStatusLinesFit(s.log, s.connected, s.keepAlive, false);
  }
}
