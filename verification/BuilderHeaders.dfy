/** The header a builder sends, read off the calls made before the first send. */
module BuilderHeaders {
  import opened Wrappers
  import opened Text
  import opened Buffers
  import opened WriteOutput
  import opened HeaderString
  import opened HeaderReader
  import opened ChunkedCoding
  import opened ResponseBuilders
  import opened BodyBuilders

  /** No call that sends anything. */
  ghost predicate Preparing(calls: seq<Call>) {
    forall k :: 0 <= k < |calls| ==> !calls[k].Flush? && !calls[k].Done?
  }

  predicate AsksToClose(calls: seq<Call>) { exists k :: 0 <= k < |calls| && calls[k].ConnectionClose? }

  /** The fields added by the calls, in order. */
  function AppendedFields(calls: seq<Call>): seq<Field> {
    if calls == [] then []
    else
      var last := calls[|calls| - 1];
      AppendedFields(calls[..|calls| - 1]) + if last.AppendHeader? then [last.field] else []
  }

  /** The length set last, if any. */
  function LengthSet(calls: seq<Call>, otherwise: UInt64): UInt64 {
    if calls == [] then otherwise
    else
      var last := calls[|calls| - 1];
      if last.SetContentLength? then last.n else LengthSet(calls[..|calls| - 1], otherwise)
  }

  /** `r` is the header `h` as the calls ask for it, up to its content length. */
  ghost predicate AsAsked(h: Header, calls: seq<Call>, r: Header) {
    && SameStatus(h, r)
    && r.connection == (if AsksToClose(calls) then Close else h.connection)
    && r.fields == h.fields + AppendedFields(calls)
  }

  predicate SameStatus(h: Header, r: Header) {
    r.major == h.major && r.minor == h.minor && r.statusCode == h.statusCode && r.reason == h.reason
  }

  lemma AsksToCloseGrows(calls: seq<Call>)
    requires calls != []
    ensures AsksToClose(calls) <==> AsksToClose(calls[..|calls| - 1]) || calls[|calls| - 1].ConnectionClose?
  {
    var n := |calls| - 1;
    if AsksToClose(calls[..n]) {
      var k :| 0 <= k < n && calls[..n][k].ConnectionClose?;
      assert calls[k].ConnectionClose?;
    }
    if k :| 0 <= k < n && calls[k].ConnectionClose? {
      assert calls[..n][k].ConnectionClose?;
    }
  }

  /** One more call that sends nothing. */
  lemma OneMoreCall(h: Header, calls: seq<Call>, r: Header)
    requires calls != [] && AsAsked(h, calls[..|calls| - 1], r)
    ensures AsAsked(h, calls, ChangeHeader(r, calls[|calls| - 1]))
  {
    AsksToCloseGrows(calls);
    hide AsksToClose;
  }

  // ---------------------------------------------------------------------------------------------
  // The announcement of the transfer coding.

  /** The first Transfer-Encoding field of the list. */
  ghost predicate FirstEncoding(fields: seq<Field>, k: nat) {
    && k < |fields| && fields[k].id == TransferEncoding
    && forall m :: 0 <= m < k ==> fields[m].id != TransferEncoding
  }

  /** `after` is `before` with the chunked coding announced: in a new field at the end, or in the first
      Transfer-Encoding field, whose value is extended unless it names the coding already. */
  ghost predicate Announces(before: seq<Field>, after: seq<Field>) {
    if forall k :: 0 <= k < |before| ==> before[k].id != TransferEncoding then
      after == before + [Field(TransferEncoding, "Transfer-Encoding", "chunked")]
    else
      exists k: nat :: FirstEncoding(before, k) && after == before[k := Extended(before[k])]
  }

  function Extended(f: Field): Field {
    if Contains(f.value, "chunked") then f else f.(value := f.value + ",chunked")
  }

  /** Some Transfer-Encoding field names the chunked coding. */
  ghost predicate NamesChunked(fields: seq<Field>) {
    exists k :: 0 <= k < |fields| && fields[k].id == TransferEncoding && Contains(fields[k].value, "chunked")
  }

  lemma {:induction false} FindsFirst(fields: seq<Field>, i: nat)
    requires i <= |fields| && forall m :: 0 <= m < i ==> fields[m].id != TransferEncoding
    ensures var k := FindField(fields, i);
            && (k.Some? ==> FirstEncoding(fields, k.value))
            && (k.None? ==> forall m :: 0 <= m < |fields| ==> fields[m].id != TransferEncoding)
    decreases |fields| - i
  {
    if i < |fields| && fields[i].id != TransferEncoding {
      FindsFirst(fields, i + 1);
    }
  }

  lemma ContainsItself(v: string, m: string)
    ensures Contains(v + m, m)
  {
    assert OccursAt(v + m, m, |v|);
  }

  lemma AnnouncementIsMade(h: Header)
    ensures Announces(h.fields, AnnounceChunked(h).fields) && NamesChunked(AnnounceChunked(h).fields)
    ensures AnnounceChunked(h) == h.(fields := AnnounceChunked(h).fields)
  {
    hide Contains;
    FindsFirst(h.fields, 0);
    var k := FindField(h.fields, 0);
    var after := AnnounceChunked(h).fields;
    if k.None? {
      ContainsItself("", "chunked");
      assert "" + "chunked" == "chunked";
      assert after[|h.fields|].id == TransferEncoding;
    } else {
      var f := h.fields[k.value];
      ContainsItself(f.value + ",", "chunked");
      assert f.value + "," + "chunked" == f.value + ",chunked";
      assert h.fields[k.value := f] == h.fields;
      assert FirstEncoding(h.fields, k.value) && after == h.fields[k.value := Extended(f)];
      assert after[k.value].id == TransferEncoding && Contains(after[k.value].value, "chunked");
    }
  }

  // ---------------------------------------------------------------------------------------------
  // Chunked output.

  lemma {:induction false} ChunkedPrepares(h: Header, calls: seq<Call>)
    requires Preparing(calls)
    ensures var s := ChunkedRun(h, calls);
            AsAsked(h, calls, s.header) && s.header.contentLength == h.contentLength && s.connected && !s.headerSent && s.log == []
  {
    if calls != [] {
      hide AsAsked, ChunkedSend;
      var init := calls[..|calls| - 1];
      ChunkedPrepares(h, init);
      OneMoreCall(h, calls, ChunkedRun(h, init).header);
    } else {
      assert h.fields + [] == h.fields;
    }
  }

  lemma {:induction false} ChunkedLogGrows(h: Header, calls: seq<Call>, more: seq<Call>)
    ensures ChunkedRun(h, calls).log <= ChunkedRun(h, calls + more).log
  {
    hide CreateBufs, HeaderText, AnnounceChunked, StatusLineSize;
    if more == [] {
      assert calls + more == calls;
    } else {
      var m := more[..|more| - 1];
      ChunkedLogGrows(h, calls, m);
      assert (calls + more)[..|calls + more| - 1] == calls + m;
    }
  }

  /** What the first group of a response says in its header: the calls made before it was sent, with
      the chunked coding announced. All groups carry the connection attribute of that header. */
  lemma ChunkedHeaderIsAsAsked(h: Header, calls: seq<Call>, send: Call, more: seq<Call>) returns (asked: Header, sent: Header)
    requires Preparing(calls) && (send.Flush? || send.Done?)
    ensures AsAsked(h, calls, asked) && sent == asked.(fields := sent.fields)
    ensures Announces(asked.fields, sent.fields) && NamesChunked(sent.fields)
    ensures var log := ChunkedRun(h, calls + [send] + more).log;
            && log != [] && BeginsWithHeader(log[0], sent, false)
            && forall k :: 0 <= k < |log| ==> log[k].keepAlive == (sent.connection == KeepAlive)
  {
    hide AsAsked, Announces, NamesChunked, AnnounceChunked, HeaderText, StatusLineSize;
    var all := calls + [send];
    assert all[..|all| - 1] == calls && all[|calls|] == send;
    ChunkedPrepares(h, calls);
    asked := ChunkedRun(h, calls).header;
    sent := AnnounceChunked(asked);
    AnnouncementIsMade(asked);
    FirstChunkedSend(ChunkedRun(h, calls), send);
    ChunkedLogGrows(h, all, more);
    ChunkedRunInv(h, all + more);
    SameAttribute(ChunkedRun(h, all + more).log, ChunkedRun(h, all + more).connected, ChunkedRun(h, all + more).keepAlive, false);
  }

  lemma FirstChunkedSend(s: ChunkedState, send: Call)
    requires s.connected && !s.headerSent && s.log == [] && (send.Flush? || send.Done?)
    ensures var log := ChunkedCall(s, send).log;
            |log| == 1 && BeginsWithHeader(log[0], AnnounceChunked(s.header), false) && log[0].keepAlive == (s.header.connection == KeepAlive)
  {
    AnnouncementIsMade(s.header);
    hide AnnounceChunked, HeaderText;
  }

  lemma SameAttribute(log: seq<Parts>, connected: bool, keepAlive: bool, addContentLength: bool)
    requires ProperLog(log, connected, keepAlive, addContentLength)
    ensures forall k :: 0 <= k < |log| ==> log[k].keepAlive == log[0].keepAlive
  {}

  // ---------------------------------------------------------------------------------------------
  // User controlled output.

  lemma {:induction false} UserPrepares(h: Header, calls: seq<Call>)
    requires Preparing(calls)
    ensures var s := UserRun(h, calls);
            && AsAsked(h, calls, s.header) && s.header.contentLength == LengthSet(calls, h.contentLength)
            && s.connected && !s.headerSent && s.log == []
  {
    if calls != [] {
      hide AsAsked, UserSend;
      var init := calls[..|calls| - 1];
      UserPrepares(h, init);
      OneMoreCall(h, calls, UserRun(h, init).header);
    } else {
      assert h.fields + [] == h.fields;
    }
  }

  lemma {:induction false} UserLogGrows(h: Header, calls: seq<Call>, more: seq<Call>)
    ensures UserRun(h, calls).log <= UserRun(h, calls + more).log
  {
    hide HeaderText, StatusLineSize;
    if more == [] {
      assert calls + more == calls;
    } else {
      var m := more[..|more| - 1];
      UserLogGrows(h, calls, m);
      assert (calls + more)[..|calls + more| - 1] == calls + m;
    }
  }

  lemma FirstUserSend(s: UserState, send: Call)
    requires s.connected && !s.headerSent && s.log == [] && (send.Flush? || send.Done?)
    ensures var log := UserCall(s, send).log;
            |log| == 1 && BeginsWithHeader(log[0], s.header, true) && log[0].keepAlive == (s.header.connection == KeepAlive)
  {
    hide HeaderText;
  }

  /** The same for user controlled output, whose content length is the one set by the user. */
  lemma UserHeaderIsAsAsked(h: Header, calls: seq<Call>, send: Call, more: seq<Call>) returns (sent: Header)
    requires Preparing(calls) && (send.Flush? || send.Done?)
    ensures AsAsked(h, calls, sent) && sent.contentLength == LengthSet(calls, h.contentLength)
    ensures var log := UserRun(h, calls + [send] + more).log;
            && log != [] && BeginsWithHeader(log[0], sent, true)
            && forall k :: 0 <= k < |log| ==> log[k].keepAlive == (sent.connection == KeepAlive)
  {
    hide AsAsked, HeaderText, StatusLineSize, UserSend;
    var all := calls + [send];
    assert all[..|all| - 1] == calls && all[|calls|] == send;
    UserPrepares(h, calls);
    sent := UserRun(h, calls).header;
    FirstUserSend(UserRun(h, calls), send);
    UserLogGrows(h, all, more);
    UserRunInv(h, all + more);
    SameAttribute(UserRun(h, all + more).log, UserRun(h, all + more).connected, UserRun(h, all + more).keepAlive, true);
  }

  // ---------------------------------------------------------------------------------------------
  // RESTinio controlled output.

  lemma {:induction false} ControlledPrepares(h: Header, calls: seq<Call>)
    requires forall k :: 0 <= k < |calls| ==> !calls[k].Done?
    ensures AsAsked(h, calls, ControlledRun(h, calls).header)
  {
    if calls != [] {
      hide AsAsked, Wrap64;
      var init := calls[..|calls| - 1];
      var r := ControlledRun(h, init).header;
      ControlledPrepares(h, init);
      OneMoreCall(h, calls, r);
      LengthIsNotAsked(h, calls, ChangeHeader(r, calls[|calls| - 1]), r.contentLength);
    } else {
      assert h.fields + [] == h.fields;
    }
  }

  lemma LengthIsNotAsked(h: Header, calls: seq<Call>, r: Header, n: UInt64)
    requires AsAsked(h, calls, r)
    ensures AsAsked(h, calls, r.(contentLength := n))
  {}

  /** The same for RESTinio controlled output. On the wire, the reference reader finds a
      Content-Length field that is the total size of the body items in the group. */
  lemma ControlledHeaderIsAsAsked(h: Header, calls: seq<Call>, notify: bool, more: seq<Call>) returns (sent: Header)
    requires forall k :: 0 <= k < |calls| ==> !calls[k].Done?
    ensures AsAsked(h, calls, sent)
    ensures var log := ControlledRun(h, calls + [Done(notify)] + more).log;
            && |log| == 1 && BeginsWithHeader(log[0], sent, true) && log[0].keepAlive == (sent.connection == KeepAlive)
            && log[0].notify == notify
            && (Printable(sent) && TotalSize(log[0].items[1..]) < SIZE_LIMIT ==>
                  && var r := ReadHead(log[0].items[0].bytes);
                  && r.Some? && r.value.1 == "" && 2 <= |r.value.0.fields|
                  && r.value.0.fields[1].0 == "Content-Length"
                  && ReadLength(r.value.0.fields[1].1) == Some(TotalSize(log[0].items[1..])))
  {
    hide AsAsked, HeaderText, StatusLineSize, ReadHead, ReadLength, Wrap64, TotalSize, WholeBody, Printable;
    var all := calls + [Done(notify)];
    assert all[..|all| - 1] == calls && all[|calls|] == Done(notify);
    ControlledPrepares(h, calls);
    var s := ControlledRun(h, calls);
    sent := ControlledRun(h, all).header;
    ContentLengthIsBodySize(h, calls, notify, more);
    LengthIsNotAsked(h, calls, s.header, sent.contentLength);
    if Printable(sent) {
      LengthOnTheWire(sent);
    }
  }

  lemma LengthOnTheWire(h: Header)
    requires Printable(h)
    ensures var r := ReadHead(HeaderText(h, true));
            && r.Some? && r.value.1 == "" && 2 <= |r.value.0.fields|
            && r.value.0.fields[1].0 == "Content-Length" && ReadLength(r.value.0.fields[1].1) == Some(h.contentLength)
  {
    hide ReadHead, HeaderText, ReadLength;
    ReadUndoesPrint(h, true, "");
    assert HeaderText(h, true) + "" == HeaderText(h, true);
    FieldsMeanTheHeader(h);
  }

  // ---------------------------------------------------------------------------------------------
  // Notificators.

  ghost predicate NotDone(calls: seq<Call>) { forall k :: 0 <= k < |calls| ==> !calls[k].Done? }

  predicate SendsNotified(call: Call) { (call.Flush? && call.notify) || (call.Done? && call.notify) }

  /** The sends with a notificator, up to the first `done`. */
  ghost function Asked(calls: seq<Call>): nat {
    if calls == [] then 0
    else
      var init := calls[..|calls| - 1];
      Asked(init) + if NotDone(init) && SendsNotified(calls[|calls| - 1]) then 1 else 0
  }

  /** The groups handed over with a notificator. */
  function Notified(log: seq<Parts>): nat {
    if log == [] then 0 else Notified(log[..|log| - 1]) + if log[|log| - 1].notify then 1 else 0
  }

  lemma NotifiedMore(log: seq<Parts>, p: Parts)
    ensures Notified(log + [p]) == Notified(log) + if p.notify then 1 else 0
  {
    assert (log + [p])[..|log|] == log;
  }

  lemma NotDoneMore(calls: seq<Call>)
    requires calls != []
    ensures NotDone(calls) <==> NotDone(calls[..|calls| - 1]) && !calls[|calls| - 1].Done?
  {
    var n := |calls| - 1;
    forall k | 0 <= k < n ensures calls[..n][k] == calls[k] {}
    if NotDone(calls[..n]) {
      assert forall k :: 0 <= k < n ==> calls[k] == calls[..n][k];
    }
  }

  /** Every notificator given to a builder before it is done goes to the connection with its group. */
  lemma {:induction false} ChunkedNotifies(h: Header, calls: seq<Call>)
    ensures var s := ChunkedRun(h, calls); Notified(s.log) == Asked(calls) && (s.connected <==> NotDone(calls))
  {
    if calls != [] {
      hide Notified, NotDone, CreateBufs, HeaderText, AnnounceChunked, StatusLineSize;
      var init := calls[..|calls| - 1];
      ChunkedNotifies(h, init);
      NotDoneMore(calls);
      ChunkedSendNotifies(ChunkedRun(h, init), calls[|calls| - 1]);
    }
  }

  lemma ChunkedSendNotifies(s: ChunkedState, call: Call)
    ensures var r := ChunkedCall(s, call);
            && Notified(r.log) == Notified(s.log) + (if s.connected && SendsNotified(call) then 1 else 0)
            && r.connected == (s.connected && !call.Done?)
  {
    hide Notified, CreateBufs, HeaderText, AnnounceChunked, StatusLineSize;
    var r := ChunkedCall(s, call);
    if |r.log| > |s.log| {
      assert r.log == s.log + [r.log[|s.log|]];
      NotifiedMore(s.log, r.log[|s.log|]);
    }
  }

  lemma {:induction false} UserNotifies(h: Header, calls: seq<Call>)
    ensures var s := UserRun(h, calls); Notified(s.log) == Asked(calls) && (s.connected <==> NotDone(calls))
  {
    if calls != [] {
      hide Notified, NotDone, HeaderText, StatusLineSize;
      var init := calls[..|calls| - 1];
      UserNotifies(h, init);
      NotDoneMore(calls);
      UserSendNotifies(UserRun(h, init), calls[|calls| - 1]);
    }
  }

  lemma UserSendNotifies(s: UserState, call: Call)
    ensures var r := UserCall(s, call);
            && Notified(r.log) == Notified(s.log) + (if s.connected && SendsNotified(call) then 1 else 0)
            && r.connected == (s.connected && !call.Done?)
  {
    hide Notified, HeaderText, StatusLineSize;
    var r := UserCall(s, call);
    if |r.log| > |s.log| {
      assert r.log == s.log + [r.log[|s.log|]];
      NotifiedMore(s.log, r.log[|s.log|]);
    }
  }
}
