/** The builders that send a body as it is: user controlled and RESTinio controlled output. */
module BodyBuilders {
  import opened Wrappers
  import opened Buffers
  import opened HeaderString
  import opened ResponseBuilders
  import opened WriteOutput

  const EMPTY_ITEM := Trivial("")
  const SIZE_LIMIT: nat := 0x1_0000_0000_0000_0000

  /** The slot kept for the header. */
  function Reserved(parts: seq<Item>): (r: seq<Item>)
    ensures r != []
  {
    if parts == [] then [EMPTY_ITEM] else parts
  }

  /** What the calls ask to be sent: `sent` was flushed, `pending` waits. */
  datatype Body = Body(sent: seq<Item>, pending: seq<Item>)

  function Nonempty(item: Item): seq<Item> { if item.Size() == 0 then [] else [item] }

  function BodyOfCalls(calls: seq<Call>): Body {
    if calls == [] then Body([], []) else NextBody(BodyOfCalls(calls[..|calls| - 1]), calls[|calls| - 1])
  }

  // ---------------------------------------------------------------------------------------------
  // User controlled output.

  datatype UserState = UserState(
    header: Header,
    connected: bool,
    headerSent: bool,
    keepAlive: bool,
    parts: seq<Item>,
    log: seq<Parts>)

  function UserStart(h: Header): UserState { UserState(h, true, false, true, [], []) }

  function UserSend(s: UserState, final: bool, notify: bool): UserState {
    var parts := if s.headerSent then s.parts else Reserved(s.parts)[0 := Trivial(HeaderText(s.header, true))];
    var keepAlive := if s.headerSent then s.keepAlive else s.header.ShouldKeepAlive();
    var size := if s.headerSent then 0 else StatusLineSize(s.header);
    var t := s.(headerSent := true, keepAlive := keepAlive, parts := []);
    if parts != [] || notify || final then t.(log := s.log + [Parts(final, keepAlive, parts, size, notify)]) else t
  }

  function UserCall(s: UserState, call: Call): UserState {
    match call
    case SetBody(item) => s.(parts := (if s.headerSent then [] else Reserved(s.parts)[..1]) + Nonempty(item))
    case AppendBody(item) =>
      if item.Size() == 0 then s else s.(parts := (if s.headerSent then s.parts else Reserved(s.parts)) + [item])
    case Flush(notify) => if s.connected then UserSend(s, false, notify) else s
    case Done(notify) => if s.connected then UserSend(s, true, notify).(connected := false) else s
    case AppendChunk(_) => s
    case _ => s.(header := ChangeHeader(s.header, call))
  }

  function UserRun(h: Header, calls: seq<Call>): UserState {
    if calls == [] then UserStart(h) else UserCall(UserRun(h, calls[..|calls| - 1]), calls[|calls| - 1])
  }

  /** The body items handed over: everything but the header. */
  function SentBody(log: seq<Parts>): seq<Item> {
    if log == [] then []
    else
      var last := log[|log| - 1].items;
      SentBody(log[..|log| - 1]) + if |log| == 1 && last != [] then last[1..] else last
  }

  function PendingBody(s: UserState): seq<Item> {
    if s.headerSent || s.parts == [] then s.parts else s.parts[1..]
  }

  ghost predicate UserInv(s: UserState) {
    && (s.headerSent <==> s.log != [])
    && ProperLog(s.log, s.connected, s.keepAlive, true)
  }

  lemma UserSendInv(s: UserState, final: bool, notify: bool)
    requires UserInv(s) && s.connected
    ensures UserInv(UserSend(s, final, notify).(connected := !final))
    ensures UserSend(s, final, notify).connected == s.connected
  {
    var t := UserSend(s, final, notify);
    if |t.log| > |s.log| {
      var p := t.log[|s.log|];
      if !s.headerSent {
        assert BeginsWithHeader(p, s.header, true) && s.header.ShouldKeepAlive() == p.keepAlive;
        assert ProperLog(s.log, true, p.keepAlive, true);
      }
      LogGrows(s.log, p, s.keepAlive, true);
    }
  }

  lemma UserCallInv(s: UserState, call: Call)
    requires UserInv(s)
    ensures UserInv(UserCall(s, call))
  {
    hide UserSend, ProperLog;
    match call
    case Flush(notify) => if s.connected { UserSendInv(s, false, notify); }
    case Done(notify) => if s.connected { UserSendInv(s, true, notify); }
    case _ =>
  }

  lemma {:induction false} UserRunInv(h: Header, calls: seq<Call>)
    ensures UserInv(UserRun(h, calls))
  {
    if calls != [] {
      UserRunInv(h, calls[..|calls| - 1]);
      UserCallInv(UserRun(h, calls[..|calls| - 1]), calls[|calls| - 1]);
    }
  }

  lemma UserSendBody(s: UserState, final: bool, notify: bool)
    requires UserInv(s) && s.connected
    ensures var t := UserSend(s, final, notify);
            SentBody(t.log) == SentBody(s.log) + PendingBody(s) && PendingBody(t) == []
  {
    hide ProperLog, HeaderText, StatusLineSize, SentBody;
    var t := UserSend(s, final, notify);
    if |t.log| > |s.log| {
      var p := t.log[|s.log|];
      assert t.log == s.log + [p];
      SentBodyGrows(s.log, p);
      assert PendingBody(s) == if s.headerSent then p.items else p.items[1..];
    } else {
      assert PendingBody(s) == [] && t.log == s.log;
    }
  }

  lemma SentBodyGrows(log: seq<Parts>, p: Parts)
    ensures SentBody(log + [p]) == SentBody(log) + if log == [] && p.items != [] then p.items[1..] else p.items
  {
    assert (log + [p])[..|log|] == log;
  }

  lemma {:induction false} UserBodyHolds(h: Header, calls: seq<Call>)
    requires forall i :: 0 <= i < |calls| ==> !calls[i].Done?
    ensures var s := UserRun(h, calls);
            s.connected && SentBody(s.log) == BodyOfCalls(calls).sent && PendingBody(s) == BodyOfCalls(calls).pending
  {
    if calls != [] {
      var init := calls[..|calls| - 1];
      UserBodyHolds(h, init);
      UserRunInv(h, init);
      var s := UserRun(h, init);
      UserCallBody(s, calls[|calls| - 1], BodyOfCalls(init));
    }
  }

  function NextBody(b: Body, call: Call): Body {
    match call
    case SetBody(item) => b.(pending := Nonempty(item))
    case AppendBody(item) => b.(pending := b.pending + Nonempty(item))
    case Flush(_) => Body(b.sent + b.pending, [])
    case _ => b
  }

  lemma UserCallBody(s: UserState, call: Call, b: Body)
    requires UserInv(s) && s.connected && !call.Done? && SentBody(s.log) == b.sent && PendingBody(s) == b.pending
    ensures var t := UserCall(s, call);
            t.connected && SentBody(t.log) == NextBody(b, call).sent && PendingBody(t) == NextBody(b, call).pending
  {
    hide ProperLog, UserSend, SentBody, UserInv;
    match call
    case Flush(notify) => UserSendBody(s, false, notify); UserSendInv(s, false, notify);
    case _ =>
  }

  /** Over every sequence of calls the groups of a user controlled response are proper. */
  lemma UserGroupsAreProper(h: Header, calls: seq<Call>)
    ensures var s := UserRun(h, calls);
            && ProperLog(s.log, s.connected, s.keepAlive, true)
            && forall k :: 0 <= k < |s.log| ==> StatusLineFits(s.log[k])
  {
    UserRunInv(h, calls);
    var s := UserRun(h, calls);
    ProperStatusLinesFit(s.log, s.connected, s.keepAlive, true);
  }

  /** After `done` nothing more is handed over, whatever is called. */
  lemma {:induction false} UserStays(h: Header, calls: seq<Call>, more: seq<Call>)
    requires !UserRun(h, calls).connected
    ensures var r := UserRun(h, calls + more); !r.connected && r.log == UserRun(h, calls).log
  {
    if more == [] {
      assert calls + more == calls;
    } else {
      hide UserSend;
      var m := more[..|more| - 1];
      UserStays(h, calls, m);
      assert (calls + more)[..|calls + more| - 1] == calls + m;
    }
  }

  /** A completed response carries the header once, in front, and then exactly the body items asked
      for before `done`, in order, wherever the flushes were and whatever was called later. */
  lemma UserBodyIsComplete(h: Header, calls: seq<Call>, notify: bool, more: seq<Call>)
    requires forall i :: 0 <= i < |calls| ==> !calls[i].Done?
    ensures var s := UserRun(h, calls + [Done(notify)] + more);
            && !s.connected
            && SentBody(s.log) == BodyOfCalls(calls).sent + BodyOfCalls(calls).pending
  {
    var all := calls + [Done(notify)];
    assert all[..|all| - 1] == calls && all[|calls|] == Done(notify);
    UserBodyHolds(h, calls);
    UserRunInv(h, calls);
    UserSendBody(UserRun(h, calls), true, notify);
    UserStays(h, all, more);
  }

  // ---------------------------------------------------------------------------------------------
  // RESTinio controlled output.

  datatype ControlledState = ControlledState(
    header: Header,
    connected: bool,
    parts: seq<Item>,
    bodySize: UInt64,   // size_t, wraps
    log: seq<Parts>)

  function ControlledStart(h: Header): ControlledState { ControlledState(h, true, [], 0, []) }

  /** Arithmetic of `size_t`. */
  function Wrap64(n: nat): UInt64 { n % SIZE_LIMIT }

  function ControlledDone(s: ControlledState, notify: bool): ControlledState {
    var header := s.header.(contentLength := Wrap64(s.bodySize));
    var parts := Reserved(s.parts)[0 := Trivial(HeaderText(header, true))];
    ControlledState(header, false, [], s.bodySize,
                    s.log + [Parts(true, header.ShouldKeepAlive(), parts, StatusLineSize(header), notify)])
  }

  function ControlledCall(s: ControlledState, call: Call): ControlledState {
    match call
    case SetBody(item) => s.(parts := Reserved(s.parts)[..1] + Nonempty(item), bodySize := Wrap64(item.Size()))
    case AppendBody(item) =>
      s.(parts := Reserved(s.parts) + Nonempty(item), bodySize := Wrap64(s.bodySize + item.Size()))
    case Done(notify) => if s.connected then ControlledDone(s, notify) else s
    case AppendHeader(_) | ConnectionClose => s.(header := ChangeHeader(s.header, call))
    case _ => s
  }

  function ControlledRun(h: Header, calls: seq<Call>): ControlledState {
    if calls == [] then ControlledStart(h)
    else ControlledCall(ControlledRun(h, calls[..|calls| - 1]), calls[|calls| - 1])
  }

  /** The body asked for; this builder has no flush. */
  function WholeBody(calls: seq<Call>): seq<Item> {
    if calls == [] then []
    else
      var b := WholeBody(calls[..|calls| - 1]);
      match calls[|calls| - 1]
      case SetBody(item) => Nonempty(item)
      case AppendBody(item) => b + Nonempty(item)
      case _ => b
  }

  lemma WrapAdds(a: nat, b: nat)
    ensures Wrap64(Wrap64(a) + b) == Wrap64(a + b)
    ensures a < SIZE_LIMIT ==> Wrap64(a) == a
  {
    var q := a / SIZE_LIMIT;
    var x := a % SIZE_LIMIT + b;
    assert a + b == q * SIZE_LIMIT + x;
    assert (q * SIZE_LIMIT + x) % SIZE_LIMIT == x % SIZE_LIMIT;
  }

  lemma SizeOfOneMore(b: seq<Item>, item: Item)
    ensures TotalSize(b + Nonempty(item)) == TotalSize(b) + item.Size()
  {
    if item.Size() != 0 {
      assert (b + [item])[..|b|] == b;
    } else {
      assert b + [] == b;
    }
  }

  /** The parts are the header slot and the body, and the size counter is right. */
  ghost predicate Holds(s: ControlledState, body: seq<Item>) {
    && s.connected && s.log == []
    && Reserved(s.parts)[1..] == body
    && s.bodySize == Wrap64(TotalSize(body))
  }

  lemma ControlledSet(s: ControlledState, item: Item, body: seq<Item>)
    requires Holds(s, body)
    ensures Holds(ControlledCall(s, SetBody(item)), Nonempty(item))
  {
    hide Wrap64, TotalSize;
    SizeOfOneMore([], item);
    assert [] + Nonempty(item) == Nonempty(item);
    assert TotalSize([]) == 0 by { SizeOfNothing(); }
  }

  lemma SizeOfNothing()
    ensures TotalSize([]) == 0
  {}

  lemma ControlledAppend(s: ControlledState, item: Item, body: seq<Item>)
    requires Holds(s, body)
    ensures Holds(ControlledCall(s, AppendBody(item)), body + Nonempty(item))
  {
    hide Wrap64, TotalSize;
    SizeOfOneMore(body, item);
    WrapAdds(TotalSize(body), item.Size());
  }

  lemma {:induction false} ControlledHolds(h: Header, calls: seq<Call>)
    requires forall i :: 0 <= i < |calls| ==> !calls[i].Done?
    ensures Holds(ControlledRun(h, calls), WholeBody(calls))
  {
    if calls == [] {
      WrapAdds(0, 0);
    } else {
      hide Wrap64, TotalSize;
      var init := calls[..|calls| - 1];
      var s := ControlledRun(h, init);
      ControlledHolds(h, init);
      match calls[|calls| - 1]
      case SetBody(item) => ControlledSet(s, item, WholeBody(init));
      case AppendBody(item) => ControlledAppend(s, item, WholeBody(init));
      case _ =>
    }
  }

  /** After `done` nothing more is handed over, whatever is called. */
  lemma {:induction false} ControlledStays(h: Header, calls: seq<Call>, more: seq<Call>)
    requires !ControlledRun(h, calls).connected
    ensures var r := ControlledRun(h, calls + more); !r.connected && r.log == ControlledRun(h, calls).log
  {
    if more == [] {
      assert calls + more == calls;
    } else {
      hide ControlledDone, Wrap64;
      var m := more[..|more| - 1];
      ControlledStays(h, calls, m);
      assert (calls + more)[..|calls + more| - 1] == calls + m;
    }
  }

  /** The response is one final group: the header, then exactly the body asked for. Content-Length is
      the total size of the body items. No call made after `done` adds anything. */
  lemma ContentLengthIsBodySize(h: Header, calls: seq<Call>, notify: bool, more: seq<Call>)
    requires forall i :: 0 <= i < |calls| ==> !calls[i].Done?
    ensures var s := ControlledRun(h, calls + [Done(notify)]);
            var body := WholeBody(calls);
            && ControlledRun(h, calls + [Done(notify)] + more).log == s.log
            && !s.connected && |s.log| == 1
            && BeginsWithHeader(s.log[0], s.header, true) && StatusLineFits(s.log[0])
            && s.log[0].items[1..] == body
            && s.log[0].final && s.log[0].keepAlive == s.header.ShouldKeepAlive() && s.log[0].notify == notify
            && (TotalSize(body) < SIZE_LIMIT ==> s.header.contentLength == TotalSize(body))
  {
    hide Wrap64, TotalSize, HeaderText, StatusLineSize, StatusLine;
    var all := calls + [Done(notify)];
    assert all[..|all| - 1] == calls && all[|calls|] == Done(notify);
    ControlledHolds(h, calls);
    var s := ControlledRun(h, all);
    assert s == ControlledDone(ControlledRun(h, calls), notify);
    StatusLineIsDelimited(s.header, true);
    WrapAdds(TotalSize(WholeBody(calls)), 0);
    WrapAdds(ControlledRun(h, calls).bodySize, 0);
    ControlledStays(h, all, more);
  }
}
