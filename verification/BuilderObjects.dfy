/** The response builders as objects, proved against their state machines. */
module BuilderObjects {
  import opened Wrappers
  import opened Buffers
  import opened HeaderString
  import opened ChunkedCoding
  import Spec = ResponseBuilders
  import BodySpec = BodyBuilders

  datatype BuilderError = DoneCalledTwice

  class ChunkedResponseBuilder {
    var header: Header
    var connected: bool
    var headerWasSent: bool
    var keepAliveWhenSent: bool
    var chunks: seq<string>
    var log: seq<Spec.Parts>

    ghost function Model(): Spec.ChunkedState
      reads this
    {
      Spec.ChunkedState(header, connected, headerWasSent, keepAliveWhenSent, chunks, log)
    }

    constructor (h: Header)
      ensures Model() == Spec.ChunkedStart(h)
    {
      header, connected, headerWasSent, keepAliveWhenSent, chunks, log := h, true, false, true, [], [];
    }

    method AppendChunk(bytes: string)
      modifies this
      ensures Model() == Spec.ChunkedCall(old(Model()), Spec.AppendChunk(bytes))
    {
      if |bytes| != 0 {
        chunks := chunks + [bytes];
      }
    }

    method Flush(notify: bool)
      modifies this
      ensures Model() == Spec.ChunkedCall(old(Model()), Spec.Flush(notify))
    {
      if connected {
        SendReadyData(false, notify);
      }
    }

    method Done(notify: bool) returns (r: Result<(), BuilderError>)
      modifies this
      ensures Model() == Spec.ChunkedCall(old(Model()), Spec.Done(notify))
      ensures r.Ok? <==> old(connected)
    {
      if connected {
        connected := false;
        SendReadyData(true, notify);
        r := Ok(());
      } else {
        r := Err(DoneCalledTwice);
      }
    }

    method SendReadyData(final: bool, notify: bool)
      modifies this
      ensures Model() == Spec.ChunkedSend(old(Model()), final, notify)
    {
      hide HeaderText, CreateBufs, Spec.AnnounceChunked, StatusLineSize;
      var statusLineSize := 0;
      var text := None;
      if !headerWasSent {
        statusLineSize := StatusLineSize(header);
        keepAliveWhenSent := header.ShouldKeepAlive();
        header := Spec.AnnounceChunked(header);
        var s := CreateHeaderString(header, false);
        text := Some(s);
      }
      var bufs := CreateBuffers(text, chunks, final);
      chunks := [];
      headerWasSent := true;
      if bufs != [] || notify {
        log := log + [Spec.Parts(final, keepAliveWhenSent, bufs, statusLineSize, notify)];
      }
    }
  }

  class UserControlledResponseBuilder {
    var header: Header
    var connected: bool
    var headerWasSent: bool
    var keepAliveWhenSent: bool
    var parts: seq<Item>
    var log: seq<Spec.Parts>

    ghost function Model(): BodySpec.UserState
      reads this
    {
      BodySpec.UserState(header, connected, headerWasSent, keepAliveWhenSent, parts, log)
    }

    constructor (h: Header)
      ensures Model() == BodySpec.UserStart(h)
    {
      header, connected, headerWasSent, keepAliveWhenSent, parts, log := h, true, false, true, [], [];
    }

    method ReserveFirstElement()
      modifies this`parts
      ensures parts == if old(headerWasSent) then old(parts) else BodySpec.Reserved(old(parts))
    {
      if !headerWasSent && parts == [] {
        parts := [BodySpec.EMPTY_ITEM];
      }
    }

    method SetBody(body: Item)
      modifies this`parts
      ensures Model() == BodySpec.UserCall(old(Model()), Spec.SetBody(body))
    {
      ReserveFirstElement();
      if !headerWasSent {
        parts := parts[..1];
      } else {
        parts := [];
      }
      if 0 < body.Size() {
        parts := parts + [body];
      }
    }

    method AppendBody(part: Item)
      modifies this`parts
      ensures Model() == BodySpec.UserCall(old(Model()), Spec.AppendBody(part))
    {
      if part.Size() == 0 {
        return;
      }
      ReserveFirstElement();
      parts := parts + [part];
    }

    method Flush(notify: bool)
      modifies this
      ensures Model() == BodySpec.UserCall(old(Model()), Spec.Flush(notify))
    {
      if connected {
        SendReadyData(false, notify);
      }
    }

    method Done(notify: bool) returns (r: Result<(), BuilderError>)
      modifies this
      ensures Model() == BodySpec.UserCall(old(Model()), Spec.Done(notify))
      ensures r.Ok? <==> old(connected)
    {
      if connected {
        connected := false;
        SendReadyData(true, notify);
        r := Ok(());
      } else {
        r := Err(DoneCalledTwice);
      }
    }

    method SendReadyData(final: bool, notify: bool)
      modifies this
      ensures Model() == BodySpec.UserSend(old(Model()), final, notify)
    {
      hide HeaderText, StatusLineSize;
      var statusLineSize := 0;
      if !headerWasSent {
        keepAliveWhenSent := header.ShouldKeepAlive();
        ReserveFirstElement();
        var text := CreateHeaderString(header, true);
        parts := parts[0 := Trivial(text)];
        headerWasSent := true;
        statusLineSize := StatusLineSize(header);
      }
      if parts != [] || notify || final {
        log := log + [Spec.Parts(final, keepAliveWhenSent, parts, statusLineSize, notify)];
        parts := [];
      }
    }
  }

  class ControlledResponseBuilder {
    var header: Header
    var connected: bool
    var parts: seq<Item>
    var bodySize: UInt64
    var log: seq<Spec.Parts>

    ghost function Model(): BodySpec.ControlledState
      reads this
    {
      BodySpec.ControlledState(header, connected, parts, bodySize, log)
    }

    constructor (h: Header)
      ensures Model() == BodySpec.ControlledStart(h)
    {
      header, connected, parts, bodySize, log := h, true, [], 0, [];
    }

    method ReserveFirstElement()
      modifies this`parts
      ensures parts == BodySpec.Reserved(old(parts))
    {
      if parts == [] {
        parts := [BodySpec.EMPTY_ITEM];
      }
    }

    method SetBody(body: Item)
      modifies this`parts, this`bodySize
      ensures Model() == BodySpec.ControlledCall(old(Model()), Spec.SetBody(body))
    {
      ReserveFirstElement();
      parts := parts[..1];
      if 0 < body.Size() {
        parts := parts + [body];
      }
      bodySize := BodySpec.Wrap64(body.Size());
    }

    method AppendBody(part: Item)
      modifies this`parts, this`bodySize
      ensures Model() == BodySpec.ControlledCall(old(Model()), Spec.AppendBody(part))
    {
      ReserveFirstElement();
      if 0 < part.Size() {
        parts := parts + [part];
        bodySize := BodySpec.Wrap64(bodySize + part.Size());
      } else {
        BodySpec.WrapAdds(bodySize, 0);
      }
    }

    method Done(notify: bool) returns (r: Result<(), BuilderError>)
      modifies this
      ensures Model() == BodySpec.ControlledCall(old(Model()), Spec.Done(notify))
      ensures r.Ok? <==> old(connected)
    {
      if connected {
        header := header.(contentLength := BodySpec.Wrap64(bodySize));
        ReserveFirstElement();
        var text := CreateHeaderString(header, true);
        parts := parts[0 := Trivial(text)];
        log := log + [Spec.Parts(true, header.ShouldKeepAlive(), parts, StatusLineSize(header), notify)];
        parts := [];
        connected := false;
        r := Ok(());
      } else {
        r := Err(DoneCalledTwice);
      }
    }
  }
}
