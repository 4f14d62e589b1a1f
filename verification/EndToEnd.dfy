/** From a builder through the coordinator to the socket. */
module EndToEnd {
  import opened Wrappers
  import opened Buffers
  import opened CoordinatorSpec
  import opened ConnectionSpec
  import opened ConnectionHistory
  import opened ConnectionTheorems
  import opened ConnectionAccepts
  import opened HeaderString
  import opened ChunkedCoding
  import B = ResponseBuilders

  /** All items a builder handed to its connection. */
  function LogItems(log: seq<B.Parts>): seq<Item> {
    if log == [] then [] else LogItems(log[..|log| - 1]) + log[|log| - 1].items
  }

  lemma {:induction false} LogBytes(log: seq<B.Parts>)
    ensures Bytes(LogItems(log)) == B.Wire(log)
  {
    if log != [] {
      LogBytes(log[..|log| - 1]);
      BytesConcat(LogItems(log[..|log| - 1]), log[|log| - 1].items);
    }
  }

  /** The place of one response in the output, once it has been sent in full. */
  lemma ResponseInOutput(capacity: nat, maxIov: nat, steps: seq<Step>, s: Conn, id: RequestId)
    requires Reaches(capacity, maxIov, steps, s) && id < s.coord.registered
    requires |Stream(s.trace, id + 1)| <= |SentItems(s.trace)|
    ensures |Stream(s.trace, id)| <= |Stream(s.trace, id + 1)|
    ensures SentItems(s.trace)[|Stream(s.trace, id)|..|Stream(s.trace, id + 1)|] == AcceptedItems(s.trace, id)
  {
    ResponsesInRequestOrder(capacity, maxIov, steps, s);
    StreamPrefix(s.trace, id + 1, s.coord.registered);
    assert Stream(s.trace, id + 1) == Stream(s.trace, id) + AcceptedItems(s.trace, id);
    assert SentItems(s.trace)[..|Stream(s.trace, id + 1)|] == Stream(s.trace, id + 1);
  }

  /** The calls made for one request. */
  function Submissions(steps: seq<Step>, id: RequestId): seq<Step> {
    if steps == [] then []
    else
      var last := steps[|steps| - 1];
      Submissions(steps[..|steps| - 1], id) + if last.WriteParts? && last.id == id then [last] else []
  }

  /** The calls a builder's log stands for. */
  function AsSteps(log: seq<B.Parts>, id: RequestId): seq<Step> {
    seq(|log|, k requires 0 <= k < |log| =>
      WriteParts(id, Flags(log[k].final, !log[k].keepAlive), log[k].items, log[k].statusLineSize, log[k].notify))
  }

  /** No part for the request was refused. */
  ghost predicate NoneRefused(start: Conn, steps: seq<Step>, id: RequestId)
    requires 0 < start.maxIov
  {
    forall k :: 0 <= k < |steps| && steps[k].WriteParts? && steps[k].id == id ==> Taken(Run(start, steps[..k]), steps[k])
  }

  lemma {:induction false} LogIsTaken(start: Conn, steps: seq<Step>, id: RequestId, log: seq<B.Parts>)
    requires 0 < start.maxIov && NoneRefused(start, steps, id) && Submissions(steps, id) == AsSteps(log, id)
    ensures TakenItems(start, steps, id) == LogItems(log)
  {
    hide Run, Taken;
    if steps != [] {
      var n := |steps| - 1;
      var init := steps[..n];
      var last := steps[n];
      forall k | 0 <= k < n && init[k].WriteParts? && init[k].id == id ensures Taken(Run(start, init[..k]), init[k]) {
        assert init[..k] == steps[..k] && init[k] == steps[k];
      }
      if last.WriteParts? && last.id == id {
        var m := |log| - 1;
        assert AsSteps(log, id)[..m] == AsSteps(log[..m], id);
        assert AsSteps(log, id)[m] == last;
        LogIsTaken(start, init, id, log[..m]);
      } else {
        LogIsTaken(start, init, id, log);
      }
    }
  }

  /** A chunked response whose builder's calls reach the connection in order (between any other
      steps) and are not refused arrives, once sent in full, at its place in the pipelined output as
      a header and a body that the reference decoder turns into the appended data, with nothing left
      over, whatever other responses were built meanwhile, in whatever order, and however buffers
      were merged and cut on the way. */
  lemma ChunkedResponseArrives(capacity: nat, maxIov: nat, steps: seq<Step>, s: Conn, id: RequestId,
                               h: Header, calls: seq<B.Call>, notify: bool, more: seq<B.Call>)
    requires Reaches(capacity, maxIov, steps, s) && id < s.coord.registered
    requires forall i :: 0 <= i < |calls| ==> !calls[i].Done?
    requires Submissions(steps, id) == AsSteps(B.ChunkedRun(h, calls + [B.Done(notify)] + more).log, id)
    requires NoneRefused(Start(capacity, maxIov), steps, id)
    requires |Stream(s.trace, id + 1)| <= |SentItems(s.trace)|
    ensures |Stream(s.trace, id)| <= |Stream(s.trace, id + 1)|
    ensures var wire := Bytes(SentItems(s.trace)[|Stream(s.trace, id)|..|Stream(s.trace, id + 1)|]);
            var header := B.SentHeader(B.ChunkedRun(h, calls + [B.Done(notify)] + more).log);
            && header <= wire
            && Decode(wire[|header|..]) == Some((Concat(B.AppendedChunks(calls)), ""))
  {
    hide Run, Stream, SentItems, AcceptedItems, B.ChunkedRun, Decode, Submissions, NoneRefused;
    var log := B.ChunkedRun(h, calls + [B.Done(notify)] + more).log;
    AcceptedAreTaken(capacity, maxIov, steps, id);
    LogIsTaken(Start(capacity, maxIov), steps, id, log);
    ResponseInOutput(capacity, maxIov, steps, s, id);
    LogBytes(log);
    B.ChunkedRoundTrip(h, calls, notify, more);
  }
}
