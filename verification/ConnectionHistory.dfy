/** What an observer reads off the trace of a connection, and the invariant that relates it to the state. */
module ConnectionHistory {
  import opened Wrappers
  import opened Buffers
  import opened CoordinatorSpec
  import opened WriteOutput
  import opened ConnectionSpec

  type Trace = seq<Event>

  function Init(tr: Trace): Trace
    requires tr != []
  {
    tr[..|tr| - 1]
  }

  function Last(tr: Trace): Event
    requires tr != []
  {
    tr[|tr| - 1]
  }

  /** Everything written to the socket. */
  function SentItems(tr: Trace): seq<Item> {
    if tr == [] then []
    else if Last(tr).Sent? then SentItems(Init(tr)) + Last(tr).data
    else SentItems(Init(tr))
  }

  /** Everything accepted for one request, in the order of the calls. */
  function AcceptedItems(tr: Trace, id: RequestId): seq<Item> {
    if tr == [] then []
    else if Last(tr).Accepted? && Last(tr).req == id then AcceptedItems(Init(tr), id) + Last(tr).items
    else AcceptedItems(Init(tr), id)
  }

  /** The ideal output: the responses of requests 0 .. n-1 one after another. */
  function Stream(tr: Trace, n: nat): seq<Item> {
    if n == 0 then [] else Stream(tr, n - 1) + AcceptedItems(tr, n - 1)
  }

  function FiredTokens(tr: Trace): multiset<Token> {
    if tr == [] then multiset{}
    else if Last(tr).Fired? then FiredTokens(Init(tr)) + multiset{Last(tr).firing.token}
    else FiredTokens(Init(tr))
  }

  function SubmittedTokens(tr: Trace): multiset<Token> {
    if tr == [] then multiset{}
    else if Last(tr).Submitted? then SubmittedTokens(Init(tr)) + multiset{Last(tr).token}
    else SubmittedTokens(Init(tr))
  }

  predicate AcceptsToken(e: Event, t: Token) { e.Accepted? && e.notificator == Some(t) }

  /** The request a notificator was accepted for. */
  function AcceptedFor(tr: Trace, t: Token): RequestId {
    if tr == [] then 0
    else if AcceptsToken(Last(tr), t) then Last(tr).req
    else AcceptedFor(Init(tr), t)
  }

  /** The items of that request up to and including the group the notificator came with. */
  function AcceptedThrough(tr: Trace, t: Token): seq<Item> {
    if tr == [] then []
    else if AcceptsToken(Last(tr), t) then AcceptedItems(tr, Last(tr).req)
    else AcceptedThrough(Init(tr), t)
  }

  /** Every smaller request in full, then this one through the notificator's own group. */
  function OutputThrough(tr: Trace, t: Token): seq<Item> {
    Stream(tr, AcceptedFor(tr, t)) + AcceptedThrough(tr, t)
  }

  /** Each success was reported at a moment when the socket had got exactly that output. */
  ghost predicate SuccessesAreTrue(tr: Trace) {
    tr != [] ==>
      && SuccessesAreTrue(Init(tr))
      && (Last(tr).Fired? && Last(tr).firing.status == Success ==>
            SentItems(Init(tr)) == OutputThrough(Init(tr), Last(tr).firing.token))
  }

  // ---------------------------------------------------------------------------------------------
  // How the observations grow with the trace.

  ghost predicate SameMark(tr: Trace, more: Trace, t: Token) {
    AcceptedFor(tr, t) == AcceptedFor(more, t) && AcceptedThrough(tr, t) == AcceptedThrough(more, t)
  }

  ghost predicate SameAccepts(tr: Trace, more: Trace) {
    && (forall id :: AcceptedItems(tr, id) == AcceptedItems(more, id))
    && (forall t :: SameMark(tr, more, t))
  }

  lemma Snoc(tr: Trace, e: Event)
    ensures Init(tr + [e]) == tr && Last(tr + [e]) == e
  {}

  lemma SilentEvent(tr: Trace, e: Event)
    requires !e.Accepted?
    ensures SameAccepts(tr, tr + [e])
  {
    Snoc(tr, e);
  }

  lemma SameAcceptsTransitive(tr: Trace, mid: Trace, more: Trace)
    requires SameAccepts(tr, mid) && SameAccepts(mid, more)
    ensures SameAccepts(tr, more)
  {
    forall t: Token ensures SameMark(tr, more, t) {
      assert SameMark(tr, mid, t) && SameMark(mid, more, t);
    }
  }

  lemma {:induction false} SameStream(tr: Trace, more: Trace, n: nat)
    requires forall id :: 0 <= id < n ==> AcceptedItems(tr, id) == AcceptedItems(more, id)
    ensures Stream(tr, n) == Stream(more, n)
  {
    if n > 0 {
      SameStream(tr, more, n - 1);
    }
  }

  lemma {:induction false} StreamPrefix(tr: Trace, m: nat, n: nat)
    requires m <= n
    ensures Stream(tr, m) <= Stream(tr, n)
  {
    if m < n {
      StreamPrefix(tr, m, n - 1);
    }
  }

  function FiringTokens(fired: seq<Firing>): seq<Token> {
    seq(|fired|, i requires 0 <= i < |fired| => fired[i].token)
  }

  /** Nothing was accepted, sent or submitted in between, and these tokens were fired. */
  ghost predicate OnlyFired(tr: Trace, more: Trace, tokens: multiset<Token>) {
    && SameAccepts(tr, more)
    && SentItems(more) == SentItems(tr)
    && SubmittedTokens(more) == SubmittedTokens(tr)
    && FiredTokens(more) == FiredTokens(tr) + tokens
  }

  lemma OneFiring(tr: Trace, f: Firing)
    ensures OnlyFired(tr, tr + [Fired(f)], multiset{f.token})
    ensures f.status != Success && SuccessesAreTrue(tr) ==> SuccessesAreTrue(tr + [Fired(f)])
  {
    hide SameAccepts;
    Snoc(tr, Fired(f));
    SilentEvent(tr, Fired(f));
  }

  lemma OnlyFiredTransitive(tr: Trace, mid: Trace, more: Trace, a: multiset<Token>, b: multiset<Token>)
    requires OnlyFired(tr, mid, a) && OnlyFired(mid, more, b)
    ensures OnlyFired(tr, more, a + b)
  {
    hide SameAccepts;
    SameAcceptsTransitive(tr, mid, more);
  }

  lemma FiringsSnoc(tr: Trace, fired: seq<Firing>)
    requires fired != []
    ensures var n := |fired| - 1;
            && tr + Firings(fired) == tr + Firings(fired[..n]) + [Fired(fired[n])]
            && multiset(FiringTokens(fired)) == multiset(FiringTokens(fired[..n])) + multiset{fired[n].token}
  {
    var n := |fired| - 1;
    assert FiringTokens(fired) == FiringTokens(fired[..n]) + [fired[n].token];
  }

  /** Notifications change nothing but the tokens that were fired. */
  lemma {:induction false} LogFirings(tr: Trace, fired: seq<Firing>)
    ensures OnlyFired(tr, tr + Firings(fired), multiset(FiringTokens(fired)))
    ensures (forall i :: 0 <= i < |fired| ==> fired[i].status != Success) && SuccessesAreTrue(tr)
            ==> SuccessesAreTrue(tr + Firings(fired))
  {
    if fired == [] {
      assert tr + Firings(fired) == tr;
    } else {
      hide OnlyFired, SuccessesAreTrue, Firings, FiringTokens;
      var n := |fired| - 1;
      var init := fired[..n];
      var mid := tr + Firings(init);
      LogFirings(tr, init);
      OneFiring(mid, fired[n]);
      OnlyFiredTransitive(tr, mid, mid + [Fired(fired[n])], multiset(FiringTokens(init)), multiset{fired[n].token});
      FiringsSnoc(tr, fired);
    }
  }

  lemma FireTokens(tokens: seq<Token>, status: Status)
    ensures FiringTokens(Fire(tokens, status)) == tokens
  {}

  // ---------------------------------------------------------------------------------------------
  // Queued groups against the accepted items of their request.

  ghost predicate Laid(tr: Trace, id: RequestId, groups: seq<Group>, a: seq<Item>, n: nat) {
    groups != [] ==>
      var g := groups[|groups| - 1];
      && |g.items| <= |a| && a[|a| - |g.items|..] == g.items
      && (g.notificator.Some? ==>
            g.notificator.value < n && AcceptedFor(tr, g.notificator.value) == id &&
            AcceptedThrough(tr, g.notificator.value) == a)
      && Laid(tr, id, groups[..|groups| - 1], a[..|a| - |g.items|], n)
  }

  /** What is left of the accepted items in front of the queued groups. */
  ghost function Residue(groups: seq<Group>, a: seq<Item>): seq<Item> {
    if groups == [] then a
    else
      var g := groups[|groups| - 1];
      if |g.items| <= |a| then Residue(groups[..|groups| - 1], a[..|a| - |g.items|]) else []
  }

  function Items(groups: seq<Group>): seq<Item> {
    if groups == [] then [] else Items(groups[..|groups| - 1]) + groups[|groups| - 1].items
  }

  lemma {:induction false} LaidSplits(tr: Trace, id: RequestId, groups: seq<Group>, a: seq<Item>, n: nat)
    requires Laid(tr, id, groups, a, n)
    ensures Residue(groups, a) + Items(groups) == a
  {
    if groups != [] {
      var g := groups[|groups| - 1];
      LaidSplits(tr, id, groups[..|groups| - 1], a[..|a| - |g.items|], n);
    }
  }

  lemma {:induction false} LaidMoves(tr: Trace, more: Trace, id: RequestId, groups: seq<Group>, a: seq<Item>, n: nat, n': nat)
    requires Laid(tr, id, groups, a, n) && n <= n'
    requires forall t :: 0 <= t < n ==> SameMark(tr, more, t)
    ensures Laid(more, id, groups, a, n')
  {
    if groups != [] {
      var g := groups[|groups| - 1];
      LaidMoves(tr, more, id, groups[..|groups| - 1], a[..|a| - |g.items|], n, n');
      assert g.notificator.Some? ==> SameMark(tr, more, g.notificator.value);
    }
  }

  /** Accepting a group puts its items behind everything queued for the request. */
  lemma EnqueueLaid(tr: Trace, id: RequestId, groups: seq<Group>, a: seq<Item>, g: Group, n: nat)
    requires Laid(tr, id, groups, a, n)
    requires g.notificator.Some? ==>
               g.notificator.value < n && AcceptedFor(tr, g.notificator.value) == id &&
               AcceptedThrough(tr, g.notificator.value) == a + g.items
    ensures Laid(tr, id, Enqueue(groups, g), a + g.items, n)
    ensures Residue(Enqueue(groups, g), a + g.items) == Residue(groups, a)
  {
    var r := Enqueue(groups, g);
    var b := a + g.items;
    if |r| == |groups| {
      var last := groups[|groups| - 1];
      var init := groups[..|groups| - 1];
      var m := Merged(last, g);
      assert r == init + [m] && r[..|r| - 1] == init;
      assert b[..|b| - |m.items|] == a[..|a| - |last.items|];
      assert b[|b| - |m.items|..] == a[|a| - |last.items|..] + g.items;
    } else {
      assert r[..|r| - 1] == groups;
      assert b[..|b| - |g.items|] == a;
    }
  }

  /** Popping the oldest group extends what is in front by its items. */
  lemma {:induction false} PopLaid(tr: Trace, id: RequestId, groups: seq<Group>, a: seq<Item>, n: nat)
    requires groups != [] && Laid(tr, id, groups, a, n)
    ensures Laid(tr, id, groups[1..], a, n)
    ensures Residue(groups[1..], a) == Residue(groups, a) + groups[0].items
    ensures groups[0].notificator.Some? ==>
              var t := groups[0].notificator.value;
              t < n && AcceptedFor(tr, t) == id && AcceptedThrough(tr, t) == Residue(groups[1..], a)
  {
    var k := |groups| - 1;
    var g := groups[k];
    var init := groups[..k];
    if k == 0 {
      assert Residue(init, a[..|a| - |g.items|]) == a[..|a| - |g.items|];
    } else {
      PopLaid(tr, id, init, a[..|a| - |g.items|], n);
      assert groups[1..][..k - 1] == init[1..];
      assert groups[1..][k - 1] == g;
    }
  }
}
