/** The request target scanner of `http_request_header_t` (restinio/http_headers.hpp). */
module RequestTarget {
  import opened Wrappers

  /** `memchr_helper`: the first position of `c` among the first `n` characters, or `n`. */
  function MemChr(c: char, w: string, n: nat): (r: nat)
    requires n <= |w|
    ensures r <= n && (r < n ==> w[r] == c) && forall k :: 0 <= k < r ==> w[k] != c
  {
    MemChrFrom(c, w, n, 0)
  }

  function MemChrFrom(c: char, w: string, n: nat, i: nat): (r: nat)
    requires i <= n <= |w| && forall k :: 0 <= k < i ==> w[k] != c
    ensures r <= n && (r < n ==> w[r] == c) && forall k :: 0 <= k < r ==> w[k] != c
    decreases n - i
  {
    if i == n || w[i] == c then i else MemChrFrom(c, w, n, i + 1)
  }

  datatype Target = Target(text: string, query: nat, fragment: nat)

  const EMPTY := Target("", 0, 0)

  /** `request_target(t)`: scan a whole target. */
  function Scan(t: string): Target {
    var fragment := MemChr('#', t, |t|);
    Target(t, MemChr('?', t, fragment), fragment)
  }

  /** `append_request_target`: scan one more block. */
  function Append(s: Target, block: string): Target {
    if |s.text| == s.fragment then
      var inc := MemChr('#', block, |block|);
      var query := if |s.text| == s.query then s.query + MemChr('?', block, inc) else s.query;
      Target(s.text + block, query, s.fragment + inc)
    else s.(text := s.text + block)
  }

  function AppendAll(s: Target, blocks: seq<string>): Target {
    if blocks == [] then s else Append(AppendAll(s, blocks[..|blocks| - 1]), blocks[|blocks| - 1])
  }

  function Concat(blocks: seq<string>): string {
    if blocks == [] then [] else Concat(blocks[..|blocks| - 1]) + blocks[|blocks| - 1]
  }

  class RequestHeader {
    var text: string
    var queryPos: nat
    var fragmentPos: nat

    ghost function Model(): Target
      reads this
    {
      Target(text, queryPos, fragmentPos)
    }

    constructor ()
      ensures Model() == EMPTY
    {
      text, queryPos, fragmentPos := "", 0, 0;
    }

    method SetRequestTarget(t: string)
      modifies this
      ensures Model() == Scan(t)
    {
      text := t;
      fragmentPos := MemChr('#', text, |text|);
      queryPos := MemChr('?', text, fragmentPos);
    }

    method AppendRequestTarget(block: string)
      modifies this
      ensures Model() == Append(old(Model()), block)
    {
      if |text| == fragmentPos {
        var inc := MemChr('#', block, |block|);
        fragmentPos := fragmentPos + inc;
        if |text| == queryPos {
          queryPos := queryPos + MemChr('?', block, inc);
        }
      }
      text := text + block;
    }
  }

  // ---------------------------------------------------------------------------------------------

  /** Only one position is the first one. */
  lemma MemChrIs(c: char, w: string, n: nat, r: nat)
    requires n <= |w| && r <= n && (r < n ==> w[r] == c) && forall k :: 0 <= k < r ==> w[k] != c
    ensures MemChr(c, w, n) == r
  {}

  /** Scanning goes on where it stopped. */
  lemma ScanContinues(a: string, b: string)
    ensures Append(Scan(a), b) == Scan(a + b)
  {
    var s := Scan(a);
    var t := Append(s, b);
    var w := a + b;
    MemChrIs('#', w, |w|, t.fragment);
    MemChrIs('?', w, t.fragment, t.query);
  }

  /** However a target is cut into blocks, the incremental scanner ends in the state of one scan of
      the whole. */
  lemma {:induction false} BlocksDoNotMatter(blocks: seq<string>)
    ensures AppendAll(EMPTY, blocks) == Scan(Concat(blocks))
  {
    if blocks != [] {
      var init := blocks[..|blocks| - 1];
      BlocksDoNotMatter(init);
      ScanContinues(Concat(init), blocks[|blocks| - 1]);
    }
  }

  function Path(s: Target): string
    requires s.query <= |s.text|
  {
    s.text[..s.query]
  }

  function Query(s: Target): Option<string>
    requires s.query <= s.fragment <= |s.text|
  {
    if s.fragment == s.query then None else Some(s.text[s.query + 1..s.fragment])
  }

  function FragmentOf(s: Target): Option<string>
    requires s.fragment <= |s.text|
  {
    if |s.text| == s.fragment then None else Some(s.text[s.fragment + 1..])
  }

  /** The syntax of sections 3.3 to 3.5 of RFC 3986. */
  function Compose(path: string, query: Option<string>, fragment: Option<string>): string {
    path + (if query.Some? then "?" + query.value else "") + (if fragment.Some? then "#" + fragment.value else "")
  }

  predicate Separated(path: string, query: Option<string>) {
    '?' !in path && '#' !in path && (query.Some? ==> '#' !in query.value)
  }

  /** The three components, with their separators, rebuild the target, and they are the only ones
      that do: the path holds no separator and the query holds no '#'. */
  lemma ComponentsAreExact(t: string, path: string, query: Option<string>, fragment: Option<string>)
    ensures var s := Scan(t);
            (Path(s) == path && Query(s) == query && FragmentOf(s) == fragment) <==>
            (t == Compose(path, query, fragment) && Separated(path, query))
  {
    var s := Scan(t);
    if t == Compose(path, query, fragment) && Separated(path, query) {
      ScanOfCompose(t, path, query, fragment);
    } else {
      ScanRebuilds(t);
    }
  }

  lemma ScanRebuilds(t: string)
    ensures var s := Scan(t);
            t == Compose(Path(s), Query(s), FragmentOf(s)) && Separated(Path(s), Query(s))
  {
    var s := Scan(t);
    assert t[..s.fragment] == Path(s) + if Query(s).Some? then "?" + Query(s).value else "";
    assert t == t[..s.fragment] + t[s.fragment..];
    assert FragmentOf(s).Some? ==> t[s.fragment..] == "#" + FragmentOf(s).value;
    assert forall k :: 0 <= k < s.query ==> Path(s)[k] == t[k];
  }

  lemma ScanOfCompose(t: string, path: string, query: Option<string>, fragment: Option<string>)
    requires t == Compose(path, query, fragment) && Separated(path, query)
    ensures var s := Scan(t); Path(s) == path && Query(s) == query && FragmentOf(s) == fragment
  {
    hide MemChr;
    var q := if query.Some? then "?" + query.value else "";
    var f := if fragment.Some? then "#" + fragment.value else "";
    var n := |path| + |q|;
    assert t == path + q + f;
    assert forall k :: 0 <= k < |path| ==> t[k] == path[k];
    assert forall k :: |path| <= k < n ==> t[k] == q[k - |path|];
    assert n < |t| ==> t[n] == '#';
    forall k | 0 <= k < n ensures t[k] != '#' {
      if |path| < k {
        assert t[k] == query.value[k - |path| - 1];
      }
    }
    MemChrIs('#', t, |t|, n);
    MemChrIs('?', t, n, |path|);
    assert t[..|path|] == path;
    assert query.Some? ==> t[|path| + 1..n] == query.value;
    assert fragment.Some? ==> t[n + 1..] == fragment.value;
  }
}
