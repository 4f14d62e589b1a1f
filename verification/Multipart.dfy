/** Splitting multipart bodies (restinio/helpers/multipart_body.hpp, section 5.1.1 of RFC 2046). */
module Multipart {
  import opened Wrappers
  import opened Text

  const LAST_SEPARATOR := "--\r\n"

  /** The mark stands nowhere in the text. */
  ghost predicate Free(w: string, m: string) { forall i :: !OccursAt(w, m, i) }

  predicate StartsWith(w: string, m: string) { OccursAt(w, m, 0) }

  /** `string_view::find`. */
  function Find(w: string, m: string): (r: Option<nat>)
    ensures r.Some? ==> OccursAt(w, m, r.value) && forall i :: 0 <= i < r.value ==> !OccursAt(w, m, i)
    ensures r.None? ==> Free(w, m)
  {
    FindFrom(w, m, 0)
  }

  function FindFrom(w: string, m: string, i: nat): (r: Option<nat>)
    requires forall k :: 0 <= k < i ==> !OccursAt(w, m, k)
    ensures r.Some? ==> OccursAt(w, m, r.value) && forall k :: 0 <= k < r.value ==> !OccursAt(w, m, k)
    ensures r.None? ==> Free(w, m)
    decreases |w| + 1 - i
  {
    if i + |m| > |w| then None
    else if OccursAt(w, m, i) then Some(i)
    else FindFrom(w, m, i + 1)
  }

  /** A boundary mark stands at `p` and a line ends just before it. */
  predicate MarkAfterLine(w: string, p: nat) { 2 <= p <= |w| && w[p - 2..p] == CRLF }

  /** The loop of `split_multipart_body`: `rest` begins after a mark, `parts` are found so far. */
  function SplitFrom(rest: string, mark: string, parts: seq<string>): seq<string>
    decreases |rest|
  {
    if !StartsWith(rest, CRLF) then []
    else
      var r := rest[2..];
      var p := Find(r, mark);
      if p.None? || !MarkAfterLine(r, p.value) then []
      else
        var found := parts + [r[..p.value - 2]];
        var next := r[p.value + |mark|..];
        if StartsWith(next, LAST_SEPARATOR) then found else SplitFrom(next, mark, found)
  }

  function Split(body: string, mark: string): seq<string> {
    var p := Find(body, mark);
    if p.None? || (p.value != 0 && !MarkAfterLine(body, p.value)) then []
    else
      var rest := body[p.value + |mark|..];
      if StartsWith(rest, LAST_SEPARATOR) then [] else SplitFrom(rest, mark, [])
  }

  method SplitMultipartBody(body: string, mark: string) returns (result: seq<string>)
    ensures result == Split(body, mark)
  {
    hide Find, SplitFrom;
    var p := Find(body, mark);
    if p.None? {
      return [];
    }
    if p.value != 0 && !MarkAfterLine(body, p.value) {
      return [];
    }
    var remaining := body[p.value + |mark|..];
    if StartsWith(remaining, LAST_SEPARATOR) {
      return [];
    }
    var tmp: seq<string> := [];
    while StartsWith(remaining, CRLF)
      invariant Split(body, mark) == SplitFrom(remaining, mark, tmp)
      decreases |remaining|
    {
      SplitFromStep(remaining, mark, tmp);
      remaining := remaining[|CRLF|..];
      p := Find(remaining, mark);
      if p.None? {
        return [];
      }
      if !MarkAfterLine(remaining, p.value) {
        return [];
      }
      tmp := tmp + [remaining[..p.value - |CRLF|]];
      remaining := remaining[p.value + |mark|..];
      if StartsWith(remaining, LAST_SEPARATOR) {
        return tmp;
      }
    }
    SplitFromStops(remaining, mark, tmp);
    return [];
  }

  lemma SplitFromStops(rest: string, mark: string, parts: seq<string>)
    requires !StartsWith(rest, CRLF)
    ensures SplitFrom(rest, mark, parts) == []
  {}

  /** One round of the loop. */
  lemma SplitFromStep(rest: string, mark: string, parts: seq<string>)
    requires StartsWith(rest, CRLF)
    ensures var r := rest[2..];
            var p := Find(r, mark);
            SplitFrom(rest, mark, parts) ==
            if p.None? || !MarkAfterLine(r, p.value) then []
            else
              var found := parts + [r[..p.value - 2]];
              var next := r[p.value + |mark|..];
              if StartsWith(next, LAST_SEPARATOR) then found else SplitFrom(next, mark, found)
  {
    hide Find;
  }

  // ---------------------------------------------------------------------------------------------
  // Boundary values.

  predicate IsBcharNoSpace(c: char) {
    '0' <= c <= '9' || 'A' <= c <= 'Z' || 'a' <= c <= 'z' || c in "'()+_,-./:=?"
  }

  /** The characters of RFC 2046, one by one. */
  const DIGITS := "0123456789"
  const UPPER := "ABCDEFGHIJKLMNOPQRSTUVWXYZ"
  const LOWER := "abcdefghijklmnopqrstuvwxyz"
  const OTHERS := "'()+_,-./:=?"

  lemma Digits(c: char)
    ensures '0' <= c <= '9' <==> c in DIGITS
  {
    if '0' <= c <= '9' {
      assert DIGITS[c as int - '0' as int] == c;
    }
  }

  lemma Upper(c: char)
    ensures 'A' <= c <= 'Z' <==> c in UPPER
  {
    if 'A' <= c <= 'Z' {
      assert UPPER[c as int - 'A' as int] == c;
    }
  }

  lemma Lower(c: char)
    ensures 'a' <= c <= 'z' <==> c in LOWER
  {
    if 'a' <= c <= 'z' {
      assert LOWER[c as int - 'a' as int] == c;
    }
  }

  lemma BcharsAreThese(c: char)
    ensures IsBcharNoSpace(c) <==> c in DIGITS || c in UPPER || c in LOWER || c in OTHERS
  {
    Digits(c);
    Upper(c);
    Lower(c);
    hide DIGITS, UPPER, LOWER;
  }

  predicate IsBchar(c: char) { IsBcharNoSpace(c) || c == ' ' }

  /** The grammar of a boundary: up to 69 bchars, then one that is not a space. */
  predicate IsBoundary(v: string) {
    && 1 <= |v| <= 70
    && (forall i :: 0 <= i < |v| - 1 ==> IsBchar(v[i]))
    && IsBcharNoSpace(v[|v| - 1])
  }

  /** A character of the class bchars of RFC 2046. */
  ghost predicate InBchars(c: char) { InBcharsNoSpace(c) || c == ' ' }

  ghost predicate InBcharsNoSpace(c: char) { c in DIGITS || c in UPPER || c in LOWER || c in OTHERS }

  /** The boundary production of RFC 2046: up to 69 bchars, then one that is not a space. */
  lemma BoundaryFollowsTheGrammar(front: string, last: char)
    ensures IsBoundary(front + [last]) <==>
            |front| <= 69 && InBcharsNoSpace(last) && forall i :: 0 <= i < |front| ==> InBchars(front[i])
    ensures !IsBoundary("")
  {
    var v := front + [last];
    BcharsAreThese(last);
    forall i | 0 <= i < |front| ensures v[i] == front[i] && (IsBchar(v[i]) <==> InBchars(front[i])) {
      BcharsAreThese(front[i]);
    }
    hide IsBchar, InBchars, IsBcharNoSpace, InBcharsNoSpace;
  }

  method CheckBoundaryValue(v: string) returns (legal: bool)
    ensures legal == IsBoundary(v)
  {
    if 1 <= |v| <= 70 {
      var last := |v| - 1;
      var i := 0;
      while i != last
        invariant 0 <= i <= last && forall k :: 0 <= k < i ==> IsBchar(v[k])
        decreases last - i
      {
        if !IsBchar(v[i]) {
          return false;
        }
        i := i + 1;
      }
      return IsBcharNoSpace(v[last]);
    } else {
      return false;
    }
  }

  function MarkOf(boundary: string): string { "--" + boundary }

  /** What the splitter needs of a mark. */
  predicate IsMark(m: string) { m != [] && '\r' !in m && '\n' !in m }

  lemma BoundaryMakesMark(boundary: string)
    requires IsBoundary(boundary)
    ensures IsMark(MarkOf(boundary))
  {
    var m := MarkOf(boundary);
    forall i | 0 <= i < |m| ensures m[i] != '\r' && m[i] != '\n' {
      if i >= 2 {
        assert m[i] == boundary[i - 2];
      }
    }
  }

  // ---------------------------------------------------------------------------------------------
  // The declarative format.

  /** The parts, each on lines of its own and followed by the mark. */
  function Join(parts: seq<string>, mark: string): string {
    if parts == [] then [] else Round(parts[0], mark, Join(parts[1..], mark))
  }

  /** A part between line ends, the mark, and what follows. */
  function Round(part: string, mark: string, next: string): string {
    CRLF + (part + (CRLF + (mark + next)))
  }

  ghost predicate AllFree(parts: seq<string>, mark: string) {
    forall i :: 0 <= i < |parts| ==> Free(parts[i], mark)
  }

  predicate EmptyOrEndsLine(w: string) { w == [] || MarkAfterLine(w, |w|) }

  function Compose(preamble: string, parts: seq<string>, epilogue: string, mark: string): string {
    preamble + mark + Join(parts, mark) + LAST_SEPARATOR + epilogue
  }

  ghost predicate WellFormed(preamble: string, parts: seq<string>, mark: string) {
    Free(preamble, mark) && EmptyOrEndsLine(preamble) && parts != [] && AllFree(parts, mark)
  }

  lemma OccursInPrefix(w: string, rest: string, m: string, i: nat)
    requires i + |m| <= |w|
    ensures OccursAt(w + rest, m, i) <==> OccursAt(w, m, i)
  {
    assert (w + rest)[i..i + |m|] == w[i..i + |m|];
  }

  lemma FreePrefix(w: string, n: nat, m: string)
    requires n <= |w| && forall i :: 0 <= i < n ==> !OccursAt(w, m, i)
    requires m != []
    ensures Free(w[..n], m)
  {
    forall i: nat ensures !OccursAt(w[..n], m, i) {
      if i + |m| <= n {
        OccursInPrefix(w[..n], w[n..], m, i);
        assert w[..n] + w[n..] == w;
      }
    }
  }

  lemma FindIs(w: string, m: string, p: nat)
    requires OccursAt(w, m, p) && forall i :: 0 <= i < p ==> !OccursAt(w, m, i)
    ensures Find(w, m) == Some(p)
  {}

  /** An occurrence cannot cover a character that is not in the mark. */
  lemma CannotCover(w: string, m: string, i: nat, k: nat)
    requires i <= k < i + |m| && k < |w| && w[k] !in m
    ensures !OccursAt(w, m, i)
  {}

  /** In front of a mark that follows a line end, a free text contributes no occurrence. */
  lemma FindsNextMark(x: string, m: string, rest: string)
    requires IsMark(m) && Free(x, m)
    ensures Find(x + CRLF + m + rest, m) == Some(|x| + 2)
  {
    hide Find;
    var w := x + CRLF + m + rest;
    assert w[|x| + 2..|x| + 2 + |m|] == m;
    assert w[|x|] == '\r' && w[|x| + 1] == '\n';
    forall i | 0 <= i < |x| + 2 ensures !OccursAt(w, m, i) {
      if i + |m| <= |x| {
        assert w == x + (CRLF + m + rest);
        OccursInPrefix(x, CRLF + m + rest, m, i);
      } else {
        CannotCover(w, m, i, if i <= |x| then |x| else |x| + 1);
      }
    }
    FindIs(w, m, |x| + 2);
  }

  lemma FindsFirstMark(preamble: string, m: string, rest: string)
    requires IsMark(m) && Free(preamble, m) && EmptyOrEndsLine(preamble)
    ensures Find(preamble + m + rest, m) == Some(|preamble|)
  {
    if preamble == [] {
      assert (preamble + m + rest)[0..|m|] == m;
      FindIs(preamble + m + rest, m, 0);
    } else {
      var n := |preamble| - 2;
      var x := preamble[..n];
      assert preamble == x + CRLF;
      forall i: nat ensures !OccursAt(x, m, i) {
        if i + |m| <= |x| {
          OccursInPrefix(x, CRLF, m, i);
        }
      }
      FindsNextMark(x, m, rest);
      assert preamble + m + rest == x + CRLF + m + rest;
    }
  }

  lemma HeadOf(w: string, m: string)
    ensures StartsWith(w, m) && m != [] ==> w != [] && w[0] == m[0]
  {}

  lemma NotLast(w: string)
    requires StartsWith(w, CRLF)
    ensures !StartsWith(w, LAST_SEPARATOR)
  {
    HeadOf(w, CRLF);
    HeadOf(w, LAST_SEPARATOR);
  }

  lemma StartsWithHead(m: string, rest: string)
    ensures StartsWith(m + rest, m)
  {
    assert (m + rest)[0..|m|] == m;
  }

  /** One round of the loop on a part, a line end, a mark and what follows. */
  lemma SplitRound(part: string, m: string, next: string, before: seq<string>)
    requires IsMark(m) && Free(part, m)
    ensures SplitFrom(Round(part, m, next), m, before)
            == if StartsWith(next, LAST_SEPARATOR) then before + [part] else SplitFrom(next, m, before + [part])
  {
    hide Find;
    var r := part + CRLF + m + next;
    var rest := Round(part, m, next);
    assert rest[0..2] == CRLF && rest[2..] == r;
    FindsNextMark(part, m, next);
    var p := |part| + 2;
    assert r[p - 2..p] == CRLF;
    assert r[..p - 2] == part;
    assert r[p + |m|..] == next;
  }

  lemma Assoc(a: string, b: string, c: string)
    ensures a + b + c == a + (b + c)
  {}

  lemma JoinRound(parts: seq<string>, m: string, tail: string)
    requires parts != []
    ensures Join(parts, m) + tail == Round(parts[0], m, Join(parts[1..], m) + tail)
    ensures StartsWith(Join(parts, m) + tail, CRLF)
  {
    hide StartsWith;
    var rest := Join(parts[1..], m);
    Assoc(m, rest, tail);
    Assoc(CRLF, m + rest, tail);
    Assoc(parts[0], CRLF + (m + rest), tail);
    Assoc(CRLF, parts[0] + (CRLF + (m + rest)), tail);
    StartsWithHead(CRLF, parts[0] + (CRLF + (m + (rest + tail))));
  }

  lemma {:induction false} SplitOfJoin(parts: seq<string>, m: string, epilogue: string, before: seq<string>)
    requires IsMark(m) && parts != [] && AllFree(parts, m)
    ensures SplitFrom(Join(parts, m) + (LAST_SEPARATOR + epilogue), m, before) == before + parts
    decreases |parts|
  {
    hide SplitFrom, StartsWith, IsMark;
    var tail := LAST_SEPARATOR + epilogue;
    var next := Join(parts[1..], m) + tail;
    JoinRound(parts, m, tail);
    SplitRound(parts[0], m, next, before);
    if |parts| == 1 {
      assert next == tail;
      StartsWithHead(LAST_SEPARATOR, epilogue);
      assert parts == [parts[0]];
    } else {
      JoinRound(parts[1..], m, tail);
      NotLast(next);
      SplitOfJoin(parts[1..], m, epilogue, before + [parts[0]]);
      assert before + [parts[0]] + parts[1..] == before + parts;
    }
  }

  /** Splitting undoes composing. */
  lemma SplitUndoesCompose(preamble: string, parts: seq<string>, epilogue: string, m: string)
    requires IsMark(m) && WellFormed(preamble, parts, m)
    ensures Split(Compose(preamble, parts, epilogue, m), m) == parts
  {
    hide Find, SplitFrom, Join, StartsWith;
    var rest := Join(parts, m) + (LAST_SEPARATOR + epilogue);
    var body := preamble + m + rest;
    assert body == Compose(preamble, parts, epilogue, m);
    FindsFirstMark(preamble, m, rest);
    assert body[|preamble| + |m|..] == rest;
    assert preamble != [] ==> body[|preamble| - 2..|preamble|] == preamble[|preamble| - 2..];
    JoinRound(parts, m, LAST_SEPARATOR + epilogue);
    NotLast(rest);
    SplitOfJoin(parts, m, epilogue, []);
  }

  /** A mark found after a line end cuts the text in three. */
  lemma CutAtMark(r: string, m: string, p: nat)
    requires OccursAt(r, m, p) && MarkAfterLine(r, p)
    ensures r == r[..p - 2] + (CRLF + (m + r[p + |m|..]))
  {
    assert r == r[..p - 2] + r[p - 2..p] + r[p..p + |m|] + r[p + |m|..];
  }

  /** The text of one round, from what the loop tests. */
  lemma RoundText(rest: string, m: string)
    requires StartsWith(rest, CRLF) && Find(rest[2..], m).Some? && MarkAfterLine(rest[2..], Find(rest[2..], m).value) && m != []
    ensures var r := rest[2..];
            var p := Find(r, m).value;
            && rest == Round(r[..p - 2], m, r[p + |m|..])
            && Free(r[..p - 2], m)
  {
    var r := rest[2..];
    var p := Find(r, m).value;
    FreePrefix(r, p - 2, m);
    CutAtMark(r, m, p);
    assert rest == rest[0..2] + r;
  }

  lemma SplitFromNonempty(rest: string, m: string, before: seq<string>)
    requires SplitFrom(rest, m, before) != []
    ensures StartsWith(rest, CRLF) && Find(rest[2..], m).Some? && MarkAfterLine(rest[2..], Find(rest[2..], m).value)
  {
    hide Find;
  }

  /** A nonempty result was written in the text. */
  lemma {:induction false} SplitFromIsJoin(rest: string, m: string, before: seq<string>) returns (parts: seq<string>, epilogue: string)
    requires m != [] && SplitFrom(rest, m, before) != []
    ensures SplitFrom(rest, m, before) == before + parts
    ensures parts != [] && AllFree(parts, m)
    ensures rest == Join(parts, m) + (LAST_SEPARATOR + epilogue)
    decreases |rest|
  {
    hide Find, Free, Join, Round, SplitFrom;
    SplitFromNonempty(rest, m, before);
    SplitFromStep(rest, m, before);
    RoundText(rest, m);
    var r := rest[2..];
    var p := Find(r, m).value;
    var part := r[..p - 2];
    var next := r[p + |m|..];
    if StartsWith(next, LAST_SEPARATOR) {
      parts, epilogue := [part], next[4..];
      assert next == LAST_SEPARATOR + epilogue by { assert next == next[0..4] + next[4..]; }
      assert parts[1..] == [];
      JoinNothing(m, LAST_SEPARATOR + epilogue);
    } else {
      var more;
      more, epilogue := SplitFromIsJoin(next, m, before + [part]);
      parts := [part] + more;
      assert parts[1..] == more;
      assert before + [part] + more == before + parts;
    }
    JoinRound(parts, m, LAST_SEPARATOR + epilogue);
  }

  lemma JoinNothing(m: string, tail: string)
    ensures Join([], m) + tail == tail
  {}

  lemma SplitIsCompose(body: string, m: string) returns (preamble: string, epilogue: string)
    requires m != [] && Split(body, m) != []
    ensures WellFormed(preamble, Split(body, m), m) && body == Compose(preamble, Split(body, m), epilogue, m)
  {
    hide Find, Free, SplitFrom, Join, StartsWith, OccursAt, MarkAfterLine, Compose, EmptyOrEndsLine;
    var p := Find(body, m).value;
    MarkFits(body, m, p);
    preamble := body[..p];
    var rest := body[p + |m|..];
    FreePrefix(body, p, m);
    PreambleEnds(body, p);
    var parts;
    parts, epilogue := SplitFromIsJoin(rest, m, []);
    assert Split(body, m) == parts;
    ComposedAround(body, m, p, parts, epilogue);
  }

  lemma MarkFits(body: string, m: string, p: nat)
    requires OccursAt(body, m, p)
    ensures p + |m| <= |body|
  {}

  lemma PreambleEnds(body: string, p: nat)
    requires p <= |body| && (p == 0 || MarkAfterLine(body, p))
    ensures EmptyOrEndsLine(body[..p])
  {
    assert p != 0 ==> body[..p][p - 2..p] == body[p - 2..p];
  }

  lemma ComposedAround(body: string, m: string, p: nat, parts: seq<string>, epilogue: string)
    requires OccursAt(body, m, p) && body[p + |m|..] == Join(parts, m) + (LAST_SEPARATOR + epilogue)
    ensures body == Compose(body[..p], parts, epilogue, m)
  {
    hide Join;
    assert body == body[..p] + body[p..p + |m|] + body[p + |m|..];
    assert body[..p] + m + (Join(parts, m) + (LAST_SEPARATOR + epilogue)) == body[..p] + m + Join(parts, m) + LAST_SEPARATOR + epilogue;
  }

  /** The splitter finds parts exactly in well-formed bodies, and it finds exactly their parts: the
      body is a mark-free preamble that is empty or ends a line, the mark, mark-free parts between
      line ends each closed by the mark, the closing hyphens and any epilogue. The parts of a body
      are therefore unique. */
  lemma SplitExactlyWellFormed(body: string, boundary: string, parts: seq<string>)
    requires IsBoundary(boundary) && parts != []
    ensures Split(body, MarkOf(boundary)) == parts <==>
            exists preamble, epilogue ::
              WellFormed(preamble, parts, MarkOf(boundary)) && body == Compose(preamble, parts, epilogue, MarkOf(boundary))
  {
    var m := MarkOf(boundary);
    BoundaryMakesMark(boundary);
    if Split(body, m) == parts {
      var preamble, epilogue := SplitIsCompose(body, m);
    }
    forall preamble, epilogue | WellFormed(preamble, parts, m) && body == Compose(preamble, parts, epilogue, m)
      ensures Split(body, m) == parts
    {
      SplitUndoesCompose(preamble, parts, epilogue, m);
    }
  }
}
