/** Line ends and occurrences, shared by the printers and scanners of HTTP text. */
module Text {
  const CRLF := "\r\n"

  predicate OccursAt(w: string, m: string, i: nat) { i + |m| <= |w| && w[i..i + |m|] == m }
}
