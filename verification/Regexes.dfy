/** Anchored regular expressions over character ranges. */
module Regexes {
  datatype Regex =
    | Class(ranges: seq<(char, char)>)
    | Sequence(first: Regex, second: Regex)
    | Star(inner: Regex)

  predicate InClass(c: char, ranges: seq<(char, char)>) {
    exists r :: r in ranges && r.0 <= c <= r.1
  }

  /** The strings of a regular expression's language. */
  ghost predicate Matches(r: Regex, s: string)
    decreases r, |s|
  {
    match r
    case Class(ranges) => |s| == 1 && InClass(s[0], ranges)
    case Sequence(a, b) => exists i :: 0 <= i <= |s| && Matches(a, s[..i]) && Matches(b, s[i..])
    case Star(a) => s == "" || exists i :: 0 < i <= |s| && Matches(a, s[..i]) && Matches(r, s[i..])
  }
}
