/** Substring replacement, scanning from the left and never overlapping, and facts about it. */
module Text {

  function Replaced(s: string, pattern: string, by_: string): string
    requires pattern != []
  {
    if s == [] then []
    else if pattern <= s then by_ + Replaced(s[|pattern|..], pattern, by_)
    else [s[0]] + Replaced(s[1..], pattern, by_)
  }

  /** Does `pattern` occur anywhere in `s`? */
  ghost predicate Occurs(pattern: string, s: string) {
    exists i :: 0 <= i <= |s| && pattern <= s[i..]
  }

  predicate Free(s: string, c: char) {
    c !in s
  }

  lemma PrefixHolds(s: string, prefix: string, c: char)
    requires prefix <= s && c in prefix
    ensures c in s
  {
    var k :| 0 <= k < |prefix| && prefix[k] == c;
    assert s[k] == c;
  }

  /** A pattern is not found where one of its characters is missing. */
  lemma {:induction false} NothingToReplace(s: string, pattern: string, by_: string, c: char)
    requires pattern != [] && c in pattern && Free(s, c)
    ensures Replaced(s, pattern, by_) == s
  {
    if s != [] {
      if pattern <= s {
        PrefixHolds(s, pattern, c);
      }
      NothingToReplace(s[1..], pattern, by_, c);
    }
  }

  function Joined(parts: seq<string>, separator: string): string {
    if parts == [] then []
    else if |parts| == 1 then parts[0]
    else parts[0] + separator + Joined(parts[1..], separator)
  }
}
