/** Rewriting the build directory to a token, so that sibling build trees share cache entries, and back. */
module Basedir {
  import opened Common
  import opened Text

  const TOKEN := "<<MOCCACHE_BASEDIR>>"

  /** White space as a regular expression over text understands it. */
  predicate IsSpace(c: char) {
    var u := c as int;
    || 9 <= u <= 13 || 28 <= u <= 32 || u == 0x85 || u == 0xA0 || u == 0x1680
    || 0x2000 <= u <= 0x200A || u == 0x2028 || u == 0x2029 || u == 0x202F || u == 0x205F || u == 0x3000
  }

  /** What may follow a directory name without extending it: a separator, a quote, space or backslash. */
  predicate EndsName(c: char) {
    c == '/' || c == '"' || c == '\'' || c == '\\' || IsSpace(c)
  }

  /** Does `s` begin with the directory itself rather than with a name that merely starts like it? */
  predicate BeginsWith(s: string, prefix: string) {
    prefix <= s && (|prefix| == |s| || EndsName(s[|prefix|]))
  }

  predicate IsFirstMatch(s: string, prefixes: seq<string>, i: nat)
    requires i < |prefixes|
  {
    BeginsWith(s, prefixes[i]) && forall j :: 0 <= j < i ==> !BeginsWith(s, prefixes[j])
  }

  /** The length of the first spelling found at the start of `s`; spellings are tried in order. */
  function Matched(s: string, prefixes: seq<string>): (n: Option<nat>)
    ensures n.Some? ==> n.value <= |s| && s[..n.value] in prefixes
    ensures n.Some? ==> exists i :: 0 <= i < |prefixes| && IsFirstMatch(s, prefixes, i) && n.value == |prefixes[i]|
    ensures n.None? <==> forall i :: 0 <= i < |prefixes| ==> !BeginsWith(s, prefixes[i])
  {
    if prefixes == [] then None
    else if BeginsWith(s, prefixes[0]) then
      assert s[..|prefixes[0]|] == prefixes[0];
      assert IsFirstMatch(s, prefixes, 0);
      Some(|prefixes[0]|)
    else
      assert forall i :: 1 <= i < |prefixes| ==> prefixes[i] == prefixes[1..][i - 1];
      assert forall i :: 0 <= i < |prefixes| - 1 && IsFirstMatch(s, prefixes[1..], i) ==> IsFirstMatch(s, prefixes, i + 1);
      Matched(s, prefixes[1..])
  }

  predicate Spellings(prefixes: seq<string>) {
    forall i :: 0 <= i < |prefixes| ==> prefixes[i] != []
  }

  /** Every occurrence of the directory replaced by `name`, from the left. */
  function Renamed(s: string, prefixes: seq<string>, name: string): string
    requires Spellings(prefixes)
    decreases |s|
  {
    if s == [] then []
    else match Matched(s, prefixes)
      case Some(n) => name + Renamed(s[n..], prefixes, name)
      case None => [s[0]] + Renamed(s[1..], prefixes, name)
  }

  function Normalized(s: string, prefixes: seq<string>): string
    requires Spellings(prefixes)
  {
    Renamed(s, prefixes, TOKEN)
  }

  function Denormalized(s: string, raw: string): string {
    if raw == [] then s else Replaced(s, TOKEN, raw)
  }

  // ---- the token overlaps no shifted copy of itself ----

  lemma TokenHasNoBorder(k: nat)
    requires 1 <= k < |TOKEN|
    ensures TOKEN[k..] != TOKEN[..|TOKEN| - k]
  {
    if k == 1 {
      assert TOKEN[k..][1] == 'M' && TOKEN[..|TOKEN| - k][1] == '<';
    } else {
      assert TOKEN[k..][0] != '<' && TOKEN[..|TOKEN| - k][0] == '<';
    }
  }

  lemma PrefixesAgree(a: string, b: string, s: string)
    requires a <= s && b <= s && |a| <= |b|
    ensures a == b[..|a|]
  {
  }

  /** The end of a token, met at the start of a rewritten string, was there before rewriting. */
  lemma {:induction false} TokenTailWasThere(s: string, prefixes: seq<string>, k: nat)
    requires Spellings(prefixes) && 1 <= k <= |TOKEN|
    requires TOKEN[k..] <= Normalized(s, prefixes)
    ensures TOKEN[k..] <= s
    decreases |s|
  {
    if k < |TOKEN| {
      var n := Normalized(s, prefixes);
      if s != [] {
        match Matched(s, prefixes)
        case Some(m) =>
          PrefixesAgree(TOKEN[k..], TOKEN, n);
          TokenHasNoBorder(k);
        case None =>
          assert n[1..] == Normalized(s[1..], prefixes);
          assert TOKEN[k..][1..] == TOKEN[k + 1..];
          TokenTailWasThere(s[1..], prefixes, k + 1);
          assert s == [s[0]] + s[1..];
      }
    }
  }

  /** So a rewritten string begins with a token only where one was put, or was before. */
  lemma TokenHeadWasThere(s: string, prefixes: seq<string>)
    requires Spellings(prefixes) && s != [] && Matched(s, prefixes).None?
    requires TOKEN <= Normalized(s, prefixes)
    ensures TOKEN <= s
  {
    var n := Normalized(s, prefixes);
    assert n[1..] == Normalized(s[1..], prefixes) && TOKEN[1..] <= n[1..];
    TokenTailWasThere(s[1..], prefixes, 1);
    assert s == [s[0]] + s[1..] && TOKEN == [TOKEN[0]] + TOKEN[1..];
  }

  /** Rewriting and rewriting back replaces each spelling of the directory by the one in use, in every
      string that does not hold the token. */
  lemma {:induction false} BackToOneSpelling(s: string, prefixes: seq<string>, raw: string)
    requires Spellings(prefixes) && raw != [] && !Occurs(TOKEN, s)
    ensures Denormalized(Normalized(s, prefixes), raw) == Renamed(s, prefixes, raw)
    decreases |s|
  {
    if s != [] {
      var n := Normalized(s, prefixes);
      match Matched(s, prefixes)
      case Some(m) =>
        OccursLater(TOKEN, s, m);
        BackToOneSpelling(s[m..], prefixes, raw);
        assert TOKEN <= n && n[|TOKEN|..] == Normalized(s[m..], prefixes);
      case None =>
        OccursLater(TOKEN, s, 1);
        BackToOneSpelling(s[1..], prefixes, raw);
        assert s[0..] == s;
        if TOKEN <= n {
          TokenHeadWasThere(s, prefixes);
        }
        assert n[1..] == Normalized(s[1..], prefixes);
    }
  }

  lemma OccursLater(pattern: string, s: string, m: nat)
    requires m <= |s| && !Occurs(pattern, s)
    ensures !Occurs(pattern, s[m..])
  {
    forall i | 0 <= i <= |s[m..]| ensures !(pattern <= s[m..][i..]) {
      assert s[m..][i..] == s[m + i..];
    }
  }

  lemma {:induction false} OneSpellingIsItself(s: string, raw: string)
    requires raw != []
    ensures Renamed(s, [raw], raw) == s
    decreases |s|
  {
    if s != [] {
      match Matched(s, [raw])
      case Some(m) =>
        assert s[..m] == raw;
        OneSpellingIsItself(s[m..], raw);
      case None =>
        OneSpellingIsItself(s[1..], raw);
    }
  }

  /** Reversibility: with one spelling of the base directory, every string that does not hold the token
      comes back unchanged. */
  lemma Reversible(s: string, raw: string)
    requires raw != [] && !Occurs(TOKEN, s)
    ensures Denormalized(Normalized(s, [raw]), raw) == s
  {
    BackToOneSpelling(s, [raw], raw);
    OneSpellingIsItself(s, raw);
  }

  /** So in one build tree rewriting confuses no two such strings. */
  lemma NormalizedIsInjective(s: string, t: string, raw: string)
    requires raw != [] && !Occurs(TOKEN, s) && !Occurs(TOKEN, t)
    requires Normalized(s, [raw]) == Normalized(t, [raw])
    ensures s == t
  {
    Reversible(s, raw);
    Reversible(t, raw);
  }

  ghost predicate NoneBegins(s: string, prefixes: seq<string>, k: nat)
    requires k <= |s|
  {
    forall i :: 0 <= i < k ==> Matched(s[i..], prefixes).None?
  }

  /** Where nothing is found, the text is copied. */
  lemma {:induction false} CopiedUpTo(s: string, prefixes: seq<string>, k: nat)
    requires Spellings(prefixes) && k <= |s| && NoneBegins(s, prefixes, k)
    ensures Normalized(s, prefixes) == s[..k] + Normalized(s[k..], prefixes)
    decreases k
  {
    assert s[0..] == s;
    if k > 0 {
      var rest := s[1..];
      forall i | 0 <= i < k - 1 ensures Matched(rest[i..], prefixes).None? {
        assert rest[i..] == s[i + 1..];
      }
      CopiedUpTo(rest, prefixes, k - 1);
      assert Matched(s[0..], prefixes).None?;
      assert s[k..] == rest[k - 1..] && s[..k] == [s[0]] + rest[..k - 1];
    }
  }

  /** Position by position: up to the first genuine occurrence everything is left as it is, occurrences
      that only begin a sibling's name included; that occurrence becomes the token, and what follows it
      is rewritten in the same way. */
  lemma SiblingsUntouched(s: string, prefixes: seq<string>, k: nat)
    requires Spellings(prefixes) && k <= |s|
    requires forall i, j :: 0 <= i < k && 0 <= j < |prefixes| ==> !BeginsWith(s[i..], prefixes[j])
    ensures Normalized(s, prefixes) == s[..k] + Normalized(s[k..], prefixes)
    ensures forall j :: 0 <= j < |prefixes| && IsFirstMatch(s[k..], prefixes, j) ==>
              Normalized(s, prefixes) == s[..k] + (TOKEN + Normalized(s[k..][|prefixes[j]|..], prefixes))
  {
    CopiedUpTo(s, prefixes, k);
    forall j | 0 <= j < |prefixes| && IsFirstMatch(s[k..], prefixes, j)
      ensures Normalized(s, prefixes) == s[..k] + (TOKEN + Normalized(s[k..][|prefixes[j]|..], prefixes))
    {
      MatchedIs(s[k..], prefixes, j);
    }
  }

  /** The directory itself, or what lies in it, or its name before a quote, a backslash or a space, is renamed. */
  lemma DirectoryIsRenamed(raw: string, rest: string)
    requires raw != []
    requires rest != [] ==> rest[0] in "/\"'\\ \t\n\r"
    ensures Normalized(raw + rest, [raw]) == TOKEN + Normalized(rest, [raw])
  {
    var s := raw + rest;
    assert raw <= s && s[|raw|..] == rest;
    assert BeginsWith(s, raw);
    assert IsFirstMatch(s, [raw], 0);
    MatchedIs(s, [raw], 0);
  }

  /** A name that goes on is a sibling's, and is not. */
  lemma LongerNameIsKept(raw: string, rest: string)
    requires raw != [] && rest != []
    requires 'a' <= rest[0] <= 'z' || 'A' <= rest[0] <= 'Z' || '0' <= rest[0] <= '9' || rest[0] in "-_.+@~"
    ensures Normalized(raw + rest, [raw]) == [raw[0]] + Normalized((raw + rest)[1..], [raw])
  {
    var s := raw + rest;
    assert !BeginsWith(s, raw) by { assert s[|raw|] == rest[0]; }
  }

  /** The spelling found is the first in order that fits. */
  lemma {:induction false} MatchedIs(s: string, prefixes: seq<string>, j: nat)
    requires j < |prefixes| && prefixes[j] != [] && IsFirstMatch(s, prefixes, j)
    ensures s != [] && Matched(s, prefixes) == Some(|prefixes[j]|)
  {
    if j > 0 {
      assert !BeginsWith(s, prefixes[0]);
      forall i | 0 <= i < j - 1 ensures !BeginsWith(s, prefixes[1..][i]) {
        assert !BeginsWith(s, prefixes[i + 1]);
      }
      MatchedIs(s, prefixes[1..], j - 1);
    }
  }

  /** Rewriting brings in no character that neither the string nor the token has. */
  lemma {:induction false} NormalizedStaysFree(s: string, prefixes: seq<string>, c: char)
    requires Spellings(prefixes) && Free(s, c) && Free(TOKEN, c)
    ensures Free(Normalized(s, prefixes), c)
    decreases |s|
  {
    if s != [] {
      match Matched(s, prefixes)
      case Some(m) => NormalizedStaysFree(s[m..], prefixes, c);
      case None => NormalizedStaysFree(s[1..], prefixes, c);
    }
  }

  // ---- and only those strings come back ----

  function Closers(s: string): nat {
    if s == [] then 0 else Closers(s[1..]) + if s[0] == '>' then 1 else 0
  }

  lemma {:induction false} ClosersConcat(a: string, b: string)
    ensures Closers(a + b) == Closers(a) + Closers(b)
  {
    if a == [] {
      assert a + b == b;
    } else {
      ClosersConcat(a[1..], b);
      assert (a + b)[1..] == a[1..] + b;
    }
  }

  lemma ClosersSplit(s: string, prefix: string)
    requires prefix <= s
    ensures Closers(s) == Closers(prefix) + Closers(s[|prefix|..])
  {
    assert s == prefix + s[|prefix|..];
    ClosersConcat(prefix, s[|prefix|..]);
  }

  lemma {:induction false} NoClosers(s: string)
    requires Free(s, '>')
    ensures Closers(s) == 0
  {
    if s != [] {
      NoClosers(s[1..]);
    }
  }

  lemma {:induction false} SomeCloser(s: string, k: nat)
    requires k < |s| && s[k] == '>'
    ensures Closers(s) > 0
  {
    if k > 0 {
      SomeCloser(s[1..], k - 1);
    }
  }

  lemma TokenAt(s: string, i: nat, k: nat)
    requires i <= |s| && TOKEN <= s[i..] && k < |TOKEN|
    ensures i + k < |s| && s[i + k] == TOKEN[k]
  {
    assert s[i..][k] == TOKEN[k];
  }

  lemma TokenEndsNoName(k: nat)
    requires k < |TOKEN|
    ensures !EndsName(TOKEN[k])
  {
  }

  lemma PrefixReaches(prefix: string, s: string, d: nat)
    requires prefix <= s && d < |prefix|
    ensures s[d] in prefix
  {
    assert prefix[d] == s[d];
  }

  /** A directory that has no `>` in its name is not found anywhere inside a token. */
  lemma NoMatchInToken(s: string, raw: string, j: nat)
    requires raw != [] && Free(raw, '>') && TOKEN <= s && j < |TOKEN|
    ensures Matched(s[j..], [raw]).None?
  {
    var tail, d := s[j..], |TOKEN| - 1 - j;
    assert s[0..] == s;
    TokenAt(s, 0, |TOKEN| - 1);
    if raw <= tail {
      if d < |raw| {
        PrefixReaches(raw, tail, d);
      } else {
        TokenAt(s, 0, j + |raw|);
        TokenEndsNoName(j + |raw|);
      }
    }
  }

  lemma TokenIsCopied(s: string, raw: string)
    requires raw != [] && Free(raw, '>') && TOKEN <= s
    ensures Denormalized(Normalized(s, [raw]), raw) == raw + Denormalized(Normalized(s[|TOKEN|..], [raw]), raw)
  {
    forall j | 0 <= j < |TOKEN| ensures Matched(s[j..], [raw]).None? {
      NoMatchInToken(s, raw, j);
    }
    CopiedUpTo(s, [raw], |TOKEN|);
    assert (TOKEN + Normalized(s[|TOKEN|..], [raw]))[|TOKEN|..] == Normalized(s[|TOKEN|..], [raw]);
  }

  /** A token is never cut by an occurrence of the directory that begins before it. */
  lemma TokenAfterMatch(s: string, raw: string)
    requires raw != [] && Free(raw, '>') && BeginsWith(s, raw) && Occurs(TOKEN, s)
    ensures Occurs(TOKEN, s[|raw|..])
  {
    var i :| 0 <= i <= |s| && TOKEN <= s[i..];
    var m, last := |raw|, |TOKEN| - 1;
    TokenAt(s, i, last);
    if i + last < m {
      PrefixReaches(raw, s, i + last);
    } else if i < m {
      TokenAt(s, i, m - i);
      TokenEndsNoName(m - i);
    } else {
      assert s[m..][i - m..] == s[i..];
    }
  }

  lemma TokenLater(s: string)
    requires s != [] && Occurs(TOKEN, s) && !(TOKEN <= s)
    ensures Occurs(TOKEN, s[1..])
  {
    var i :| 0 <= i <= |s| && TOKEN <= s[i..];
    assert s[0..] == s;
    assert s[1..][i - 1..] == s[i..];
  }

  /** There and back loses the closing brackets of every token that was there to begin with. */
  lemma {:induction false} TokensAreLost(s: string, raw: string)
    requires raw != [] && Free(raw, '>')
    ensures Closers(Denormalized(Normalized(s, [raw]), raw)) <= Closers(s)
    ensures Occurs(TOKEN, s) ==> Closers(Denormalized(Normalized(s, [raw]), raw)) < Closers(s)
    decreases |s|
  {
    if s != [] {
      if TOKEN <= s {
        TokensAreLost(s[|TOKEN|..], raw);
        LostAtToken(s, raw);
        ClosersPastToken(s);
      } else if BeginsWith(s, raw) {
        TokensAreLost(s[|raw|..], raw);
        KeptAtMatch(s, raw);
        if Occurs(TOKEN, s) {
          TokenAfterMatch(s, raw);
        }
      } else {
        TokensAreLost(s[1..], raw);
        OneCharBack(s, raw);
        ClosersConcat([s[0]], Denormalized(Normalized(s[1..], [raw]), raw));
        if Occurs(TOKEN, s) {
          TokenLater(s);
        }
      }
    }
  }

  lemma LostAtToken(s: string, raw: string)
    requires raw != [] && Free(raw, '>') && TOKEN <= s
    ensures Closers(Denormalized(Normalized(s, [raw]), raw)) == Closers(Denormalized(Normalized(s[|TOKEN|..], [raw]), raw))
  {
    NoClosers(raw);
    TokenIsCopied(s, raw);
    ClosersConcat(raw, Denormalized(Normalized(s[|TOKEN|..], [raw]), raw));
  }

  lemma ClosersPastToken(s: string)
    requires TOKEN <= s
    ensures Closers(s) > Closers(s[|TOKEN|..])
  {
    var n := |TOKEN|;
    ClosersSplit(s, s[..n]);
    assert s[n - 1] == TOKEN[n - 1];
    SomeCloser(s[..n], n - 1);
  }

  lemma KeptAtMatch(s: string, raw: string)
    requires raw != [] && Free(raw, '>') && s != [] && BeginsWith(s, raw)
    ensures var rest := s[|raw|..];
            && Closers(s) == Closers(rest)
            && Closers(Denormalized(Normalized(s, [raw]), raw)) == Closers(Denormalized(Normalized(rest, [raw]), raw))
  {
    var rest := s[|raw|..];
    NoClosers(raw);
    assert Normalized(s, [raw])[|TOKEN|..] == Normalized(rest, [raw]);
    ClosersConcat(raw, Denormalized(Normalized(rest, [raw]), raw));
    ClosersSplit(s, raw);
  }

  lemma OneCharBack(s: string, raw: string)
    requires raw != [] && s != [] && !(TOKEN <= s) && !BeginsWith(s, raw)
    ensures Denormalized(Normalized(s, [raw]), raw) == [s[0]] + Denormalized(Normalized(s[1..], [raw]), raw)
  {
    var n := Normalized(s, [raw]);
    assert n[1..] == Normalized(s[1..], [raw]);
    if TOKEN <= n {
      TokenHeadWasThere(s, [raw]);
    }
  }

  /** Exactly the strings without the token come back, for a directory that has no `>` in its name. */
  lemma ReversibleExactly(s: string, raw: string)
    requires raw != [] && Free(raw, '>')
    ensures Denormalized(Normalized(s, [raw]), raw) == s <==> !Occurs(TOKEN, s)
  {
    if Occurs(TOKEN, s) {
      TokensAreLost(s, raw);
    } else {
      Reversible(s, raw);
    }
  }
}
