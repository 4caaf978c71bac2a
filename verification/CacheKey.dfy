/** The text a cache key is the hash of: every part followed by a NUL. */
module CacheKey {
  import opened Text

  function Terminated(parts: seq<string>): string {
    if parts == [] then [] else parts[0] + ['\0'] + Terminated(parts[1..])
  }

  predicate NulFree(parts: seq<string>) {
    forall i :: 0 <= i < |parts| ==> Free(parts[i], '\0')
  }

  /** A NUL-free part is what stands before the first NUL. */
  lemma FirstPart(a: string, b: string, tailA: string, tailB: string)
    requires Free(a, '\0') && Free(b, '\0') && a + ['\0'] + tailA == b + ['\0'] + tailB
    ensures a == b && tailA == tailB
  {
    var s := a + ['\0'] + tailA;
    assert s[|a|] == '\0' == s[|b|];
    assert forall i :: 0 <= i < |a| ==> s[i] == a[i];
    assert forall i :: 0 <= i < |b| ==> s[i] == b[i];
    assert s[..|a|] == a && s[..|b|] == b;
    assert s[|a| + 1..] == tailA && s[|b| + 1..] == tailB;
  }

  /** Different lists of NUL-free parts give different texts. */
  lemma {:induction false} TerminatedIsInjective(a: seq<string>, b: seq<string>)
    requires NulFree(a) && NulFree(b) && Terminated(a) == Terminated(b)
    ensures a == b
  {
    if a == [] || b == [] {
      assert |Terminated(a)| == |Terminated(b)| == 0;
    } else {
      FirstPart(a[0], b[0], Terminated(a[1..]), Terminated(b[1..]));
      TerminatedIsInjective(a[1..], b[1..]);
      assert a == [a[0]] + a[1..] && b == [b[0]] + b[1..];
    }
  }

  /** A NUL inside a part would pass for the end of one. */
  lemma NulJoinsParts(a: string, b: string)
    ensures Terminated([a + ['\0'] + b]) == Terminated([a, b]) && [a + ['\0'] + b] != [a, b]
  {
    assert Terminated([b]) == b + ['\0'];
    assert [a, b][1..] == [b];
  }
}
