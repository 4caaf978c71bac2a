/** Make-style dependency files: what is written for a list of dependencies, and reading it back. */
module DepFile {
  import opened Text

  predicate IsSeparator(c: char) {
    c == ' ' || c == '\t' || c == '\n' || c == '\r'
  }

  // ---- writing ----

  /** Spaces are the only characters a path has escaped. */
  function MakeEscape(path: string): string {
    Replaced(path, " ", "\\ ")
  }

  function Escaped(deps: seq<string>): seq<string> {
    seq(|deps|, i requires 0 <= i < |deps| => MakeEscape(deps[i]))
  }

  function Written(target: string, deps: seq<string>): string {
    MakeEscape(target) + ": \\\n  " + (Joined(Escaped(deps), " \\\n  ") + "\n")
  }

  // ---- reading ----

  function Unfolded(text: string): string {
    Replaced(Replaced(text, "\\\n", " "), "\\\r\n", " ")
  }

  /** The colon that ends the target: the first one followed by a separator or by nothing. */
  function ColonAt(text: string, from: nat): (at: int)
    requires from <= |text|
    ensures at == -1 || from <= at < |text|
    decreases |text| - from
  {
    if from == |text| then -1
    else if text[from] == ':' && (from + 1 >= |text| || IsSeparator(text[from + 1])) then from
    else ColonAt(text, from + 1)
  }

  function AfterColon(text: string): string {
    var colon := ColonAt(text, 0);
    if colon >= 0 then text[colon + 1..] else text
  }

  /** The words of `s`, the first of which is already begun with `cur`; an escaped space ends no word. */
  function Words(s: string, cur: string): seq<string> {
    if s == [] then if cur == [] then [] else [cur]
    else if s[0] == '\\' && |s| > 1 && s[1] == ' ' then Words(s[2..], cur + " ")
    else if IsSeparator(s[0]) then (if cur == [] then [] else [cur]) + Words(s[1..], [])
    else Words(s[1..], cur + [s[0]])
  }

  function Parsed(text: string): seq<string> {
    Words(AfterColon(Unfolded(text)), [])
  }

  method ParseDepFile(input: string) returns (deps: seq<string>)
    ensures deps == Parsed(input)
  {
    var text := Unfolded(input);
    var colon := -1;
    var i := 0;
    while i < |text|
      invariant 0 <= i <= |text|
      invariant colon == -1 && ColonAt(text, i) == ColonAt(text, 0)
    {
      if text[i] == ':' && (i + 1 >= |text| || IsSeparator(text[i + 1])) {
        colon := i;
        break;
      }
      i := i + 1;
    }
    var depsPart := if colon >= 0 then text[colon + 1..] else text;
    deps := SplitWords(depsPart);
  }

  method SplitWords(s: string) returns (deps: seq<string>)
    ensures deps == Words(s, [])
  {
    deps := [];
    var cur := "";
    var j := 0;
    while j < |s|
      invariant 0 <= j <= |s|
      invariant deps + Words(s[j..], cur) == Words(s, [])
    {
      var c := s[j];
      if c == '\\' && j + 1 < |s| && s[j + 1] == ' ' {
        cur := cur + " ";
        assert s[j..][2..] == s[j + 2..];
        j := j + 2;
        continue;
      }
      assert s[j..][1..] == s[j + 1..];
      if IsSeparator(c) {
        if cur != "" {
          deps := deps + [cur];
          cur := "";
        }
      } else {
        cur := cur + [c];
      }
      j := j + 1;
    }
    if cur != "" {
      deps := deps + [cur];
    }
  }

  // ---- the round trip ----

  /** Free of the characters that end a line or separate words and cannot be escaped. */
  predicate Plain(path: string) {
    Free(path, '\t') && Free(path, '\n') && Free(path, '\r')
  }

  predicate Listable(dep: string) {
    Plain(dep) && dep != [] && dep[|dep| - 1] != '\\'
  }

  lemma EscapeHead(path: string)
    requires path != []
    ensures MakeEscape(path) == (if path[0] == ' ' then "\\ " else [path[0]]) + MakeEscape(path[1..])
  {
  }

  /** Escaping leaves no space unguarded, no separator that was not there, and no colon before a space. */
  lemma {:induction false} EscapeIsSafe(path: string)
    requires Plain(path)
    ensures var e := MakeEscape(path);
            && Plain(e) && (e != [] ==> e[0] != ' ') && (path != [] <==> e != [])
            && (path != [] ==> (e[|e| - 1] == '\\' <==> path[|path| - 1] == '\\'))
            && forall i :: 0 <= i < |e| - 1 && e[i] == ':' ==> !IsSeparator(e[i + 1])
  {
    if path != [] {
      EscapeHead(path);
      EscapeIsSafe(path[1..]);
      var e, tail := MakeEscape(path), MakeEscape(path[1..]);
      var head := if path[0] == ' ' then "\\ " else [path[0]];
      assert e == head + tail;
      if tail == [] {
        assert path[1..] == [];
      } else {
        assert e[|e| - 1] == tail[|tail| - 1];
      }
      forall i | 0 <= i < |e| - 1 && e[i] == ':' ensures !IsSeparator(e[i + 1]) {
        if i >= |head| {
          assert e[i] == tail[i - |head|] && e[i + 1] == tail[i - |head| + 1];
        } else {
          assert i == 0 && |head| == 1 && e[1] == tail[0];
        }
      }
    }
  }

  lemma ContinuationStarts(s: string)
    ensures "\\\n" <= s <==> |s| > 1 && s[0] == '\\' && s[1] == '\n'
  {
  }

  lemma NoContinuation(a: string, b: string)
    requires a != [] && Free(a, '\n') && (a[|a| - 1] != '\\' || b == [] || b[0] != '\n')
    ensures !("\\\n" <= a + b)
  {
    var s := a + b;
    if |s| > 1 {
      assert s[1] == if |a| > 1 then a[1] else b[0];
      assert |a| > 1 ==> a[1] in a;
    }
    ContinuationStarts(s);
  }

  /** Text without a line end passes through unfolding, unless it ends in the backslash of one. */
  lemma {:induction false} PassesThrough(a: string, b: string)
    requires Free(a, '\n')
    requires a == [] || a[|a| - 1] != '\\' || b == [] || b[0] != '\n'
    ensures Replaced(a + b, "\\\n", " ") == a + Replaced(b, "\\\n", " ")
  {
    if a == [] {
      assert a + b == b;
    } else {
      var s, pattern := a + b, "\\\n";
      assert s[1..] == a[1..] + b;
      NoContinuation(a, b);
      PassesThrough(a[1..], b);
      assert Replaced(s, pattern, " ") == [s[0]] + Replaced(s[1..], pattern, " ");
      assert [a[0]] + (a[1..] + Replaced(b, pattern, " ")) == a + Replaced(b, pattern, " ");
    }
  }

  lemma ContinuationIsSpace(b: string)
    ensures Replaced("\\\n" + b, "\\\n", " ") == " " + Replaced(b, "\\\n", " ")
  {
    var s := "\\\n" + b;
    assert "\\\n" <= s && s[2..] == b;
  }

  /** The dependencies one after another, each followed by spaces or, at the end, by the line end. */
  function Laid(deps: seq<string>): string {
    if deps == [] then "\n"
    else if |deps| == 1 then MakeEscape(deps[0]) + "\n"
    else MakeEscape(deps[0]) + ("    " + Laid(deps[1..]))
  }

  lemma {:induction false} BodyUnfolds(deps: seq<string>)
    requires forall i :: 0 <= i < |deps| ==> Listable(deps[i])
    ensures Replaced(Joined(Escaped(deps), " \\\n  ") + "\n", "\\\n", " ") == Laid(deps)
  {
    if deps == [] {
      PassesThrough([], "\n");
      LineEndStays();
      assert Joined(Escaped(deps), " \\\n  ") + "\n" == "\n";
    } else {
      EscapeIsSafe(deps[0]);
      var e, rest := MakeEscape(deps[0]), Escaped(deps[1..]);
      if |deps| == 1 {
        assert Joined(Escaped(deps), " \\\n  ") == e;
        PassesThrough(e, "\n");
        LineEndStays();
      } else {
        assert Escaped(deps)[1..] == rest;
        var tail := Joined(rest, " \\\n  ") + "\n";
        assert Joined(Escaped(deps), " \\\n  ") + "\n" == e + (" " + ("\\\n" + ("  " + tail)));
        BodyUnfolds(deps[1..]);
        StepUnfolds(e, tail, Laid(deps[1..]));
      }
    }
  }

  lemma StepUnfolds(e: string, tail: string, unfolded: string)
    requires Free(e, '\n') && (e == [] || e[|e| - 1] != '\\')
    requires Replaced(tail, "\\\n", " ") == unfolded
    ensures Replaced(e + (" " + ("\\\n" + ("  " + tail))), "\\\n", " ") == e + ("    " + unfolded)
  {
    PassesThrough(e, " " + ("\\\n" + ("  " + tail)));
    PassesThrough(" ", "\\\n" + ("  " + tail));
    ContinuationIsSpace("  " + tail);
    PassesThrough("  ", tail);
    assert " " + (" " + ("  " + unfolded)) == "    " + unfolded;
  }

  lemma LineEndStays()
    ensures Replaced("\n", "\\\n", " ") == "\n"
  {
    assert "\n"[1..] == "";
  }

  lemma {:induction false} LaidHasNoReturn(deps: seq<string>)
    requires forall i :: 0 <= i < |deps| ==> Listable(deps[i])
    ensures Free(Laid(deps), '\r')
  {
    if deps != [] {
      EscapeIsSafe(deps[0]);
      LaidHasNoReturn(deps[1..]);
    }
  }

  /** The head of the file: the target, its colon, and the first continuation. */
  lemma HeadUnfolds(e: string, body: string)
    requires Free(e, '\n')
    ensures Replaced((e + ": ") + ("\\\n" + ("  " + body)), "\\\n", " ") ==
            (e + ": ") + (" " + ("  " + Replaced(body, "\\\n", " ")))
  {
    PassesThrough(e + ": ", "\\\n" + ("  " + body));
    ContinuationIsSpace("  " + body);
    PassesThrough("  ", body);
  }

  lemma Reassociated(e: string, body: string)
    ensures e + ": \\\n  " + body == (e + ": ") + ("\\\n" + ("  " + body))
    ensures (e + ": ") + (" " + ("  " + body)) == e + (":    " + body)
  {
  }

  /** A whole file is unfolded once its body is. */
  lemma FileUnfolds(e: string, body: string, unfolded: string)
    requires Plain(e) && Free(unfolded, '\r')
    requires Replaced(body, "\\\n", " ") == unfolded
    ensures Unfolded(e + ": \\\n  " + body) == e + (":    " + unfolded)
  {
    HeadUnfolds(e, body);
    Reassociated(e, body);
    Reassociated(e, unfolded);
    NothingToReplace(e + (":    " + unfolded), "\\\r\n", " ", '\r');
  }

  lemma WrittenUnfolds(target: string, deps: seq<string>)
    requires Plain(target) && forall i :: 0 <= i < |deps| ==> Listable(deps[i])
    ensures Unfolded(Written(target, deps)) == MakeEscape(target) + (":    " + Laid(deps))
  {
    var e, joined := MakeEscape(target), Joined(Escaped(deps), " \\\n  ");
    EscapeIsSafe(target);
    BodyUnfolds(deps);
    LaidHasNoReturn(deps);
    FileUnfolds(e, joined + "\n", Laid(deps));
  }

  /** The target's own colons are all followed by something else than a separator. */
  lemma {:induction false} ColonEndsTarget(e: string, rest: string, from: nat)
    requires from <= |e|
    requires forall i :: 0 <= i < |e| - 1 && e[i] == ':' ==> !IsSeparator(e[i + 1])
    requires |rest| > 1 && rest[0] == ':' && IsSeparator(rest[1])
    ensures ColonAt(e + rest, from) == |e|
    decreases |e| - from
  {
    var text := e + rest;
    if from < |e| {
      assert text[from] == e[from] && text[from + 1] == if from + 1 < |e| then e[from + 1] else rest[0];
      ColonEndsTarget(e, rest, from + 1);
    } else {
      assert text[from] == rest[0] && text[from + 1] == rest[1];
    }
  }

  lemma WordTakes(c: char, tail: string, cur: string)
    requires !IsSeparator(c) && !(c == '\\' && tail != [] && tail[0] == ' ')
    ensures Words([c] + tail, cur) == Words(tail, cur + [c])
  {
    var s := [c] + tail;
    assert s[1..] == tail;
    assert |s| > 1 ==> s[1] == tail[0];
  }

  lemma WordTakesSpace(tail: string, cur: string)
    ensures Words("\\ " + tail, cur) == Words(tail, cur + " ")
  {
    assert ("\\ " + tail)[2..] == tail;
  }

  /** Reading an escaped path adds exactly the path to the word begun, whatever separator follows. */
  lemma {:induction false} WordsReadPath(path: string, rest: string, cur: string)
    requires Plain(path)
    requires path == [] || path[|path| - 1] != '\\' || rest == [] || rest[0] != ' '
    ensures Words(MakeEscape(path) + rest, cur) == Words(rest, cur + path)
  {
    if path == [] {
      assert MakeEscape(path) + rest == rest && cur + path == cur;
    } else {
      EscapeHead(path);
      EscapeIsSafe(path[1..]);
      var tail := MakeEscape(path[1..]) + rest;
      WordsReadPath(path[1..], rest, cur + [path[0]]);
      assert cur + [path[0]] + path[1..] == cur + path;
      if path[0] == ' ' {
        assert MakeEscape(path) + rest == "\\ " + tail;
        WordTakesSpace(tail, cur);
      } else {
        assert MakeEscape(path) + rest == [path[0]] + tail;
        WordTakes(path[0], tail, cur);
      }
    }
  }

  lemma WordEnds(c: char, rest: string, cur: string)
    requires IsSeparator(c)
    ensures Words([c] + rest, cur) == (if cur == [] then [] else [cur]) + Words(rest, [])
  {
    assert ([c] + rest)[1..] == rest;
  }

  lemma FourSpacesEndWord(rest: string, cur: string)
    ensures Words("    " + rest, cur) == (if cur == [] then [] else [cur]) + Words(rest, [])
  {
    WordEnds(' ', rest, []);
    WordEnds(' ', " " + rest, []);
    WordEnds(' ', "  " + rest, []);
    WordEnds(' ', "   " + rest, cur);
    assert [' '] + rest == " " + rest && [' '] + (" " + rest) == "  " + rest;
    assert [' '] + ("  " + rest) == "   " + rest && [' '] + ("   " + rest) == "    " + rest;
  }

  lemma LastWord(dep: string, end: char)
    requires Listable(dep) && IsSeparator(end)
    ensures Words(MakeEscape(dep) + [end], []) == [dep]
  {
    WordsReadPath(dep, [end], []);
    WordEnds(end, [], dep);
    assert [end] + [] == [end] && [] + dep == dep;
  }

  lemma NextWord(dep: string, rest: string)
    requires Listable(dep)
    ensures Words(MakeEscape(dep) + ("    " + rest), []) == [dep] + Words(rest, [])
  {
    WordsReadPath(dep, "    " + rest, []);
    FourSpacesEndWord(rest, dep);
    assert [] + dep == dep;
  }

  lemma {:induction false} WordsReadList(deps: seq<string>)
    requires forall i :: 0 <= i < |deps| ==> Listable(deps[i])
    ensures Words(Laid(deps), []) == deps
  {
    if deps == [] {
      WordEnds('\n', [], []);
      assert ['\n'] + [] == "\n";
    } else if |deps| == 1 {
      LastWord(deps[0], '\n');
    } else {
      WordsReadList(deps[1..]);
      NextWord(deps[0], Laid(deps[1..]));
      assert Laid(deps) == MakeEscape(deps[0]) + ("    " + Laid(deps[1..]));
    }
  }

  /** Whatever words follow the target are found. */
  lemma AfterTarget(target: string, words: string)
    requires Plain(target)
    ensures AfterColon(MakeEscape(target) + (":    " + words)) == "    " + words
  {
    EscapeIsSafe(target);
    ColonEndsTarget(MakeEscape(target), ":    " + words, 0);
  }

  /**
   Round trip: reading back what was written for any target and any dependencies gives the same
   dependencies in the same order, as long as no dependency is empty or ends in a backslash and neither
   they nor the target hold a tab or a line end. Spaces, colons and inner backslashes all survive.
   */
  lemma RoundTrip(target: string, deps: seq<string>)
    requires Plain(target) && forall i :: 0 <= i < |deps| ==> Listable(deps[i])
    ensures Parsed(Written(target, deps)) == deps
  {
    WrittenUnfolds(target, deps);
    AfterTarget(target, Laid(deps));
    FourSpacesEndWord(Laid(deps), []);
    WordsReadList(deps);
  }

  /** What a reader can return at all: words that are not empty and hold no tab or line end. */
  lemma {:induction false} WordsAreClean(s: string, cur: string, i: nat)
    requires Plain(cur) && i < |Words(s, cur)|
    ensures Words(s, cur)[i] != [] && Plain(Words(s, cur)[i])
    decreases |s|
  {
    if s != [] {
      if s[0] == '\\' && |s| > 1 && s[1] == ' ' {
        WordsAreClean(s[2..], cur + " ", i);
      } else if IsSeparator(s[0]) {
        if cur == [] {
          WordsAreClean(s[1..], [], i);
        } else if i > 0 {
          WordsAreClean(s[1..], [], i - 1);
        }
      } else {
        WordsAreClean(s[1..], cur + [s[0]], i);
      }
    }
  }

  /** So the condition is needed: a list with an empty dependency, or one holding a tab or a line end,
      never comes back. */
  lemma UncleanIsNotReturned(target: string, deps: seq<string>, i: nat)
    requires i < |deps| && (deps[i] == [] || !Plain(deps[i]))
    ensures Parsed(Written(target, deps)) != deps
  {
    var s := AfterColon(Unfolded(Written(target, deps)));
    if i < |Words(s, [])| {
      WordsAreClean(s, [], i);
    }
  }

  /** And a trailing backslash is read as the start of a line continuation: it is dropped. */
  lemma TrailingBackslashIsLost(target: string, dep: string)
    requires Plain(target) && Listable(dep)
    ensures Parsed(Written(target, [dep + "\\"])) == [dep]
  {
    var e, d := MakeEscape(target), MakeEscape(dep);
    EscapeIsSafe(target);
    EscapeIsSafe(dep);
    EscapeLast(dep);
    PassesThrough(d, "\\\n" + []);
    ContinuationIsSpace([]);
    var body := Joined([d + "\\"], " \\\n  ") + "\n";
    assert body == d + ("\\\n" + []) && " " + [] == " ";
    FileUnfolds(e, body, d + " ");
    assert Escaped([dep + "\\"]) == [d + "\\"];
    AfterTarget(target, d + " ");
    FourSpacesEndWord(d + " ", []);
    LastWord(dep, ' ');
  }

  lemma {:induction false} EscapeLast(dep: string)
    ensures MakeEscape(dep + "\\") == MakeEscape(dep) + "\\"
  {
    var s := dep + "\\";
    if dep == [] {
      assert s == "\\";
      EscapeHead(s);
      assert s[1..] == [];
    } else {
      EscapeHead(s);
      EscapeHead(dep);
      assert s[1..] == dep[1..] + "\\";
      EscapeLast(dep[1..]);
    }
  }

  // ---- exactly which lists come back ----

  /** No backslash stands at the end, or before a separator other than a space. */
  ghost predicate Settled(s: string) {
    forall i :: 0 <= i < |s| && s[i] == '\\' ==> i + 1 < |s| && (IsSeparator(s[i + 1]) ==> s[i + 1] == ' ')
  }

  lemma {:induction false} JoinedStaysFree(parts: seq<string>, separator: string, c: char)
    requires Free(separator, c) && forall i :: 0 <= i < |parts| ==> Free(parts[i], c)
    ensures Free(Joined(parts, separator), c)
  {
    if |parts| > 1 {
      JoinedStaysFree(parts[1..], separator, c);
    }
  }

  lemma WrittenStaysFree(target: string, deps: seq<string>, c: char)
    requires c == '\t' || c == '\r'
    requires Plain(target) && forall i :: 0 <= i < |deps| ==> Plain(deps[i])
    ensures Free(Written(target, deps), c)
  {
    EscapeIsSafe(target);
    forall i | 0 <= i < |deps| ensures Free(Escaped(deps)[i], c) {
      EscapeIsSafe(deps[i]);
    }
    JoinedStaysFree(Escaped(deps), " \\\n  ", c);
  }

  /** Unfolding continuation lines leaves no backslash before a line end. */
  lemma {:induction false} UnfoldingSettles(s: string)
    requires Free(s, '\t') && Free(s, '\r') && (s == [] || s[|s| - 1] == '\n')
    ensures var r := Replaced(s, "\\\n", " "); Settled(r) && Free(r, '\r')
  {
    if s == [] {
    } else if "\\\n" <= s {
      UnfoldingSettles(s[2..]);
    } else {
      UnfoldingSettles(s[1..]);
      var rest := Replaced(s[1..], "\\\n", " ");
      ContinuationStarts(s);
      assert s[0] == '\\' ==> rest != [] && (rest[0] == ' ' || rest[0] == s[1]);
      assert Replaced(s, "\\\n", " ") == [s[0]] + rest;
    }
  }

  lemma WrittenSettles(target: string, deps: seq<string>)
    requires Plain(target) && forall i :: 0 <= i < |deps| ==> Plain(deps[i])
    ensures Settled(AfterColon(Unfolded(Written(target, deps))))
  {
    var text := Written(target, deps);
    WrittenStaysFree(target, deps, '\t');
    WrittenStaysFree(target, deps, '\r');
    UnfoldingSettles(text);
    var once := Replaced(text, "\\\n", " ");
    NothingToReplace(once, "\\\r\n", " ", '\r');
  }

  ghost predicate EndsInBackslash(s: string) {
    s != [] && s[|s| - 1] == '\\'
  }

  lemma {:induction false} WordsAreSettled(s: string, cur: string, i: nat)
    requires Settled(s) && i < |Words(s, cur)|
    requires EndsInBackslash(cur) ==> s != [] && !IsSeparator(s[0])
    ensures !EndsInBackslash(Words(s, cur)[i])
    decreases |s|
  {
    if s != [] {
      if s[0] == '\\' && |s| > 1 && s[1] == ' ' {
        WordsAreSettled(s[2..], cur + " ", i);
      } else if IsSeparator(s[0]) {
        if cur == [] {
          WordsAreSettled(s[1..], [], i);
        } else if i > 0 {
          WordsAreSettled(s[1..], [], i - 1);
        }
      } else {
        WordsAreSettled(s[1..], cur + [s[0]], i);
      }
    }
  }

  /** For every target without tabs and line ends, the dependencies come back exactly if each of them is
      non-empty, holds no tab or line end, and does not end in a backslash. */
  lemma RoundTripExactly(target: string, deps: seq<string>)
    requires Plain(target)
    ensures Parsed(Written(target, deps)) == deps <==> forall i :: 0 <= i < |deps| ==> Listable(deps[i])
  {
    if i :| 0 <= i < |deps| && (deps[i] == [] || !Plain(deps[i])) {
      UncleanIsNotReturned(target, deps, i);
    } else if i :| 0 <= i < |deps| && !Listable(deps[i]) {
      WrittenSettles(target, deps);
      var s := AfterColon(Unfolded(Written(target, deps)));
      if i < |Words(s, [])| {
        WordsAreSettled(s, [], i);
      }
    } else {
      RoundTrip(target, deps);
    }
  }
}
