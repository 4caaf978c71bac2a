/** Reading a dep file however it is laid out: any spacing, any folding of lines, either kind of line end. */
module DepLayout {
  import opened DepFile
  import opened Text

  /** A space, a tab, a line end, or a folded line. */
  predicate IsGap(piece: string) {
    piece == " " || piece == "\t" || piece == "\n" || piece == "\r" || piece == "\\\n" || piece == "\\\r\n"
  }

  predicate Gaps(pieces: seq<string>) {
    forall i :: 0 <= i < |pieces| ==> IsGap(pieces[i])
  }

  function Gapped(pieces: seq<string>): string {
    if pieces == [] then [] else pieces[0] + Gapped(pieces[1..])
  }

  /** A dependency as Make has it: a backslash before every space. */
  function Spelled(dep: string): string {
    if dep == [] then [] else (if dep[0] == ' ' then "\\ " else [dep[0]]) + Spelled(dep[1..])
  }

  /** A dependency and what stands before it. */
  datatype Item = Item(gap: seq<string>, dep: string)

  predicate Fits(item: Item) {
    item.gap != [] && Gaps(item.gap) && Listable(item.dep)
  }

  predicate AllFit(items: seq<Item>) {
    forall i :: 0 <= i < |items| ==> Fits(items[i])
  }

  function LaidOut(items: seq<Item>, end: seq<string>): string {
    if items == [] then Gapped(end) else Gapped(items[0].gap) + (Spelled(items[0].dep) + LaidOut(items[1..], end))
  }

  function Deps(items: seq<Item>): seq<string> {
    if items == [] then [] else [items[0].dep] + Deps(items[1..])
  }

  /** A target holds no colon before a space, no tab and no line end. */
  ghost predicate IsTarget(head: string) {
    Plain(head) && forall i :: 0 <= i < |head| - 1 && head[i] == ':' ==> !IsSeparator(head[i + 1])
  }

  lemma {:induction false} SpelledIsEscaped(dep: string)
    ensures Spelled(dep) == MakeEscape(dep)
  {
    if dep != [] {
      EscapeHead(dep);
      SpelledIsEscaped(dep[1..]);
    }
  }

  // ---- unfolding ----

  /** No backslash here begins the pattern. */
  ghost predicate Passes(a: string, pattern: string)
    requires |pattern| > 1
  {
    forall i :: 0 <= i < |a| && a[i] == '\\' ==> i + 1 < |a| && a[i + 1] != pattern[1]
  }

  lemma BeginsWith(s: string, pattern: string)
    requires |pattern| > 1
    ensures pattern <= s ==> |s| > 1 && s[0] == pattern[0] && s[1] == pattern[1]
  {
  }

  lemma {:induction false} PassesBy(a: string, b: string, pattern: string)
    requires |pattern| > 1 && pattern[0] == '\\' && Passes(a, pattern)
    ensures Replaced(a + b, pattern, " ") == a + Replaced(b, pattern, " ")
  {
    if a == [] {
      assert a + b == b;
    } else {
      var s := a + b;
      assert s[1..] == a[1..] + b;
      BeginsWith(s, pattern);
      PassesBy(a[1..], b, pattern);
      assert [a[0]] + (a[1..] + Replaced(b, pattern, " ")) == a + Replaced(b, pattern, " ");
    }
  }

  function Unfold(piece: string, pattern: string): string {
    if piece == pattern then " " else piece
  }

  function UnfoldAll(pieces: seq<string>, pattern: string): seq<string> {
    if pieces == [] then [] else [Unfold(pieces[0], pattern)] + UnfoldAll(pieces[1..], pattern)
  }

  predicate IsFold(pattern: string) {
    pattern == "\\\n" || pattern == "\\\r\n"
  }

  lemma PieceUnfolds(piece: string, rest: string, pattern: string)
    requires IsGap(piece) && IsFold(pattern)
    ensures Replaced(piece + rest, pattern, " ") == Unfold(piece, pattern) + Replaced(rest, pattern, " ")
    ensures IsGap(Unfold(piece, pattern))
  {
    if piece == pattern {
      var s := piece + rest;
      assert pattern <= s && s[|pattern|..] == rest;
    } else {
      PassesBy(piece, rest, pattern);
    }
  }

  lemma {:induction false} GapUnfolds(pieces: seq<string>, rest: string, pattern: string)
    requires Gaps(pieces) && IsFold(pattern)
    ensures Replaced(Gapped(pieces) + rest, pattern, " ") == Gapped(UnfoldAll(pieces, pattern)) + Replaced(rest, pattern, " ")
    ensures Gaps(UnfoldAll(pieces, pattern)) && |UnfoldAll(pieces, pattern)| == |pieces|
  {
    if pieces == [] {
      assert Gapped(pieces) + rest == rest;
    } else {
      var first, more := pieces[0], pieces[1..];
      GapUnfolds(more, rest, pattern);
      PieceUnfolds(first, Gapped(more) + rest, pattern);
      Joins(first, Gapped(more), rest);
      GappedOnce(Unfold(first, pattern), UnfoldAll(more, pattern));
      Joins(Unfold(first, pattern), Gapped(UnfoldAll(more, pattern)), Replaced(rest, pattern, " "));
    }
  }

  lemma GappedOnce(first: string, more: seq<string>)
    ensures Gapped([first] + more) == first + Gapped(more)
    ensures IsGap(first) && Gaps(more) ==> Gaps([first] + more)
  {
    assert ([first] + more)[1..] == more;
  }

  lemma Joins(a: string, b: string, c: string)
    ensures a + (b + c) == (a + b) + c
  {
  }

  function UnfoldItems(items: seq<Item>, pattern: string): seq<Item> {
    if items == [] then []
    else [items[0].(gap := UnfoldAll(items[0].gap, pattern))] + UnfoldItems(items[1..], pattern)
  }

  lemma {:induction false} SpelledPasses(dep: string, pattern: string)
    requires Listable(dep) && IsFold(pattern)
    ensures Passes(Spelled(dep), pattern)
  {
    SpelledIsEscaped(dep);
    EscapeIsSafe(dep);
    var e := Spelled(dep);
    forall i | 0 <= i < |e| && e[i] == '\\' ensures i + 1 < |e| && e[i + 1] != pattern[1] {
      if i + 1 < |e| {
        assert e[i + 1] in e;
      }
    }
  }

  lemma {:induction false} LaidOutUnfolds(items: seq<Item>, end: seq<string>, pattern: string)
    requires AllFit(items) && Gaps(end) && IsFold(pattern)
    ensures Replaced(LaidOut(items, end), pattern, " ") == LaidOut(UnfoldItems(items, pattern), UnfoldAll(end, pattern))
    ensures AllFit(UnfoldItems(items, pattern)) && Gaps(UnfoldAll(end, pattern))
    ensures Deps(UnfoldItems(items, pattern)) == Deps(items)
  {
    if items == [] {
      GapUnfolds(end, [], pattern);
      assert Gapped(end) + [] == Gapped(end);
    } else {
      var first, rest := items[0], LaidOut(items[1..], end);
      assert Fits(first);
      LaidOutUnfolds(items[1..], end, pattern);
      GapUnfolds(first.gap, Spelled(first.dep) + rest, pattern);
      SpelledPasses(first.dep, pattern);
      PassesBy(Spelled(first.dep), rest, pattern);
      var done := UnfoldItems(items, pattern);
      assert done[1..] == UnfoldItems(items[1..], pattern);
      FitOneMore(done[0], done[1..]);
    }
  }

  lemma FitOneMore(first: Item, rest: seq<Item>)
    requires Fits(first) && AllFit(rest)
    ensures AllFit([first] + rest)
  {
  }

  // ---- no fold is left ----

  predicate Flat(pieces: seq<string>) {
    forall i :: 0 <= i < |pieces| ==> |pieces[i]| == 1 && IsSeparator(pieces[i][0])
  }

  predicate AllFlat(items: seq<Item>) {
    forall i :: 0 <= i < |items| ==> Flat(items[i].gap)
  }

  lemma {:induction false} UnfoldedIsFlat(pieces: seq<string>)
    requires Gaps(pieces)
    ensures Flat(UnfoldAll(UnfoldAll(pieces, "\\\n"), "\\\r\n"))
  {
    if pieces != [] {
      UnfoldedIsFlat(pieces[1..]);
      var once := UnfoldAll(pieces, "\\\n");
      assert once[1..] == UnfoldAll(pieces[1..], "\\\n");
      OneIsFlat(pieces[0]);
    }
  }

  lemma OneIsFlat(piece: string)
    requires IsGap(piece)
    ensures var s := Unfold(Unfold(piece, "\\\n"), "\\\r\n"); |s| == 1 && IsSeparator(s[0])
  {
  }

  lemma {:induction false} UnfoldedItemsAreFlat(items: seq<Item>)
    requires AllFit(items)
    ensures AllFlat(UnfoldItems(UnfoldItems(items, "\\\n"), "\\\r\n"))
  {
    if items != [] {
      assert Fits(items[0]);
      UnfoldedIsFlat(items[0].gap);
      UnfoldedItemsAreFlat(items[1..]);
      var once := UnfoldItems(items, "\\\n");
      assert once[1..] == UnfoldItems(items[1..], "\\\n");
    }
  }

  // ---- words ----

  lemma {:induction false} GapEndsWord(pieces: seq<string>, rest: string, cur: string)
    requires Flat(pieces) && (pieces == [] ==> cur == [])
    ensures Words(Gapped(pieces) + rest, cur) == (if cur == [] then [] else [cur]) + Words(rest, [])
  {
    if pieces == [] {
      assert Gapped(pieces) + rest == rest;
    } else {
      var more := Gapped(pieces[1..]) + rest;
      GapEndsWord(pieces[1..], rest, []);
      assert Gapped(pieces) + rest == pieces[0] + more && pieces[0] == [pieces[0][0]];
      WordEnds(pieces[0][0], more, cur);
    }
  }

  lemma ItemReads(item: Item, rest: string, cur: string)
    requires Fits(item) && Flat(item.gap)
    ensures Words(Gapped(item.gap) + (Spelled(item.dep) + rest), cur) ==
            (if cur == [] then [] else [cur]) + Words(rest, item.dep)
  {
    GapEndsWord(item.gap, Spelled(item.dep) + rest, cur);
    SpelledIsEscaped(item.dep);
    WordsReadPath(item.dep, rest, []);
    assert [] + item.dep == item.dep;
  }

  lemma {:induction false} LaidOutReads(items: seq<Item>, end: seq<string>, cur: string)
    requires AllFit(items) && AllFlat(items) && Flat(end)
    ensures Words(LaidOut(items, end), cur) == (if cur == [] then [] else [cur]) + Deps(items)
  {
    if items == [] {
      assert Gapped(end) + [] == Gapped(end);
      if end == [] {
        assert LaidOut(items, end) == [];
      } else {
        GapEndsWord(end, [], cur);
      }
    } else {
      var first, rest := items[0], LaidOut(items[1..], end);
      assert Fits(first) && Flat(first.gap);
      ItemReads(first, rest, cur);
      LaidOutReads(items[1..], end, first.dep);
    }
  }

  // ---- whole files ----

  lemma HeadPasses(head: string, pattern: string)
    requires Plain(head) && IsFold(pattern)
    ensures Passes(head + ":", pattern)
  {
    var a := head + ":";
    forall i | 0 <= i < |a| && a[i] == '\\' ensures i + 1 < |a| && a[i + 1] != pattern[1] {
      assert i + 1 < |head| ==> a[i + 1] in head;
    }
  }

  lemma LaidOutBegins(items: seq<Item>, end: seq<string>)
    requires AllFit(items) && AllFlat(items) && Flat(end)
    ensures LaidOut(items, end) != [] ==> IsSeparator(LaidOut(items, end)[0])
  {
    if items != [] {
      assert Fits(items[0]) && Flat(items[0].gap);
      assert Gapped(items[0].gap)[0] == items[0].gap[0][0];
    }
  }

  lemma ColonFound(head: string, body: string)
    requires IsTarget(head) && (body != [] ==> IsSeparator(body[0]))
    ensures AfterColon((head + ":") + body) == body
  {
    var text := (head + ":") + body;
    assert text == head + (":" + body);
    if body == [] {
      NoColonBefore(head, 0);
      assert ":" + body == ":";
    } else {
      ColonEndsTarget(head, ":" + body, 0);
    }
  }

  lemma {:induction false} NoColonBefore(head: string, from: nat)
    requires IsTarget(head) && from <= |head|
    ensures ColonAt(head + ":", from) == |head|
    decreases |head| - from
  {
    var text := head + ":";
    if from < |head| {
      assert text[from] == head[from] && text[from + 1] == if from + 1 < |head| then head[from + 1] else ':';
      NoColonBefore(head, from + 1);
    }
  }

  /** However a dep file is laid out, reading it gives its dependencies in their order: between them, before them
      and after them may stand any number of spaces, tabs, line ends and folded lines of either kind. */
  lemma AnyLayoutReads(head: string, items: seq<Item>, end: seq<string>)
    requires IsTarget(head) && AllFit(items) && Gaps(end)
    ensures Parsed((head + ":") + LaidOut(items, end)) == Deps(items)
  {
    var body := LaidOut(items, end);
    HeadPasses(head, "\\\n");
    PassesBy(head + ":", body, "\\\n");
    LaidOutUnfolds(items, end, "\\\n");
    var once, ending := UnfoldItems(items, "\\\n"), UnfoldAll(end, "\\\n");
    HeadPasses(head, "\\\r\n");
    PassesBy(head + ":", LaidOut(once, ending), "\\\r\n");
    LaidOutUnfolds(once, ending, "\\\r\n");
    UnfoldedItemsAreFlat(items);
    UnfoldedIsFlat(end);
    var flat, last := UnfoldItems(once, "\\\r\n"), UnfoldAll(ending, "\\\r\n");
    LaidOutBegins(flat, last);
    ColonFound(head, LaidOut(flat, last));
    LaidOutReads(flat, last, []);
  }
}
