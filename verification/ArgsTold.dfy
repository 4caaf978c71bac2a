/** What a program learns from its command line, and that the key's words say all of it. */
module ArgsTold {
  import opened Args
  import opened Common

  /** What a program is told of a line beside the force-included texts: every argument, word by word, but those
      that say where the output and the dep file go; the path of a force-included file is blanked. An option
      that lacks its value is told as it stands. */
  function Told(arg: Arg): seq<seq<string>> {
    if arg.word == "--output-dep-file" then []
    else if arg.value.None? then [[arg.word]]
    else if arg.word == "-o" || arg.word == "--output" || arg.word == "--dep-file-path" then []
    else if arg.word == "--include" then [[arg.word, ""]]
    else [[arg.word, arg.value.value]]
  }

  function AllTold(args: seq<Arg>): seq<seq<string>> {
    if args == [] then [] else Told(args[0]) + AllTold(args[1..])
  }

  /** An option at the end of the line that lacks its value and does not enter the key. */
  function LooseEnd(argv: seq<string>): Option<string> {
    if argv == [] || Complete(argv) then None
    else
      var last := argv[|argv| - 1];
      if last == "-o" || last == "--output" || last == "--dep-file-path" || last == "--include" then Some(last) else None
  }

  function Ending(end: Option<string>): seq<seq<string>> {
    if end.Some? then [[end.value]] else []
  }

  /** The keyed arguments word by word, the identities of force-included files blanked. */
  function Blanked(args: seq<Arg>): seq<seq<string>> {
    if args == [] then [] else BlankedOne(args[0]) + Blanked(args[1..])
  }

  function BlankedOne(arg: Arg): seq<seq<string>> {
    [if arg.word == "--include" && arg.value.Some? then [arg.word, ""] else arg.Words()]
  }

  lemma {:induction false} BlankedSum(a: seq<Arg>, b: seq<Arg>)
    ensures Blanked(a + b) == Blanked(a) + Blanked(b)
  {
    if a == [] {
      assert a + b == b;
    } else {
      BlankedSum(a[1..], b);
      assert (a + b)[1..] == a[1..] + b;
      Associate(BlankedOne(a[0]), Blanked(a[1..]), Blanked(b));
    }
  }

  lemma ToldIsKeyed(arg: Arg, contentId: string -> string)
    requires arg.kind == KindOf(arg.word) && (arg.value.Some? <==> TakesValue(arg.kind))
    ensures Told(arg) == Blanked(Keyed(arg, contentId))
  {
  }

  lemma LooseIsToldOnly(arg: Arg, contentId: string -> string)
    requires arg.kind == KindOf(arg.word) && arg.value.None? && TakesValue(arg.kind)
    ensures Told(arg) ==
            Blanked(Keyed(arg, contentId)) + if arg.kind.ValueOption? then [] else [[arg.word]]
  {
  }

  lemma LoneOption(word: string)
    requires TakesValue(KindOf(word))
    ensures KindOf(word).ValueOption? <==>
            !(word == "-o" || word == "--output" || word == "--dep-file-path" || word == "--include")
  {
  }

  lemma LooseEndIs(argv: seq<string>)
    requires argv != []
    ensures var first, rest := First(argv), argv[|First(argv).Words()|..];
            LooseEnd(argv) ==
            if TakesValue(first.kind) && |argv| == 1 then (if first.kind.ValueOption? then None else Some(argv[0]))
            else LooseEnd(rest)
  {
    var first, rest := First(argv), argv[|First(argv).Words()|..];
    if TakesValue(first.kind) && |argv| == 1 {
      LoneOption(argv[0]);
      assert argv[|argv| - 1] == argv[0];
    } else {
      assert Complete(argv) <==> Complete(rest);
      assert rest != [] ==> rest[|rest| - 1] == argv[|argv| - 1];
    }
  }

  /** The words of the key say all that the program is told, but for a loose end. */
  lemma {:induction false} ToldIsBlanked(argv: seq<string>, contentId: string -> string)
    ensures AllTold(Split(argv)) == Blanked(AllKeyed(Split(argv), contentId)) + Ending(LooseEnd(argv))
  {
    if argv != [] {
      var first, rest := First(argv), argv[|First(argv).Words()|..];
      var here, more := Keyed(first, contentId), AllKeyed(Split(rest), contentId);
      ToldIsBlanked(rest, contentId);
      LooseEndIs(argv);
      BlankedSum(here, more);
      assert Split(argv)[1..] == Split(rest);
      assert AllTold(Split(argv)) == Told(first) + AllTold(Split(rest));
      if first.value.None? && TakesValue(first.kind) {
        LooseIsToldOnly(first, contentId);
        assert rest == [] && Blanked(more) == [] && AllTold(Split(rest)) == [];
      } else {
        ToldIsKeyed(first, contentId);
        Associate(Blanked(here), Blanked(more), Ending(LooseEnd(rest)));
      }
    }
  }

  /** Two lines with the same key words have the same arguments, in order, but for those that say where the
      output and the dep file go and for the paths of force-included files, if and only if they end alike: both
      with the same such option without its value, or neither with any. */
  lemma SameKeyTellsSame(a: seq<string>, b: seq<string>, idA: string -> string, idB: string -> string)
    requires Meaning(Split(a), idA).hashable == Meaning(Split(b), idB).hashable
    ensures AllTold(Split(a)) == AllTold(Split(b)) <==> LooseEnd(a) == LooseEnd(b)
  {
    SameKeySameRequest(a, b, idA, idB);
    ToldIsBlanked(a, idA);
    ToldIsBlanked(b, idB);
    var same := Blanked(AllKeyed(Split(a), idA));
    if AllTold(Split(a)) == AllTold(Split(b)) {
      assert (same + Ending(LooseEnd(a)))[|same|..] == Ending(LooseEnd(a));
      assert (same + Ending(LooseEnd(b)))[|same|..] == Ending(LooseEnd(b));
      EndingIsInjective(LooseEnd(a), LooseEnd(b));
    }
  }

  lemma EndingIsInjective(a: Option<string>, b: Option<string>)
    requires Ending(a) == Ending(b)
    ensures a == b
  {
    if a.Some? && b.Some? {
      assert Ending(a)[0][0] == Ending(b)[0][0];
    }
  }

  /** A loose end leaves the key words as they are. */
  lemma LooseEndIsNotKeyed(argv: seq<string>, end: string, contentId: string -> string)
    requires Complete(argv) && end in ["-o", "--output", "--dep-file-path", "--include"]
    ensures LooseEnd(argv + [end]) == Some(end)
    ensures var p, q := Meaning(Split(argv), contentId), Meaning(Split(argv + [end]), contentId);
            q.hashable == p.hashable && q.output == p.output && q.positionals == p.positionals && q.includes == p.includes
    ensures AllTold(Split(argv + [end])) == AllTold(Split(argv)) + [[end]]
  {
    var arg := Arg(KindOf(end), end, None);
    assert Split([end]) == [arg];
    OneMoreMeans(argv, [end], arg, contentId);
    LooseEndExtends(Meaning(Split(argv), contentId), end, contentId);
    LooseEndShows(argv, end);
    LooseEndIsTold(argv, end);
  }

  lemma LooseEndShows(argv: seq<string>, end: string)
    requires Complete(argv) && end in ["-o", "--output", "--dep-file-path", "--include"]
    ensures LooseEnd(argv + [end]) == Some(end)
  {
    NotComplete(argv, end);
  }

  lemma LooseEndIsTold(argv: seq<string>, end: string)
    requires Complete(argv) && end in ["-o", "--output", "--dep-file-path", "--include"]
    ensures AllTold(Split(argv + [end])) == AllTold(Split(argv)) + [[end]]
  {
    var arg := Arg(KindOf(end), end, None);
    assert Split([end]) == [arg];
    SplitSum(argv, [end]);
    ToldSum(Split(argv), [arg]);
    assert AllTold([arg]) == [[end]];
  }

  lemma LooseEndExtends(p: Parsed, end: string, contentId: string -> string)
    requires end in ["-o", "--output", "--dep-file-path", "--include"]
    ensures var q := Extended(p, Arg(KindOf(end), end, None), contentId);
            q.hashable == p.hashable && q.output == p.output && q.positionals == p.positionals && q.includes == p.includes
  {
    assert p.hashable + [] == p.hashable;
  }

  lemma {:induction false} NotComplete(argv: seq<string>, end: string)
    requires Complete(argv) && TakesValue(KindOf(end))
    ensures !Complete(argv + [end])
  {
    if argv == [] {
      assert argv + [end] == [end];
    } else {
      NotComplete(argv[|First(argv).Words()|..], end);
      FirstOfSum(argv, [end]);
    }
  }

  lemma {:induction false} ToldSum(a: seq<Arg>, b: seq<Arg>)
    ensures AllTold(a + b) == AllTold(a) + AllTold(b)
  {
    if a == [] {
      assert a + b == b;
    } else {
      ToldSum(a[1..], b);
      assert (a + b)[1..] == a[1..] + b;
      Associate(Told(a[0]), AllTold(a[1..]), AllTold(b));
    }
  }

  /** Asking for a dep file as well tells the program nothing else. */
  lemma RequestTellsNothingElse(argv: seq<string>, tmp: string)
    requires Complete(argv)
    ensures AllTold(Split(argv + DepRequest(tmp))) == AllTold(Split(argv)) && LooseEnd(argv + DepRequest(tmp)).None?
  {
    var flag, option := Arg(DepFileFlag, "--output-dep-file", None), Arg(DepPathOption, "--dep-file-path", Some(tmp));
    SplitSum(argv, DepRequest(tmp));
    DepRequestSplit(tmp);
    ToldSum(Split(argv), [flag] + [option]);
    assert AllTold([option]) == [];
    assert ([flag] + [option])[1..] == [option];
    RequestIsComplete(argv, tmp);
  }

  lemma {:induction false} RequestIsComplete(argv: seq<string>, tmp: string)
    requires Complete(argv)
    ensures Complete(argv + DepRequest(tmp))
  {
    if argv == [] {
      DepWords();
      assert argv + DepRequest(tmp) == DepRequest(tmp);
      assert DepRequest(tmp)[1..] == ["--dep-file-path", tmp] && ["--dep-file-path", tmp][2..] == [];
    } else {
      RequestIsComplete(argv[|First(argv).Words()|..], tmp);
      FirstOfSum(argv, DepRequest(tmp));
    }
  }

  // ---- argument by argument ----

  lemma OneMoreMeans(argv: seq<string>, more: seq<string>, arg: Arg, contentId: string -> string)
    requires Complete(argv) && Split(more) == [arg] && (arg.value.Some? ==> TakesValue(arg.kind))
    ensures Meaning(Split(argv + more), contentId) == Extended(Meaning(Split(argv), contentId), arg, contentId)
  {
    SplitSum(argv, more);
    MeaningOfMore(Split(argv), arg, contentId);
  }

  /** What an option with its value adds to a complete line. */
  lemma OptionMeans(argv: seq<string>, word: string, value: string, contentId: string -> string)
    requires Complete(argv)
    ensures var p, q := Meaning(Split(argv), contentId), Meaning(Split(argv + [word, value]), contentId);
            && (word in ["-o", "--output"] ==> q == p.(output := Some(value)))
            && (word == "--dep-file-path" ==> q == p.(wantsDep := true, depPath := Some(value)))
            && (word == "--include" ==>
                  q == p.(includes := p.includes + [value], hashable := p.hashable + [word, contentId(value)]))
            && (word in ["--dep-file-rule-name", "-F", "-M", "--collect-json", "-b", "-f", "-p", "-n",
                         "--compiler-flavor", "-t", "-A", "--json-output"] ==>
                  q == p.(hashable := p.hashable + [word, value]))
  {
    if TakesValue(KindOf(word)) {
      OptionSplit(word, value, []);
      assert [word, value] + [] == [word, value];
      OneMoreMeans(argv, [word, value], Arg(KindOf(word), word, Some(value)), contentId);
      OptionExtends(Meaning(Split(argv), contentId), word, value, contentId);
    } else {
      OthersTakeNone(word);
    }
  }

  /** These sixteen words take the one after them for their value, and no other does. */
  lemma ValueOptionsAre(word: string)
    ensures TakesValue(KindOf(word)) <==>
            word in ["-o", "--output", "--dep-file-path", "--include", "--dep-file-rule-name", "-F", "-M", "--collect-json",
                     "-b", "-f", "-p", "-n", "--compiler-flavor", "-t", "-A", "--json-output"]
  {
  }

  lemma OthersTakeNone(word: string)
    requires !TakesValue(KindOf(word))
    ensures word !in ["-o", "--output"] && word != "--dep-file-path" && word != "--include"
    ensures word !in ["--dep-file-rule-name", "-F", "-M", "--collect-json", "-b", "-f", "-p", "-n",
                      "--compiler-flavor", "-t", "-A", "--json-output"]
  {
  }

  lemma OptionExtends(p: Parsed, word: string, value: string, contentId: string -> string)
    requires TakesValue(KindOf(word))
    ensures var q := Extended(p, Arg(KindOf(word), word, Some(value)), contentId);
            && (word in ["-o", "--output"] ==> q == p.(output := Some(value)))
            && (word == "--dep-file-path" ==> q == p.(wantsDep := true, depPath := Some(value)))
            && (word == "--include" ==>
                  q == p.(includes := p.includes + [value], hashable := p.hashable + [word, contentId(value)]))
            && (word in ["--dep-file-rule-name", "-F", "-M", "--collect-json", "-b", "-f", "-p", "-n",
                         "--compiler-flavor", "-t", "-A", "--json-output"] ==>
                  q == p.(hashable := p.hashable + [word, value]))
  {
    assert p.hashable + [] == p.hashable;
    assert [word] + [value] == [word, value] && [word] + [contentId(value)] == [word, contentId(value)];
  }

  /** What a single word adds to a complete line: the three wishes, any other flag, or a file. */
  lemma WordMeans(argv: seq<string>, word: string, contentId: string -> string)
    requires Complete(argv) && !TakesValue(KindOf(word))
    ensures var p, q := Meaning(Split(argv), contentId), Meaning(Split(argv + [word]), contentId);
            if word == "--output-dep-file" then q == p.(wantsDep := true)
            else if word == "--output-json" then q == p.(wantsJson := true, hashable := p.hashable + [word])
            else if word != "" && word[0] == '-' && word != "-" then q == p.(hashable := p.hashable + [word])
            else q == p.(positionals := p.positionals + [word], hashable := p.hashable + [word])
                 && q.Input() == Some(word)
  {
    var p, arg := Meaning(Split(argv), contentId), Arg(KindOf(word), word, None);
    assert Split([word]) == [arg];
    OneMoreMeans(argv, [word], arg, contentId);
    WordExtends(p, word, contentId);
  }

  lemma WordExtends(p: Parsed, word: string, contentId: string -> string)
    requires !TakesValue(KindOf(word))
    ensures var q := Extended(p, Arg(KindOf(word), word, None), contentId);
            if word == "--output-dep-file" then q == p.(wantsDep := true)
            else if word == "--output-json" then q == p.(wantsJson := true, hashable := p.hashable + [word])
            else if word != "" && word[0] == '-' && word != "-" then q == p.(hashable := p.hashable + [word])
            else q == p.(positionals := p.positionals + [word], hashable := p.hashable + [word])
                 && q.Input() == Some(word)
  {
    assert p.hashable + [] == p.hashable && [word] + [] == [word];
  }
}
