/** Reading moc's command line: which arguments enter the cache key and which do not. */
module Args {
  import opened Common

  datatype Kind = OutputOption | DepFileFlag | JsonFlag | DepPathOption | IncludeOption | ValueOption | OtherFlag | Positional

  /** Options whose value is the following argument. */
  predicate IsValueOption(word: string) {
    word in ["-o", "--include", "--dep-file-path", "--dep-file-rule-name", "-F", "-M", "--collect-json", "-b",
             "-f", "-p", "-n", "--compiler-flavor", "-t", "-A", "--json-output"]
  }

  function KindOf(word: string): Kind {
    if word == "-o" || word == "--output" then OutputOption
    else if word == "--output-dep-file" then DepFileFlag
    else if word == "--output-json" then JsonFlag
    else if word == "--dep-file-path" then DepPathOption
    else if word == "--include" then IncludeOption
    else if IsValueOption(word) then ValueOption
    else if word != "" && word[0] == '-' && word != "-" then OtherFlag
    else Positional
  }

  predicate TakesValue(kind: Kind) {
    kind.OutputOption? || kind.DepPathOption? || kind.IncludeOption? || kind.ValueOption?
  }

  /** One argument as moc reads it; an option at the very end of the line may lack its value. */
  datatype Arg = Arg(kind: Kind, word: string, value: Option<string>) {
    function Words(): seq<string> {
      if value.Some? then [word, value.value] else [word]
    }
  }

  function First(argv: seq<string>): Arg
    requires argv != []
  {
    var kind := KindOf(argv[0]);
    Arg(kind, argv[0], if TakesValue(kind) && |argv| > 1 then Some(argv[1]) else None)
  }

  function Split(argv: seq<string>): seq<Arg> {
    if argv == [] then [] else [First(argv)] + Split(argv[|First(argv).Words()|..])
  }

  function Flatten(args: seq<Arg>): seq<string> {
    if args == [] then [] else args[0].Words() + Flatten(args[1..])
  }

  /** Argument lists that a command line can stand for. */
  predicate Readable(args: seq<Arg>) {
    args != [] ==>
    && args[0].kind == KindOf(args[0].word)
    && (args[0].value.Some? ==> TakesValue(args[0].kind))
    && (args[0].value.None? && TakesValue(args[0].kind) ==> |args| == 1)
    && Readable(args[1..])
  }

  // ---- what the key covers ----

  /** What moc's result may depend on: the output and dep-file paths are left out, and a force-included
      file stands by the identity of its content. */
  function Keyed(arg: Arg, contentId: string -> string): seq<Arg> {
    match arg.kind
    case OutputOption | DepFileFlag | DepPathOption => []
    case IncludeOption => if arg.value.Some? then [arg.(value := Some(contentId(arg.value.value)))] else []
    case _ => [arg]
  }

  function AllKeyed(args: seq<Arg>, contentId: string -> string): seq<Arg> {
    if args == [] then [] else Keyed(args[0], contentId) + AllKeyed(args[1..], contentId)
  }

  // ---- what else the line says ----

  function Values(args: seq<Arg>, kind: Kind): seq<string> {
    if args == [] then []
    else (if args[0].kind == kind && args[0].value.Some? then [args[0].value.value] else []) + Values(args[1..], kind)
  }

  function Positionals(args: seq<Arg>): seq<string> {
    if args == [] then []
    else (if args[0].kind.Positional? then [args[0].word] else []) + Positionals(args[1..])
  }

  predicate Has(args: seq<Arg>, kind: Kind) {
    args != [] && (args[0].kind == kind || Has(args[1..], kind))
  }

  function LastOf(s: seq<string>): Option<string> {
    if s == [] then None else Some(s[|s| - 1])
  }

  datatype Parsed = Parsed(output: Option<string>, depPath: Option<string>, wantsDep: bool, wantsJson: bool,
                           hashable: seq<string>, positionals: seq<string>, includes: seq<string>)
  {
    /** The input file is the last positional argument. */
    function Input(): Option<string> { LastOf(positionals) }
  }

  function Meaning(args: seq<Arg>, contentId: string -> string): Parsed {
    Parsed(LastOf(Values(args, OutputOption)), LastOf(Values(args, DepPathOption)),
           Has(args, DepFileFlag) || Has(args, DepPathOption), Has(args, JsonFlag),
           Flatten(AllKeyed(args, contentId)), Positionals(args), Values(args, IncludeOption))
  }

  // ---- appending one argument ----

  /** What is left to read from position `i`; an option that lacks its value steps past the end. */
  function Left(argv: seq<string>, i: nat): seq<string> {
    if i < |argv| then argv[i..] else []
  }

  predicate ReadUpTo(argv: seq<string>, i: nat, done: seq<Arg>) {
    done + Split(Left(argv, i)) == Split(argv)
  }

  lemma SplitFirst(argv: seq<string>, i: nat)
    requires i < |argv|
    ensures var arg := First(argv[i..]);
            Split(Left(argv, i)) == [arg] + Split(Left(argv, if TakesValue(arg.kind) then i + 2 else i + 1))
  {
    var arg := First(argv[i..]);
    var n := |arg.Words()|;
    assert argv[i..][n..] == Left(argv, if TakesValue(arg.kind) then i + 2 else i + 1);
  }

  lemma SplitNext(argv: seq<string>, i: nat, done: seq<Arg>)
    requires i < |argv| && ReadUpTo(argv, i, done)
    ensures var arg := First(argv[i..]);
            ReadUpTo(argv, if TakesValue(arg.kind) then i + 2 else i + 1, done + [arg])
  {
    SplitFirst(argv, i);
    var arg := First(argv[i..]);
    var rest := Split(Left(argv, if TakesValue(arg.kind) then i + 2 else i + 1));
    assert done + ([arg] + rest) == done + [arg] + rest;
  }

  function Extended(p: Parsed, arg: Arg, contentId: string -> string): Parsed {
    var q := p.(hashable := p.hashable + Hashed(arg, contentId));
    match arg.kind
    case OutputOption => if arg.value.Some? then q.(output := arg.value) else q
    case DepFileFlag => q.(wantsDep := true)
    case JsonFlag => q.(wantsJson := true)
    case DepPathOption => q.(wantsDep := true, depPath := if arg.value.Some? then arg.value else p.depPath)
    case IncludeOption => if arg.value.Some? then q.(includes := p.includes + [arg.value.value]) else q
    case Positional => q.(positionals := p.positionals + [arg.word])
    case _ => q
  }

  lemma {:induction false} ValuesOfMore(done: seq<Arg>, arg: Arg, kind: Kind)
    ensures Values(done + [arg], kind) ==
            Values(done, kind) + (if arg.kind == kind && arg.value.Some? then [arg.value.value] else [])
  {
    if done != [] {
      ValuesOfMore(done[1..], arg, kind);
      assert (done + [arg])[1..] == done[1..] + [arg];
    }
  }

  lemma LastValueOfMore(done: seq<Arg>, arg: Arg, kind: Kind)
    ensures LastOf(Values(done + [arg], kind)) ==
            if arg.kind == kind && arg.value.Some? then arg.value else LastOf(Values(done, kind))
  {
    ValuesOfMore(done, arg, kind);
  }

  lemma {:induction false} HasMore(done: seq<Arg>, arg: Arg, kind: Kind)
    ensures Has(done + [arg], kind) <==> Has(done, kind) || arg.kind == kind
  {
    if done != [] {
      HasMore(done[1..], arg, kind);
      assert (done + [arg])[1..] == done[1..] + [arg];
    }
  }

  lemma {:induction false} PositionalsOfMore(done: seq<Arg>, arg: Arg)
    ensures Positionals(done + [arg]) == Positionals(done) + (if arg.kind.Positional? then [arg.word] else [])
  {
    if done != [] {
      PositionalsOfMore(done[1..], arg);
      assert (done + [arg])[1..] == done[1..] + [arg];
    }
  }

  lemma {:induction false} KeyedOfMore(done: seq<Arg>, arg: Arg, contentId: string -> string)
    ensures AllKeyed(done + [arg], contentId) == AllKeyed(done, contentId) + Keyed(arg, contentId)
  {
    if done == [] {
      assert Keyed(arg, contentId) + [] == Keyed(arg, contentId);
    } else {
      KeyedOfMore(done[1..], arg, contentId);
      assert (done + [arg])[1..] == done[1..] + [arg];
    }
  }

  lemma MeaningOfMore(done: seq<Arg>, arg: Arg, contentId: string -> string)
    requires arg.value.Some? ==> TakesValue(arg.kind)
    ensures Meaning(done + [arg], contentId) == Extended(Meaning(done, contentId), arg, contentId)
  {
    LastValueOfMore(done, arg, OutputOption);
    LastValueOfMore(done, arg, DepPathOption);
    ValuesOfMore(done, arg, IncludeOption);
    HasMore(done, arg, DepFileFlag);
    HasMore(done, arg, DepPathOption);
    HasMore(done, arg, JsonFlag);
    PositionalsOfMore(done, arg);
    HashableOfMore(done, arg, contentId);
  }

  function Hashed(arg: Arg, contentId: string -> string): seq<string> {
    match arg.kind
    case OutputOption | DepFileFlag | DepPathOption => []
    case IncludeOption => if arg.value.Some? then [arg.word] + [contentId(arg.value.value)] else []
    case _ => [arg.word] + (if arg.value.Some? then [arg.value.value] else [])
  }

  lemma HashableOfMore(done: seq<Arg>, arg: Arg, contentId: string -> string)
    ensures Flatten(AllKeyed(done + [arg], contentId)) == Flatten(AllKeyed(done, contentId)) + Hashed(arg, contentId)
  {
    KeyedOfMore(done, arg, contentId);
    FlattenSum(AllKeyed(done, contentId), Keyed(arg, contentId));
    HashedWords(arg, contentId);
  }

  lemma HashedWords(arg: Arg, contentId: string -> string)
    ensures Flatten(Keyed(arg, contentId)) == Hashed(arg, contentId)
  {
  }

  lemma Associate<T>(a: seq<T>, b: seq<T>, c: seq<T>)
    ensures a + (b + c) == (a + b) + c
  {
  }

  lemma {:induction false} FlattenSum(a: seq<Arg>, b: seq<Arg>)
    ensures Flatten(a + b) == Flatten(a) + Flatten(b)
  {
    if a == [] {
      assert a + b == b;
    } else {
      FlattenSum(a[1..], b);
      assert (a + b)[1..] == a[1..] + b;
      assert Flatten(a + b) == a[0].Words() + Flatten(a[1..] + b);
      Associate(a[0].Words(), Flatten(a[1..]), Flatten(b));
    }
  }

  method ParseArgs(argv: seq<string>, contentId: string -> string) returns (p: Parsed)
    ensures p == Meaning(Split(argv), contentId)
  {
    p := Parsed(None, None, false, false, [], [], []);
    var i := 0;
    ghost var done: seq<Arg> := [];
    assert Left(argv, 0) == argv;
    while i < |argv|
      invariant 0 <= i && ReadUpTo(argv, i, done)
      invariant p == Meaning(done, contentId)
    {
      SplitNext(argv, i, done);
      MeaningOfMore(done, First(argv[i..]), contentId);
      done := done + [First(argv[i..])];
      i, p := ParseOne(argv, i, p, contentId);
    }
    assert done + [] == done;
  }

  method ParseOne(argv: seq<string>, start: nat, before: Parsed, contentId: string -> string) returns (i: nat, p: Parsed)
    requires start < |argv|
    ensures i == if TakesValue(KindOf(argv[start])) then start + 2 else start + 1
    ensures p == Extended(before, First(argv[start..]), contentId)
  {
    i, p := start, before;
    var a := argv[i];
    var kind := KindOf(a);
    match kind {
    case OutputOption =>
      i := i + 1;
      if i < |argv| {
        p := p.(output := Some(argv[i]));
      }
    case DepFileFlag =>
      p := p.(wantsDep := true);
    case JsonFlag =>
      p := p.(wantsJson := true, hashable := p.hashable + [a]);
    case DepPathOption =>
      p := p.(wantsDep := true);
      i := i + 1;
      if i < |argv| {
        p := p.(depPath := Some(argv[i]));
      }
    case IncludeOption =>
      i := i + 1;
      if i < |argv| {
        p := p.(includes := p.includes + [argv[i]], hashable := p.hashable + ([a] + [contentId(argv[i])]));
      }
    case ValueOption =>
      p := p.(hashable := p.hashable + [a]);
      i := i + 1;
      if i < |argv| {
        p := p.(hashable := p.hashable + [argv[i]]);
      }
    case OtherFlag =>
      p := p.(hashable := p.hashable + [a]);
    case Positional =>
      p := p.(positionals := p.positionals + [a], hashable := p.hashable + [a]);
    }
    i := i + 1;
  }

  // ---- the key's arguments read back ----

  lemma {:induction false} SplitReadable(argv: seq<string>)
    ensures Readable(Split(argv)) && Flatten(Split(argv)) == argv
  {
    if argv != [] {
      var rest := argv[|First(argv).Words()|..];
      SplitReadable(rest);
      assert argv == First(argv).Words() + rest;
    }
  }

  lemma {:induction false} FlattenReadsBack(args: seq<Arg>)
    requires Readable(args)
    ensures Split(Flatten(args)) == args
  {
    if args != [] {
      FlattenReadsBack(args[1..]);
      var words := Flatten(args);
      assert words[|args[0].Words()|..] == Flatten(args[1..]);
      assert args[0].value.None? && |args| == 1 ==> |words| == 1;
      assert First(words) == args[0];
    }
  }

  lemma {:induction false} KeyedReadable(args: seq<Arg>, contentId: string -> string)
    requires Readable(args)
    ensures Readable(AllKeyed(args, contentId)) && |AllKeyed(args, contentId)| <= |args|
  {
    if args != [] {
      KeyedReadable(args[1..], contentId);
      var here, rest := Keyed(args[0], contentId), AllKeyed(args[1..], contentId);
      assert (here + rest)[|here|..] == rest;
    }
  }

  /** The words that enter the key, read as a command line again, are exactly the keyed arguments: no word
      is taken for an option's value that was not one, and none is lost. */
  lemma KeyReadsBack(argv: seq<string>, contentId: string -> string)
    ensures Split(Meaning(Split(argv), contentId).hashable) == AllKeyed(Split(argv), contentId)
  {
    SplitReadable(argv);
    KeyedReadable(Split(argv), contentId);
    FlattenReadsBack(AllKeyed(Split(argv), contentId));
  }

  function Identities(paths: seq<string>, contentId: string -> string): (ids: seq<string>)
    ensures |ids| == |paths| && forall k :: 0 <= k < |ids| ==> ids[k] == contentId(paths[k])
  {
    seq(|paths|, k requires 0 <= k < |paths| => contentId(paths[k]))
  }

  lemma {:induction false} KeyedIdentities(args: seq<Arg>, contentId: string -> string)
    ensures Values(AllKeyed(args, contentId), IncludeOption) == Identities(Values(args, IncludeOption), contentId)
  {
    if args != [] {
      KeyedIdentities(args[1..], contentId);
      var here, rest := Keyed(args[0], contentId), AllKeyed(args[1..], contentId);
      if here == [] {
        assert here + rest == rest;
      } else {
        assert (here + rest)[1..] == rest && (here + rest)[0] == here[0];
      }
    }
  }

  lemma {:induction false} KeyedKeeps(args: seq<Arg>, contentId: string -> string)
    ensures Positionals(AllKeyed(args, contentId)) == Positionals(args)
    ensures Has(AllKeyed(args, contentId), JsonFlag) == Has(args, JsonFlag)
  {
    if args != [] {
      KeyedKeeps(args[1..], contentId);
      var here, rest := Keyed(args[0], contentId), AllKeyed(args[1..], contentId);
      if here == [] {
        assert here + rest == rest;
      } else {
        assert (here + rest)[1..] == rest && (here + rest)[0] == here[0];
      }
    }
  }

  /** Two command lines with the same key words name the same input file, agree on whether JSON is wanted,
      force-include files of pairwise equal identity, and have the same keyed arguments, whatever
      identities the two runs compute and wherever their outputs go. */
  lemma SameKeySameRequest(a: seq<string>, b: seq<string>, idA: string -> string, idB: string -> string)
    requires Meaning(Split(a), idA).hashable == Meaning(Split(b), idB).hashable
    ensures AllKeyed(Split(a), idA) == AllKeyed(Split(b), idB)
    ensures var p, q := Meaning(Split(a), idA), Meaning(Split(b), idB);
            && p.Input() == q.Input() && p.wantsJson == q.wantsJson
            && Identities(p.includes, idA) == Identities(q.includes, idB)
  {
    KeyReadsBack(a, idA);
    KeyReadsBack(b, idB);
    KeyedKeeps(Split(a), idA);
    KeyedKeeps(Split(b), idB);
    KeyedIdentities(Split(a), idA);
    KeyedIdentities(Split(b), idB);
  }

  // ---- asking for a dep file as well ----

  /** No option stands at the end of the line without its value. */
  predicate Complete(argv: seq<string>) {
    argv != [] ==>
    && (TakesValue(First(argv).kind) ==> |argv| > 1)
    && Complete(argv[|First(argv).Words()|..])
  }

  function DepRequest(tmp: string): seq<string> {
    ["--output-dep-file", "--dep-file-path", tmp]
  }

  lemma FirstOfSum(a: seq<string>, b: seq<string>)
    requires a != [] && (TakesValue(First(a).kind) ==> |a| > 1)
    ensures First(a + b) == First(a)
    ensures (a + b)[|First(a).Words()|..] == a[|First(a).Words()|..] + b
  {
  }

  lemma {:induction false} SplitSum(a: seq<string>, b: seq<string>)
    requires Complete(a)
    ensures Split(a + b) == Split(a) + Split(b)
  {
    if a == [] {
      assert a + b == b;
    } else {
      var rest := a[|First(a).Words()|..];
      SplitSum(rest, b);
      FirstOfSum(a, b);
      assert Split(a + b) == [First(a)] + Split(rest + b);
      Associate([First(a)], Split(rest), Split(b));
    }
  }

  lemma OptionSplit(option: string, value: string, rest: seq<string>)
    requires TakesValue(KindOf(option))
    ensures Split([option, value] + rest) == [Arg(KindOf(option), option, Some(value))] + Split(rest)
  {
    assert ([option, value] + rest)[2..] == rest;
  }

  lemma DepRequestSplit(tmp: string)
    ensures Split(DepRequest(tmp)) ==
            [Arg(DepFileFlag, "--output-dep-file", None)] + [Arg(DepPathOption, "--dep-file-path", Some(tmp))]
  {
    DepWords();
    OptionSplit("--dep-file-path", tmp, []);
    assert ["--dep-file-path", tmp] + [] == ["--dep-file-path", tmp] == DepRequest(tmp)[1..];
  }

  lemma DepWords()
    ensures KindOf("--output-dep-file") == DepFileFlag && KindOf("--dep-file-path") == DepPathOption
  {
  }

  /** A complete line with the request appended means what it meant, and asks for the dep file. */
  lemma RequestChangesNothingElse(argv: seq<string>, tmp: string, contentId: string -> string)
    requires Complete(argv)
    ensures Meaning(Split(argv + DepRequest(tmp)), contentId) ==
            Meaning(Split(argv), contentId).(wantsDep := true, depPath := Some(tmp))
  {
    var args := Split(argv);
    var flag, option := Arg(DepFileFlag, "--output-dep-file", None), Arg(DepPathOption, "--dep-file-path", Some(tmp));
    SplitSum(argv, DepRequest(tmp));
    DepRequestSplit(tmp);
    MeaningOfMore(args, flag, contentId);
    MeaningOfMore(args + [flag], option, contentId);
    assert args + ([flag] + [option]) == (args + [flag]) + [option];
    var p := Meaning(args, contentId);
    assert p.hashable + [] == p.hashable;
  }

  /** The last argument with the request's first word for its value, and the rest of the request. */
  function Swallowed(args: seq<Arg>, tmp: string): seq<Arg>
    requires args != []
  {
    args[..|args| - 1] + [args[|args| - 1].(value := Some("--output-dep-file"))]
    + [Arg(DepPathOption, "--dep-file-path", Some(tmp))]
  }

  lemma SwallowedLater(first: Arg, others: seq<Arg>, tmp: string)
    requires others != []
    ensures Swallowed([first] + others, tmp) == [first] + Swallowed(others, tmp)
  {
    assert ([first] + others)[..|others|] == [first] + others[..|others| - 1];
  }

  lemma LoneOptionSwallows(option: string, tmp: string)
    requires TakesValue(KindOf(option))
    ensures Split([option]) == [Arg(KindOf(option), option, None)]
    ensures Split([option] + DepRequest(tmp)) == Swallowed(Split([option]), tmp)
  {
    DepWords();
    assert Split([option])[..0] == [];
    OptionSplit("--dep-file-path", tmp, []);
    OptionSplit(option, "--output-dep-file", ["--dep-file-path", tmp]);
    assert [option] + DepRequest(tmp) == [option, "--output-dep-file"] + ["--dep-file-path", tmp];
    assert ["--dep-file-path", tmp] + [] == ["--dep-file-path", tmp];
  }

  /** A line that ends in an option without its value is a different matter: the option swallows the
      request's first word, so what runs is not the line the key was computed from. */
  lemma {:induction false} DanglingOptionSwallows(argv: seq<string>, tmp: string)
    requires !Complete(argv)
    ensures var args := Split(argv);
            && args != [] && args[|args| - 1].value.None? && TakesValue(args[|args| - 1].kind)
            && Split(argv + DepRequest(tmp)) == Swallowed(args, tmp)
  {
    var first, rest := First(argv), argv[|First(argv).Words()|..];
    if TakesValue(first.kind) && |argv| == 1 {
      LoneOptionSwallows(argv[0], tmp);
      assert argv == [argv[0]];
    } else {
      DanglingOptionSwallows(rest, tmp);
      FirstOfSum(argv, DepRequest(tmp));
      SwallowedLater(first, Split(rest), tmp);
    }
  }

  /** The one dangling option that the request's first word leaves as it was: an output option, on a line
      whose output already has that word for its name. */
  predicate NamesTheSameOutput(argv: seq<string>, output: Option<string>) {
    var args := Split(argv);
    args != [] && args[|args| - 1].kind == OutputOption && output == Some("--output-dep-file")
  }

  /** What a line means whose last option got the request's first word for its value. */
  lemma SwallowedMeans(args: seq<Arg>, tmp: string, contentId: string -> string)
    requires args != [] && TakesValue(args[|args| - 1].kind)
    ensures var most, full := Meaning(args[..|args| - 1], contentId), args[|args| - 1].(value := Some("--output-dep-file"));
            Meaning(Swallowed(args, tmp), contentId) ==
            Extended(most, full, contentId).(wantsDep := true, depPath := Some(tmp))
  {
    var before, full := args[..|args| - 1], args[|args| - 1].(value := Some("--output-dep-file"));
    var option := Arg(DepPathOption, "--dep-file-path", Some(tmp));
    MeaningOfMore(before, full, contentId);
    MeaningOfMore(before + [full], option, contentId);
    var q := Meaning(before + [full], contentId);
    assert q.hashable + [] == q.hashable;
  }

  lemma LastMeans(args: seq<Arg>, contentId: string -> string)
    requires args != [] && (args[|args| - 1].value.Some? ==> TakesValue(args[|args| - 1].kind))
    ensures Meaning(args, contentId) == Extended(Meaning(args[..|args| - 1], contentId), args[|args| - 1], contentId)
  {
    assert args == args[..|args| - 1] + [args[|args| - 1]];
    MeaningOfMore(args[..|args| - 1], args[|args| - 1], contentId);
  }

  lemma DanglingArgs(args: seq<Arg>, tmp: string, contentId: string -> string)
    requires args != [] && args[|args| - 1].value.None? && TakesValue(args[|args| - 1].kind)
    requires !Meaning(args, contentId).wantsDep
    ensures var last, p, q := args[|args| - 1], Meaning(args, contentId), Meaning(Swallowed(args, tmp), contentId);
            && (|q.hashable| == |p.hashable| <==> last.kind == OutputOption)
            && (last.kind == OutputOption ==>
                  q == p.(output := Some("--output-dep-file"), wantsDep := true, depPath := Some(tmp)))
  {
    LastMeans(args, contentId);
    SwallowedMeans(args, tmp, contentId);
    DanglingBy(Meaning(args[..|args| - 1], contentId), args[|args| - 1], Meaning(args, contentId),
               Meaning(Swallowed(args, tmp), contentId), tmp, contentId);
  }

  lemma DanglingBy(most: Parsed, last: Arg, p: Parsed, q: Parsed, tmp: string, contentId: string -> string)
    requires last.value.None? && TakesValue(last.kind) && !p.wantsDep
    requires p == Extended(most, last, contentId)
    requires q == Extended(most, last.(value := Some("--output-dep-file")), contentId).(wantsDep := true, depPath := Some(tmp))
    ensures |q.hashable| == |p.hashable| <==> last.kind == OutputOption
    ensures last.kind == OutputOption ==>
              q == p.(output := Some("--output-dep-file"), wantsDep := true, depPath := Some(tmp))
  {
    ExtendedWithout(most, last, "--output-dep-file", contentId);
  }

  /** With the request appended, a line that dangles keeps the number of its key words only if it dangles
      with an output option; then its output is the request's first word, and the rest is as it was. */
  lemma DanglingMeans(argv: seq<string>, tmp: string, contentId: string -> string)
    requires !Complete(argv) && !Meaning(Split(argv), contentId).wantsDep
    ensures Split(argv) != []
    ensures var last := Split(argv)[|Split(argv)| - 1];
            var p, q := Meaning(Split(argv), contentId), Meaning(Split(argv + DepRequest(tmp)), contentId);
            && (|q.hashable| == |p.hashable| <==> last.kind == OutputOption)
            && (last.kind == OutputOption ==>
                  q == p.(output := Some("--output-dep-file"), wantsDep := true, depPath := Some(tmp)))
  {
    DanglingOptionSwallows(argv, tmp);
    DanglingArgs(Split(argv), tmp, contentId);
  }

  /** An option with and without its value, by kind. */
  lemma ExtendedWithout(most: Parsed, last: Arg, value: string, contentId: string -> string)
    requires last.value.None? && TakesValue(last.kind)
    ensures var p, q := Extended(most, last, contentId), Extended(most, last.(value := Some(value)), contentId);
            match last.kind
            case OutputOption => q == p.(output := Some(value))
            case DepPathOption => p.wantsDep
            case _ => |q.hashable| > |p.hashable|
  {
    assert most.hashable + [] == most.hashable;
  }

  // ---- the words of the key ----

  ghost predicate AllGood(words: seq<string>, good: string -> bool) {
    forall k :: 0 <= k < |words| ==> good(words[k])
  }

  lemma GoodSum(a: seq<string>, b: seq<string>, good: string -> bool)
    ensures AllGood(a + b, good) <==> AllGood(a, good) && AllGood(b, good)
  {
    assert forall k :: 0 <= k < |a| ==> (a + b)[k] == a[k];
    assert forall k :: 0 <= k < |b| ==> (a + b)[|a| + k] == b[k];
  }

  /** What holds of every word of the line and of the identities holds of every word of the key. */
  lemma {:induction false} HashableAll(args: seq<Arg>, contentId: string -> string, good: string -> bool)
    requires AllGood(Flatten(args), good)
    requires forall word :: good(word) ==> good(contentId(word))
    ensures AllGood(Flatten(AllKeyed(args, contentId)), good)
  {
    if args != [] {
      GoodSum(args[0].Words(), Flatten(args[1..]), good);
      HashableAll(args[1..], contentId, good);
      FlattenSum(Keyed(args[0], contentId), AllKeyed(args[1..], contentId));
      HashedGood(args[0], contentId, good);
      GoodSum(Flatten(Keyed(args[0], contentId)), Flatten(AllKeyed(args[1..], contentId)), good);
    }
  }

  lemma HashedGood(arg: Arg, contentId: string -> string, good: string -> bool)
    requires AllGood(arg.Words(), good)
    requires forall word :: good(word) ==> good(contentId(word))
    ensures AllGood(Flatten(Keyed(arg, contentId)), good)
  {
    HashedWords(arg, contentId);
    assert good(arg.Words()[0]);
    if arg.value.Some? {
      assert good(arg.Words()[1]) && good(contentId(arg.value.value));
    }
  }

  /** The key's words depend on the identities of the force-included files only. */
  lemma {:induction false} SameIdentitiesSameWords(args: seq<Arg>, idA: string -> string, idB: string -> string)
    requires forall k :: 0 <= k < |Values(args, IncludeOption)| ==>
               idA(Values(args, IncludeOption)[k]) == idB(Values(args, IncludeOption)[k])
    ensures AllKeyed(args, idA) == AllKeyed(args, idB)
  {
    if args != [] {
      var mine := if args[0].kind == IncludeOption && args[0].value.Some? then [args[0].value.value] else [];
      var rest := Values(args[1..], IncludeOption);
      assert Values(args, IncludeOption)[|mine|..] == rest;
      SameIdentitiesSameWords(args[1..], idA, idB);
      if mine != [] {
        assert Values(args, IncludeOption)[0] == mine[0];
      }
    }
  }
}
