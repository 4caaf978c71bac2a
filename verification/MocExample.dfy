/** A small world with a moc that passes on the input, a header it looks up, and the force-included file. */
module MocExample {
  import opened Common
  import opened MocCache
  import opened MocReuse
  import opened MocRuns
  import opened MocTransparency
  import opened MocWitness
  import opened MocWorld
  import opened Text
  import Args
  import ArgsTold
  import Basedir
  import CacheKey
  import DepFile
  import Manifest

  // ---- the world ----

  /** `n` marks, then zeros, `k` digits in all. */
  function Marks(n: nat, k: nat): (s: string)
    ensures |s| == k && forall i :: 0 <= i < k ==> s[i] == if i < n then '1' else '0'
  {
    if k == 0 then "" else Marks(n, k - 1) + (if k - 1 < n then "1" else "0")
  }

  /** Here a text's hash tells its length, up to 64. */
  function ByLength(text: string): string { Marks(|text|, 64) }

  function Passed(forced: seq<Option<string>>): string {
    if forced == [] then "" else OrEmpty(forced[0]) + Passed(forced[1..])
  }

  function PassOn(given: Given, seen: seq<Option<string>>): Move {
    if seen == [] then Look("h") else Stop(Finish(given.input + OrEmpty(seen[0]) + Passed(given.forced), ""))
  }

  function OneLook(given: Given): nat { 1 }

  function NoMoc(given: Given, files: Files): Trace { Trace([], Fail(1, map[])) }

  function NoRun(tool: string, argv: seq<string>, files: Files): Ran { Ran(1, map[]) }

  function Itself(path: string): string { path }

  function NoPath(path: string, out: string): string { "" }

  function KeyWords(): seq<string> { ["i", "--include", ByLength("PP")] }

  function TheKeyText(): string {
    CacheKey.Terminated(["t"] + KeyWords() + [ByLength("I"), ""])
  }

  function TheDepFile(): string { DepFile.Written("o", ["i", "p", "h"]) }

  predicate IsHashed(text: string) {
    text == "I" || text == "PP" || text == "HHH" || text == "IHHHPP" || text == TheDepFile() || text == TheKeyText()
  }

  function Base(): World {
    World(NoMoc, NoRun, DepFile.Written, Itself, NoPath, ByLength, "", IsHashed)
  }

  function Small(): World { Reading(Base(), PassOn, OneLook) }

  function Line(): seq<string> { ["i", "-o", "o", "--include", "p", "--output-dep-file"] }

  function TheCall(): Call { Call("t", Line(), "tmp") }

  predicate Based(files: Files) {
    Found(Small(), files, "i") == Some("I") && Found(Small(), files, "p") == Some("PP")
    && Found(Small(), files, "h") == Some("HHH")
  }

  function TheFiles(): Files { map["i" := "I", "p" := "PP", "h" := "HHH"] }

  // ---- hashing ----

  lemma DifferentMarks(m: nat, n: nat)
    ensures m < n && m < 64 ==> Marks(m, 64) != Marks(n, 64)
  {
    if m < n && m < 64 {
      assert Marks(m, 64)[m] == '0' && Marks(n, 64)[m] == '1';
    }
  }

  lemma Replacing(text: string)
    requires Free(text, ' ')
    ensures DepFile.MakeEscape(text) == text
  {
    NothingToReplace(text, " ", "\\ ", ' ');
  }

  lemma DepFileLength()
    ensures 6 < |TheDepFile()| < 64
  {
    Replacing("o");
    Replacing("i");
    Replacing("p");
    Replacing("h");
    var e := DepFile.Escaped(["i", "p", "h"]);
    assert e == ["i", "p", "h"] && e[1..] == ["p", "h"] && e[1..][1..] == ["h"];
    assert Joined(["h"], " \\\n  ") == "h";
    assert |Joined(["p", "h"], " \\\n  ")| == 7;
    assert |Joined(e, " \\\n  ")| == 13;
  }

  lemma KeyTextLength()
    ensures |TheKeyText()| >= 64
  {
    LongPart(["t"] + KeyWords() + [ByLength("I"), ""], 3);
  }

  lemma {:induction false} LongPart(parts: seq<string>, k: nat)
    requires k < |parts|
    ensures |CacheKey.Terminated(parts)| > |parts[k]|
  {
    if k > 0 {
      LongPart(parts[1..], k - 1);
    }
  }

  lemma HashIsGood()
    ensures GoodHash(Small())
  {
    DepFileLength();
    KeyTextLength();
    forall s: string, t: string | IsHashed(s) && IsHashed(t) && ByLength(s) == ByLength(t) ensures s == t {
      DifferentMarks(|s|, |t|);
      DifferentMarks(|t|, |s|);
    }
  }

  // ---- what the call asks for ----

  function FileArg(): Args.Arg { Args.Arg(Args.Positional, "i", None) }

  function OutArg(): Args.Arg { Args.Arg(Args.OutputOption, "-o", Some("o")) }

  function ForcedArg(): Args.Arg { Args.Arg(Args.IncludeOption, "--include", Some("p")) }

  function DepArg(): Args.Arg { Args.Arg(Args.DepFileFlag, "--output-dep-file", None) }

  lemma LineKinds()
    ensures Args.KindOf("i") == Args.Positional && Args.KindOf("-o") == Args.OutputOption
    ensures Args.KindOf("--include") == Args.IncludeOption && Args.KindOf("--output-dep-file") == Args.DepFileFlag
  {
  }

  lemma LineSplits()
    ensures Args.Split(Line()) == ((([] + [FileArg()]) + [OutArg()]) + [ForcedArg()]) + [DepArg()]
  {
    LineKinds();
    Args.OptionSplit("-o", "o", ["--include", "p", "--output-dep-file"]);
    Args.OptionSplit("--include", "p", ["--output-dep-file"]);
    assert Line()[1..] == ["-o", "o"] + ["--include", "p", "--output-dep-file"];
    assert ["--include", "p"] + ["--output-dep-file"] == ["--include", "p", "--output-dep-file"];
    assert Args.Split(["--output-dep-file"]) == [DepArg()];
  }

  lemma MostOfLineMeans(ids: string -> string)
    ensures Args.Meaning(([] + [FileArg()]) + [OutArg()], ids) ==
            Args.Parsed(Some("o"), None, false, false, ["i"], ["i"], [])
  {
    Args.MeaningOfMore([], FileArg(), ids);
    Args.MeaningOfMore([] + [FileArg()], OutArg(), ids);
  }

  lemma MoreOfLineMeans(ids: string -> string)
    ensures Args.Meaning((([] + [FileArg()]) + [OutArg()]) + [ForcedArg()], ids) ==
            Args.Parsed(Some("o"), None, false, false, ["i", "--include", ids("p")], ["i"], ["p"])
  {
    MostOfLineMeans(ids);
    Args.MeaningOfMore(([] + [FileArg()]) + [OutArg()], ForcedArg(), ids);
    assert ["i"] + ["--include", ids("p")] == ["i", "--include", ids("p")];
  }

  lemma LineMeans(ids: string -> string)
    ensures Args.Meaning(Args.Split(Line()), ids) ==
            Args.Parsed(Some("o"), None, true, false, ["i", "--include", ids("p")], ["i"], ["p"])
  {
    LineSplits();
    MoreOfLineMeans(ids);
    Args.MeaningOfMore((([] + [FileArg()]) + [OutArg()]) + [ForcedArg()], DepArg(), ids);
    assert ["i", "--include", ids("p")] + [] == ["i", "--include", ids("p")];
  }

  function Request(): Args.Parsed {
    Args.Parsed(Some("o"), None, true, false, KeyWords(), ["i"], ["p"])
  }

  lemma RequestPaths()
    ensures OutPath(Request()) == "o" && InPath(Request()) == "i"
    ensures DepPath(Request()) == "o.d" && JsonPath(Request()) == "o.json"
  {
  }

  lemma CallAsks(files: Files)
    requires Found(Small(), files, "p") == Some("PP")
    ensures Asked(Small(), UserRun(TheCall(), files)) == Request()
    ensures CapturedRun(Small(), TheCall(), files) == UserRun(TheCall(), files)
  {
    LineMeans(Ids(Small(), files));
    NothingToRename("PP");
  }

  // ---- what moc does, from the request alone ----

  lemma GivenBy(w: World, r: Run, p: Args.Parsed)
    requires Asked(w, r) == p && OutPath(p) != "" && InPath(p) != "" && IsFile(w, r.files, InPath(p)) && |p.includes| == 1
    ensures Usable(w, r)
    ensures GivenTo(w, r).input == Read(w, r.files, InPath(p)) && GivenTo(w, r).forced == [Found(w, r.files, p.includes[0])]
    ensures KeyParts(w, r) == [r.tool] + Normals(w, p.hashable)
                              + [w.sha(Read(w, r.files, InPath(p))), w.relpath(InPath(p), OutPath(p))]
  {
  }

  /** moc's own steps: one look, then the three texts one after the other. */
  lemma Passes(given: Given, files: Files)
    requires given.input == "I" && given.forced == [Some("PP")]
    ensures Small().moc(given, files) ==
            Trace(["h"], Finish("I" + OrEmpty(Answer(Itself, files, "h")) + "PP", ""))
  {
    assert Passed([Some("PP")]) == "PP" + Passed([]) == "PP";
    var seen := [] + [Answer(Itself, files, "h")];
    var rest := Performed(Itself, PassOn, given, files, seen, 0);
    assert rest == Trace([], Finish("I" + OrEmpty(seen[0]) + "PP", ""));
    assert PassOn(given, []) == Look("h");
    assert Small().moc(given, files) == Performed(Base().resolve, PassOn, given, files, [], OneLook(given));
    assert Performed(Itself, PassOn, given, files, [], 1) == Trace(["h"] + rest.looks, rest.end);
  }

  /** A call that asks for what the example's line asks for. */
  ghost predicate Says(c: Call, files: Files) {
    && Asked(Small(), UserRun(c, files)) == Request() && CapturedRun(Small(), c, files) == UserRun(c, files)
    && c.tool == "t" && AllPassable(Small(), c.argv) && ArgsTold.LooseEnd(c.argv).None?
  }

  lemma LineIsPassable()
    ensures AllPassable(Small(), Line()) && ArgsTold.LooseEnd(Line()).None?
  {
    assert Line()[|Line()| - 1] == "--output-dep-file";
    forall k | 0 <= k < |Line()| ensures Passable(Small(), Line()[k]) {
      assert Free(Line()[k], '\0');
    }
  }

  lemma TheCallSays(files: Files)
    requires Found(Small(), files, "p") == Some("PP")
    ensures Says(TheCall(), files)
  {
    CallAsks(files);
    LineIsPassable();
  }

  /** Such a call's run of moc on any files that hold the input and the force-included file. */
  lemma CallRuns(c: Call, files: Files)
    requires Says(c, files) && Found(Small(), files, "i") == Some("I") && Found(Small(), files, "p") == Some("PP")
    ensures var w, r := Small(), UserRun(c, files);
            && Usable(w, r) && GivenTo(w, r).input == "I" && GivenTo(w, r).forced == [Some("PP")]
            && Traced(w, r) == Trace(["h"], Finish("I" + OrEmpty(Found(w, files, "h")) + "PP", ""))
            && KeyParts(w, r) == ["t"] + Normals(w, KeyWords()) + [ByLength("I"), ""]
  {
    RequestPaths();
    GivenBy(Small(), UserRun(c, files), Request());
    Passes(GivenTo(Small(), UserRun(c, files)), files);
  }

  // ---- what it leaves and reports ----

  function TheWrites(): Files { map["o.d" := TheDepFile(), "o" := "IHHHPP"] }

  lemma FinishesBy(w: World, r: Run, p: Args.Parsed, t: Trace)
    requires Usable(w, r) && Asked(w, r) == p && p.wantsDep && !p.wantsJson && Traced(w, r) == t && t.end.Finish?
    ensures Result(w, r) ==
            Ran(0, map[w.resolve(DepPath(p)) := w.report(OutPath(p), [InPath(p)] + p.includes + Existing(w, r.files, t.looks))]
                   + map[w.resolve(OutPath(p)) := t.end.output])
  {
  }

  lemma CallLeaves(c: Call, files: Files)
    requires Says(c, files) && Based(files)
    ensures Result(Small(), UserRun(c, files)) == Ran(0, TheWrites())
  {
    CallRuns(c, files);
    RequestPaths();
    OneText();
    ListedAre(files);
    Leaves(Small(), UserRun(c, files), Request(), ["h"], "IHHHPP", ["i", "p", "h"]);
    TheWritesAre();
  }

  lemma TheWritesAre()
    ensures map[Itself(DepPath(Request())) := DepFile.Written(OutPath(Request()), ["i", "p", "h"])]
            + map[Itself(OutPath(Request())) := "IHHHPP"] == TheWrites()
  {
    RequestPaths();
  }

  lemma Leaves(w: World, r: Run, p: Args.Parsed, looks: seq<string>, output: string, listed: seq<string>)
    requires Usable(w, r) && Asked(w, r) == p && p.wantsDep && !p.wantsJson
    requires Traced(w, r) == Trace(looks, Finish(output, ""))
    requires [InPath(p)] + p.includes + Existing(w, r.files, looks) == listed
    ensures Result(w, r) ==
            Ran(0, map[w.resolve(DepPath(p)) := w.report(OutPath(p), listed)] + map[w.resolve(OutPath(p)) := output])
  {
    FinishesBy(w, r, p, Trace(looks, Finish(output, "")));
  }

  lemma OneText()
    ensures "I" + "HHH" + "PP" == "IHHHPP"
  {
  }

  lemma ListedAre(files: Files)
    requires Based(files)
    ensures ["i"] + Request().includes + Existing(Small(), files, ["h"]) == ["i", "p", "h"]
  {
    assert Existing(Small(), files, ["h"]) == ["h"];
  }

  lemma WrittenReads(target: string, deps: seq<string>)
    requires DepFile.Plain(target) && forall k :: 0 <= k < |deps| ==> DepFile.Listable(deps[k])
    ensures DepFile.Parsed(Translated(DepFile.Written(target, deps))) == deps
  {
    var text := DepFile.Written(target, deps);
    DepFile.WrittenStaysFree(target, deps, '\r');
    NothingToReplace(text, "\r\n", "\n", '\r');
    NothingToReplace(text, "\r", "\n", '\r');
    DepFile.RoundTrip(target, deps);
  }

  lemma ReportedBy(w: World, r: Run, p: Args.Parsed, writes: Files)
    requires Asked(w, r) == p && Result(w, r).writes == writes && w.resolve(DepPath(p)) in writes
    ensures Reported(w, r) == DepFile.Parsed(Translated(writes[w.resolve(DepPath(p))]))
  {
  }

  lemma DepFileReads()
    ensures DepFile.Parsed(Translated(TheWrites()["o.d"])) == ["i", "p", "h"]
  {
    WrittenReads("o", ["i", "p", "h"]);
  }

  lemma CallReports(c: Call, files: Files)
    requires Says(c, files) && Based(files)
    ensures Reported(Small(), UserRun(c, files)) == ["i", "p", "h"]
  {
    CallLeaves(c, files);
    RequestPaths();
    DepFileReads();
    ReportedBy(Small(), UserRun(c, files), Request(), TheWrites());
  }

  // ---- it is proper and orderly ----

  lemma KeyableBy(w: World, r: Run, p: Args.Parsed, text: string)
    requires Asked(w, r) == p && Usable(w, r) && AllPassable(w, r.argv) && CleanWord(r.tool) && |p.includes| == 1
    requires ArgsTold.LooseEnd(r.argv).None?
    requires KeyText(w, r) == text && w.hashed(text) && CleanWord(w.relpath(InPath(p), OutPath(p)))
    requires w.hashed(Read(w, r.files, InPath(p))) && Identifiable(w, r.files, p.includes[0])
    ensures Keyable(w, r)
  {
    OneIdentifiable(w, r.files, p.includes);
  }

  lemma OneIdentifiable(w: World, files: Files, paths: seq<string>)
    requires |paths| == 1 && Identifiable(w, files, paths[0])
    ensures AllIdentifiable(w, files, paths)
  {
  }

  lemma WordsStay()
    ensures Normals(Small(), KeyWords()) == KeyWords()
  {
    var words := KeyWords();
    forall k | 0 <= k < |words| ensures Normal(Small(), words[k]) == words[k] {
      NothingToRename(words[k]);
    }
  }

  lemma CallIsKeyable(c: Call, files: Files)
    requires Says(c, files) && Based(files)
    ensures Keyable(Small(), UserRun(c, files))
  {
    CallRuns(c, files);
    RequestPaths();
    WordsStay();
    NothingToRename("PP");
    KeyableBy(Small(), UserRun(c, files), Request(), TheKeyText());
  }

  lemma ApartBy(w: World, c: Call, files: Files, p: Args.Parsed)
    requires Asked(w, UserRun(c, files)) == p && p.wantsDep && |p.includes| == 1
    requires OutputsApart(w, p) && w.resolve(InPath(p)) !in Targets(w, p) && w.resolve(p.includes[0]) !in Targets(w, p)
    ensures Apart(w, c, files)
  {
  }

  lemma TargetsAre()
    ensures Targets(Small(), Request()) == {"o", "o.json", "o.d"} && OutputsApart(Small(), Request())
    ensures "i" !in Targets(Small(), Request()) && "p" !in Targets(Small(), Request()) && "h" !in Targets(Small(), Request())
  {
    RequestPaths();
    assert |"o.json"| == 6 && |"o.d"| == 3 && |"o"| == 1;
  }

  lemma CallIsProper(c: Call, files: Files)
    requires Says(c, files) && Based(files) && AllHashed(Small(), files)
    ensures Proper(Small(), c, files)
  {
    CallIsKeyable(c, files);
    TargetsAre();
    RequestPaths();
    ApartBy(Small(), c, files, Request());
  }

  lemma OrderlyDepBy(w: World, c: Call, files: Files, p: Args.Parsed, dep: string)
    requires var r := UserRun(c, files); CapturedRun(w, c, files) == r && Asked(w, r) == p && AllHashed(w, files)
    requires w.basedir == "" && w.resolve(dep) !in Targets(w, p)
    ensures OrderlyDep(w, c, files, dep)
  {
  }

  ghost predicate OffTargets(w: World, p: Args.Parsed, deps: seq<string>) {
    forall k :: 0 <= k < |deps| ==> w.resolve(deps[k]) !in Targets(w, p)
  }

  lemma NamesAreOffTargets()
    ensures OffTargets(Small(), Request(), ["i", "p", "h"]) && OffTargets(Small(), Request(), ["i", "p"])
  {
    TargetsAre();
  }

  /** In order: a run whose reported paths are none of its targets. */
  lemma OrderlyBy(w: World, c: Call, files: Files, p: Args.Parsed, deps: seq<string>)
    requires var r := UserRun(c, files);
             CapturedRun(w, c, files) == r && Asked(w, r) == p && Usable(w, r) && Reported(w, r) == deps
    requires w.basedir == "" && AllHashed(w, files)
    requires OffTargets(w, p, deps)
    ensures Orderly(w, c, files)
  {
    forall k | 0 <= k < |deps| ensures OrderlyDep(w, c, files, deps[k]) {
      OrderlyDepBy(w, c, files, p, deps[k]);
    }
  }

  lemma WatchedBy(w: World, c: Call, files: Files, p: Args.Parsed, h: string)
    requires var r := UserRun(c, files);
             && CapturedRun(w, c, files) == r && Asked(w, r) == p && Usable(w, r) && |p.includes| == 1
             && h in Reported(w, r) && Traced(w, r).looks == [h]
    requires IsFile(w, files, h) && w.resolve(h) != w.resolve(p.includes[0])
    ensures Unwatched(w, c, files) == map[]
  {
    NotForced(w, p, h);
    AllWatched(w, c, files, h);
  }

  lemma NotForced(w: World, p: Args.Parsed, h: string)
    requires |p.includes| == 1 && w.resolve(h) != w.resolve(p.includes[0])
    ensures !Includes(w, p, h)
  {
  }

  lemma AllWatched(w: World, c: Call, files: Files, h: string)
    requires Usable(w, CapturedRun(w, c, files)) && Traced(w, CapturedRun(w, c, files)).looks == [h]
    requires Watched(w, c, files, h)
    ensures Unwatched(w, c, files) == map[]
  {
  }

  lemma SaysOrderly(c: Call, files: Files, deps: seq<string>)
    requires Says(c, files) && Usable(Small(), UserRun(c, files)) && AllHashed(Small(), files)
    requires Reported(Small(), UserRun(c, files)) == deps && OffTargets(Small(), Request(), deps)
    ensures Orderly(Small(), c, files)
  {
    OrderlyBy(Small(), c, files, Request(), deps);
  }

  lemma CallIsOrderly(c: Call, files: Files)
    requires Says(c, files) && Based(files) && AllHashed(Small(), files)
    ensures Orderly(Small(), c, files)
  {
    CallRuns(c, files);
    CallReports(c, files);
    NamesAreOffTargets();
    SaysOrderly(c, files, ["i", "p", "h"]);
  }

  lemma CallIsWatched(c: Call, files: Files)
    requires Says(c, files) && Based(files)
    ensures Usable(Small(), CapturedRun(Small(), c, files)) && Unwatched(Small(), c, files) == map[]
  {
    CallRuns(c, files);
    CallReports(c, files);
    assert "h" == ["i", "p", "h"][2];
    WatchedBy(Small(), c, files, Request(), "h");
  }

  // ---- the first call ----

  const FINE := Faults(None, false, None)

  lemma FirstMisses(w: World, c: Call, files: Files)
    requires Usable(w, UserRun(c, files)) && Result(w, CapturedRun(w, c, files)).code == 0
    requires !DepFileMissing(w, c, CapturedRun(w, c, files), FINE)
    ensures var s := State(files, map[]);
            && Invoked(w, c, s, FINE) == MissFrom(w, c, Key(w, UserRun(c, files)), s, FINE)
            && Invoked(w, c, s, FINE).1 == RealRun(0) && MissFiles(w, c, s, FINE) == files
  {
    var u := UserRun(c, files);
    NothingCached(w, u, Key(w, u));
  }

  lemma NothingCached(w: World, u: Run, key: string)
    ensures Lookup(w, u, PartsAt(map[], key)).None?
  {
  }

  lemma NothingMissing(c: Call, files: Files)
    requires Says(c, files) && Based(files)
    ensures !DepFileMissing(Small(), c, UserRun(c, files), FINE)
    ensures Left(Small(), c, files) == files + TheWrites()
  {
    CallLeaves(c, files);
    RequestPaths();
  }

  lemma StillBased(files: Files)
    requires Based(files) && AllHashed(Small(), files)
    ensures Based(files + TheWrites()) && AllHashed(Small(), files + TheWrites())
  {
    assert |"o.d"| == 3 && |"o"| == 1;
    HashedWith(Small(), files, TheWrites());
  }

  lemma HashedWith(w: World, files: Files, writes: Files)
    requires AllHashed(w, files) && AllHashed(w, writes)
    ensures AllHashed(w, files + writes)
  {
  }

  lemma StaysFile(w: World, r: Run, path: string)
    requires IsFile(w, r.files, path)
    ensures IsFile(w, After(w, r), path)
  {
  }

  lemma StaysSame(w: World, r: Run, p: Args.Parsed, path: string)
    requires Usable(w, r) && Asked(w, r) == p && Result(w, r).code == 0 && w.resolve(path) !in Targets(w, p)
    ensures SameAt(w, r.files, After(w, r), path)
  {
    SuccessWrites(w, r);
    assert w.resolve(path) !in Result(w, r).writes;
  }

  lemma CallIsReadable(c: Call, files: Files)
    requires Says(c, files) && Based(files)
    ensures Readable(Small(), UserRun(c, files))
  {
    var w, r := Small(), UserRun(c, files);
    CallReports(c, files);
    StaysFile(w, r, "i");
    StaysFile(w, r, "h");
    PlainNames();
    ReadableBy(w, r, Request(), "i", "p", "h");
  }

  lemma PlainNames()
    ensures Manifest.Unbroken(Normal(Small(), "i")) && Manifest.Unbroken(Normal(Small(), "h"))
  {
    NothingToRename("i");
    NothingToRename("h");
  }

  lemma ReadableBy(w: World, r: Run, p: Args.Parsed, i: string, f: string, h: string)
    requires Asked(w, r) == p && p.includes == [f] && Reported(w, r) == [i, f, h]
    requires IsFile(w, After(w, r), i) && IsFile(w, After(w, r), h)
    requires w.resolve(i) != w.resolve(f) && w.resolve(h) != w.resolve(f)
    requires Manifest.Unbroken(Normal(w, i)) && Manifest.Unbroken(Normal(w, h))
    ensures Readable(w, r)
  {
    EntriesBy(w, r, p, i, f, h);
  }

  lemma EntriesBy(w: World, r: Run, p: Args.Parsed, i: string, f: string, h: string)
    requires Asked(w, r) == p && p.includes == [f] && Reported(w, r) == [i, f, h]
    requires IsFile(w, After(w, r), i) && IsFile(w, After(w, r), h)
    requires w.resolve(i) != w.resolve(f) && w.resolve(h) != w.resolve(f)
    ensures Entries(w, r, Reported(w, r)) == [Manifest.Entry(Normal(w, i), w.sha(Read(w, After(w, r), i))),
                                              Manifest.Entry(Normal(w, h), w.sha(Read(w, After(w, r), h)))]
  {
    ForcedIsUntracked(w, r, p, f);
    assert Tracked(w, r, i) && Tracked(w, r, h);
    EntriesOfThree(w, r, i, f, h);
  }

  lemma EntriesOfThree(w: World, r: Run, i: string, f: string, h: string)
    ensures Entries(w, r, [i, f, h]) == EntryFor(w, r, i) + (EntryFor(w, r, f) + EntryFor(w, r, h))
  {
    EntriesAfter(w, r, i, [f, h]);
    EntriesAfter(w, r, f, [h]);
    EntriesAfter(w, r, h, []);
    assert [i] + [f, h] == [i, f, h] && [f] + [h] == [f, h] && [h] + [] == [h];
  }

  lemma EntriesAfter(w: World, r: Run, dep: string, rest: seq<string>)
    ensures Entries(w, r, [dep] + rest) == EntryFor(w, r, dep) + Entries(w, r, rest)
  {
    assert ([dep] + rest)[1..] == rest;
  }

  // ---- a look in vain ----

  function WithoutHeader(): Files { map["i" := "I", "p" := "PP"] }

  lemma TwoTexts()
    ensures "I" + "" + "PP" == "IPP"
  {
  }

  lemma NoneExist(files: Files)
    requires files == WithoutHeader()
    ensures ["i"] + Request().includes + Existing(Small(), files, ["h"]) == ["i", "p"]
  {
    assert Existing(Small(), files, ["h"]) == [];
  }

  function VainWrites(): Files { map["o.d" := DepFile.Written("o", ["i", "p"]), "o" := "IPP"] }

  lemma VainWritesAre()
    ensures map[Itself(DepPath(Request())) := DepFile.Written(OutPath(Request()), ["i", "p"])]
            + map[Itself(OutPath(Request())) := "IPP"] == VainWrites()
  {
    RequestPaths();
  }

  lemma FinishesInVain(c: Call, files: Files)
    requires Says(c, files) && files == WithoutHeader()
    ensures var r := UserRun(c, files);
            && Usable(Small(), r) && Traced(Small(), r).looks == ["h"]
            && Result(Small(), r) == Ran(0, VainWrites())
  {
    CallRuns(c, files);
    RequestPaths();
    TwoTexts();
    NoneExist(files);
    Leaves(Small(), UserRun(c, files), Request(), ["h"], "IPP", ["i", "p"]);
    VainWritesAre();
  }

  lemma VainWritesRead()
    ensures DepFile.Parsed(Translated(VainWrites()["o.d"])) == ["i", "p"]
  {
    WrittenReads("o", ["i", "p"]);
  }

  lemma ReportsInVain(c: Call, files: Files)
    requires Says(c, files) && files == WithoutHeader()
    ensures Reported(Small(), UserRun(c, files)) == ["i", "p"]
  {
    FinishesInVain(c, files);
    CallRuns(c, files);
    RequestPaths();
    VainWritesRead();
    ReportedBy(Small(), UserRun(c, files), Request(), VainWrites());
  }

  lemma ForcedIsUntracked(w: World, r: Run, p: Args.Parsed, f: string)
    requires Asked(w, r) == p && p.includes == [f]
    ensures !Tracked(w, r, f)
  {
    assert w.resolve(p.includes[0]) == w.resolve(f);
  }

  lemma ReadableShort(w: World, r: Run, p: Args.Parsed, i: string, f: string)
    requires Asked(w, r) == p && p.includes == [f] && Reported(w, r) == [i, f] && IsFile(w, After(w, r), i)
    requires w.resolve(i) != w.resolve(f) && Manifest.Unbroken(Normal(w, i))
    ensures Readable(w, r)
  {
    OneEntry(w, r, p, i, f);
  }

  lemma OneEntry(w: World, r: Run, p: Args.Parsed, i: string, f: string)
    requires Asked(w, r) == p && p.includes == [f] && IsFile(w, After(w, r), i) && w.resolve(i) != w.resolve(f)
    ensures Entries(w, r, [i, f]) == [Manifest.Entry(Normal(w, i), w.sha(Read(w, After(w, r), i)))]
  {
    ForcedIsUntracked(w, r, p, f);
    assert Tracked(w, r, i);
    EntriesAfter(w, r, i, [f]);
    EntriesAfter(w, r, f, []);
    assert [i] + [f] == [i, f] && [f] + [] == [f];
  }

  /** The tracked input is still there if it is where it was, and the force-included file as well. */
  lemma StillThereBy(w: World, c: Call, files: Files, now: Files, p: Args.Parsed, f: string)
    requires var r := UserRun(c, files);
             && CapturedRun(w, c, files) == r && Asked(w, r) == p && p.includes == [f] && Reported(w, r) == [InPath(p), f]
             && SameAt(w, files, After(w, r), InPath(p))
    requires SameAt(w, files, now, InPath(p)) && SameAt(w, files, now, f)
    ensures StillThere(w, c, files, now)
  {
    var r := UserRun(c, files);
    ForcedIsUntracked(w, r, p, f);
    var deps := [InPath(p), f];
    forall k | 0 <= k < |deps| && Tracked(w, r, deps[k]) ensures SameAt(w, After(w, r), now, deps[k]) {
      assert deps[k] == InPath(p);
    }
  }

  /** A sample of what unwatched paths do: moc looked for a header in vain, so the manifest cannot name it;
      when the header appears the entry is still used, and serves what moc would no longer produce. */
  lemma LookInVainGoesUnnoticed()
    ensures var w, c, s := Small(), TheCall(), State(WithoutHeader(), map[]);
            var first := Invoked(w, c, s, FINE).0;
            var now := first.files["h" := "HHH"];
            var second := Invoked(w, c, State(now, first.cache), FINE);
            && GoodHash(w) && Adaptive(w) && second.1 == Hit
            && Usable(w, CapturedRun(w, c, s.files)) && Unwatched(w, c, s.files) == map["h" := None]
            && Found(w, second.0.files, "o") == Some("IPP") && OutText(w, UserRun(c, now)) == Some("IHHHPP")
  {
    var c, files := TheCall(), WithoutHeader();
    HashIsGood();
    ProgramsAreAdaptive(Base(), PassOn, OneLook);
    TheCallSays(files);
    HeaderAppears(files);
    VainLeaves(c, files);
    VainIsUnwatched(c, files);
    var now := Left(Small(), c, files)["h" := "HHH"];
    TheCallSays(now);
    InVain(c, files, now);
  }

  lemma VainIsUnwatched(c: Call, files: Files)
    requires Says(c, files) && files == WithoutHeader()
    ensures Usable(Small(), CapturedRun(Small(), c, files)) && Unwatched(Small(), c, files) == map["h" := None]
  {
    FinishesInVain(c, files);
    OneUnwatched(Small(), c, files, "h");
  }

  lemma OneUnwatched(w: World, c: Call, files: Files, path: string)
    requires Usable(w, CapturedRun(w, c, files)) && Traced(w, CapturedRun(w, c, files)).looks == [path]
    requires !IsFile(w, files, path)
    ensures Unwatched(w, c, files) == map[path := None]
  {
    assert path in [path];
  }

  lemma VainIsHashed()
    ensures AllHashed(Small(), WithoutHeader())
  {
  }

  lemma VainIsOrderly(c: Call, files: Files)
    requires Says(c, files) && files == WithoutHeader()
    ensures Orderly(Small(), c, files)
  {
    CallRuns(c, files);
    VainIsHashed();
    ReportsInVain(c, files);
    NamesAreOffTargets();
    SaysOrderly(c, files, ["i", "p"]);
  }

  lemma VainIsReadable(c: Call, files: Files)
    requires Says(c, files) && files == WithoutHeader()
    ensures Readable(Small(), UserRun(c, files))
  {
    var w, r := Small(), UserRun(c, files);
    ReportsInVain(c, files);
    PlainNames();
    StaysFile(w, r, "i");
    ReadableShort(w, r, Request(), "i", "p");
  }

  lemma VainIsUntouched(c: Call, files: Files)
    requires Says(c, files) && files == WithoutHeader()
    ensures SameAt(Small(), files, After(Small(), UserRun(c, files)), "i")
  {
    FinishesInVain(c, files);
    TargetsAre();
    StaysSame(Small(), UserRun(c, files), Request(), "i");
  }

  lemma VainIsStillThere(c: Call, files: Files, now: Files)
    requires Says(c, files) && files == WithoutHeader() && Based(now)
    ensures StillThere(Small(), c, files, now)
  {
    ReportsInVain(c, files);
    VainIsUntouched(c, files);
    RequestPaths();
    StillThereBy(Small(), c, files, now, Request(), "p");
  }

  lemma VainIsStored(c: Call, files: Files)
    requires Says(c, files) && files == WithoutHeader()
    ensures var w, r := Small(), UserRun(c, files);
            !DepFileMissing(w, c, r, FINE) && Result(w, r).code == 0 && OutText(w, r) == Some("IPP")
  {
    FinishesInVain(c, files);
    RequestPaths();
    assert |"o.d"| == 3;
  }

  lemma InVain(c: Call, files: Files, now: Files)
    requires Says(c, files) && Says(c, now) && files == WithoutHeader() && Based(now) && GoodHash(Small())
    ensures var w, s := Small(), State(files, map[]);
            var first := Invoked(w, c, s, FINE).0;
            var second := Invoked(w, c, State(now, first.cache), FINE);
            && second.1 == Hit && Found(w, second.0.files, "o") == Some("IPP")
            && OutText(w, UserRun(c, now)) == Some("IHHHPP")
  {
    var w, s := Small(), State(files, map[]);
    VainIsOrderly(c, files);
    VainIsReadable(c, files);
    VainIsStillThere(c, files, now);
    VainIsStored(c, files);
    RequestPaths();
    TargetsAre();
    FirstMisses(w, c, files);
    LaterRunHits(w, c, s, FINE, now, FINE);
    StaleHit(w, c, s, now);
    NowLeaves(c, now);
  }

  lemma NowLeaves(c: Call, now: Files)
    requires Says(c, now) && Based(now)
    ensures OutText(Small(), UserRun(c, now)) == Some("IHHHPP")
  {
    CallLeaves(c, now);
    RequestPaths();
  }

  lemma HeaderAppears(files: Files)
    requires files == WithoutHeader()
    ensures var vain := map["o.d" := DepFile.Written("o", ["i", "p"]), "o" := "IPP"];
            Based(files + vain + map["h" := "HHH"]) && (files + vain)["h" := "HHH"] == files + vain + map["h" := "HHH"]
  {
    assert |"o.d"| == 3;
  }

  lemma VainLeaves(c: Call, files: Files)
    requires Says(c, files) && files == WithoutHeader()
    ensures Left(Small(), c, files) == files + map["o.d" := DepFile.Written("o", ["i", "p"]), "o" := "IPP"]
    ensures Invoked(Small(), c, State(files, map[]), FINE).0.files == Left(Small(), c, files)
  {
    FinishesInVain(c, files);
    RequestPaths();
    FirstMisses(Small(), c, files);
  }

  /** What a hit on a freshly stored entry leaves is the recorded run's output. */
  lemma StaleHit(w: World, c: Call, s: State, now: Files)
    requires Usable(w, UserRun(c, s.files)) && Capturable(w, c, s.files)
    requires Result(w, CapturedRun(w, c, s.files)).code == 0 && !DepFileMissing(w, c, CapturedRun(w, c, s.files), FINE)
    requires StillThere(w, c, s.files, now) && OutputsApart(w, Asked(w, UserRun(c, now)))
    requires var next := MissFrom(w, c, Key(w, UserRun(c, s.files)), s, FINE).0;
             Invoked(w, c, State(now, next.cache), FINE).1 == Hit
    ensures var next := MissFrom(w, c, Key(w, UserRun(c, s.files)), s, FINE).0;
            Found(w, Invoked(w, c, State(now, next.cache), FINE).0.files, OutPath(Asked(w, UserRun(c, now)))) ==
            OutText(w, CapturedRun(w, c, s.files))
  {
    var u, key := UserRun(c, s.files), Key(w, UserRun(c, s.files));
    var next := MissFrom(w, c, key, s, FINE).0;
    MissStores(w, c, key, s, FINE);
    KeyFrame(w, u, now);
    CaptureKeepsKey(w, c, s.files);
    SuccessWrites(w, CapturedRun(w, c, s.files));
    StoredWhole(w, CapturedRun(w, c, s.files), PartsAt(s.cache, key), None);
    var deps := InvokedHits(w, c, State(now, next.cache), FINE);
    HitFiles(w, Asked(w, UserRun(c, now)), now, PartsAt(next.cache, key), deps);
  }

  // ---- a miss and then a hit ----

  /** After the call, its key is trusted and nothing it was trusted for has changed. */
  ghost predicate Trusts(w: World, s: State, c: Call, now: Files) {
    && Usable(w, UserRun(c, now))
    && var key, trusted := Key(w, UserRun(c, now)), Trusted(w, s, [Invoke(c, FINE)]);
    key in trusted && AsThen(w, now, trusted[key])
  }

  /** The assumptions are met here and used: the same call twice is a miss and a hit, its key is trusted,
      it is proper both times, and the hit leaves all three texts in the output. */
  lemma SecondCallHits()
    ensures var w, s := Small(), State(TheFiles(), map[]);
            var first := Invoked(w, TheCall(), s, FINE);
            var second := Invoked(w, TheCall(), first.0, FINE);
            && GoodHash(w) && Adaptive(w) && Proper(w, TheCall(), s.files) && Proper(w, TheCall(), first.0.files)
            && first.1 == RealRun(0) && second.1 == Hit && Trusts(w, s, TheCall(), first.0.files)
            && Found(w, second.0.files, "o") == Some("IHHHPP")
  {
    var w, c, files := Small(), TheCall(), TheFiles();
    HashIsGood();
    ProgramsAreAdaptive(Base(), PassOn, OneLook);
    StillBased(files);
    TheCallSays(files);
    TheCallSays(files + TheWrites());
    TwoCalls(c, files);
  }

  lemma BothAreProper(c: Call, files: Files)
    requires Says(c, files) && Says(c, files + TheWrites()) && Based(files) && AllHashed(Small(), files)
    requires GoodHash(Small())
    ensures Based(files + TheWrites()) && AllHashed(Small(), files + TheWrites())
    ensures var w := Small();
            && Proper(w, c, files) && Proper(w, c, files + TheWrites()) && Orderly(w, c, files)
            && Usable(w, CapturedRun(w, c, files)) && Unwatched(w, c, files) == map[]
            && Result(w, UserRun(c, files)) == Ran(0, TheWrites())
            && !DepFileMissing(w, c, CapturedRun(w, c, files), FINE)
  {
    StillBased(files);
    CallIsProper(c, files);
    CallIsProper(c, files + TheWrites());
    CallIsOrderly(c, files);
    CallIsWatched(c, files);
    CallLeaves(c, files);
    NothingMissing(c, files);
  }

  lemma TwoCalls(c: Call, files: Files)
    requires Says(c, files) && Says(c, files + TheWrites()) && Based(files) && AllHashed(Small(), files)
    requires GoodHash(Small()) && Adaptive(Small())
    ensures var w, s := Small(), State(files, map[]);
            var first := Invoked(w, c, s, FINE);
            var second := Invoked(w, c, first.0, FINE);
            && Proper(w, c, s.files) && Proper(w, c, first.0.files)
            && first.1 == RealRun(0) && second.1 == Hit && Trusts(w, s, c, first.0.files)
            && Found(w, second.0.files, "o") == Some("IHHHPP")
  {
    BothAreProper(c, files);
    CallIsReadable(c, files);
    NothingMissing(c, files);
    ServedTwice(Small(), c, files, files + TheWrites());
    OutIs(c, files + TheWrites());
  }

  lemma OutIs(c: Call, files: Files)
    requires Says(c, files) && Based(files)
    ensures OutText(Small(), UserRun(c, files)) == Some("IHHHPP") && OutPath(Asked(Small(), UserRun(c, files))) == "o"
  {
    CallLeaves(c, files);
    RequestPaths();
  }

  /** A clean first call from an empty cache, and the same call on what it left. */
  lemma ServedTwice(w: World, c: Call, files: Files, left: Files)
    requires GoodHash(w) && Adaptive(w) && Proper(w, c, files) && Proper(w, c, left) && Left(w, c, files) == left
    requires Orderly(w, c, files) && Usable(w, CapturedRun(w, c, files)) && Unwatched(w, c, files) == map[]
    requires Result(w, CapturedRun(w, c, files)).code == 0 && !DepFileMissing(w, c, CapturedRun(w, c, files), FINE)
    requires Readable(w, CapturedRun(w, c, files))
    ensures var s := State(files, map[]);
            var first := Invoked(w, c, s, FINE);
            var second := Invoked(w, c, first.0, FINE);
            && first.1 == RealRun(0) && first.0.files == left && second.1 == Hit && Trusts(w, s, c, left)
            && Delivers(w, UserRun(c, left), second.0.files)
  {
    var s := State(files, map[]);
    FirstMisses(w, c, files);
    NextRunHits(w, c, s, FINE, FINE);
    LeftStillThere(w, c, files);
    StillThereNow(w, c, files, left);
    OneCleanStep(w, s, c, left);
    Delivered(w, c, s, left);
  }

  lemma StillThereNow(w: World, c: Call, files: Files, left: Files)
    requires Usable(w, UserRun(c, files)) && StillThere(w, c, files, left)
    ensures Usable(w, UserRun(c, left)) && Key(w, UserRun(c, left)) == Key(w, UserRun(c, files))
  {
    KeyFrame(w, UserRun(c, files), left);
  }

  lemma OneTrusted(w: World, s: State, c: Call)
    requires Stores(w, c, s, FINE) && CleanStore(w, c, s, FINE)
    ensures Trusted(w, s, [Invoke(c, FINE)]) == map[Key(w, UserRun(c, s.files)) := Unwatched(w, c, MissFiles(w, c, s, FINE))]
    ensures RunOf(w, s, [Invoke(c, FINE)]) == Invoked(w, c, s, FINE).0
  {
    OneStep(w, s, Invoke(c, FINE));
    TrustingIs(w, c, s, FINE, map[]);
  }

  lemma OneStep(w: World, s: State, op: Op)
    ensures Trusted(w, s, [op]) == Trusting(w, s, op, map[]) && RunOf(w, s, [op]) == Step(w, s, op)
  {
    assert [op][..0] == [];
  }

  lemma OneIsClean(w: World, s: State, c: Call)
    requires Proper(w, c, s.files) && Orderly(w, c, s.files) && MissFiles(w, c, s, FINE) == s.files
    ensures CleanStore(w, c, s, FINE)
  {
  }

  lemma OneCleanStep(w: World, s: State, c: Call, left: Files)
    requires Proper(w, c, s.files) && Orderly(w, c, s.files) && MissFiles(w, c, s, FINE) == s.files
    requires Unwatched(w, c, s.files) == map[] && Stores(w, c, s, FINE)
    requires Usable(w, UserRun(c, left)) && Key(w, UserRun(c, left)) == Key(w, UserRun(c, s.files))
    ensures Trusts(w, s, c, left) && RunOf(w, s, [Invoke(c, FINE)]) == Invoked(w, c, s, FINE).0
  {
    OneIsClean(w, s, c);
    OneTrusted(w, s, c);
  }

  lemma Delivered(w: World, c: Call, s: State, left: Files)
    requires s.cache == map[] && RunOf(w, s, [Invoke(c, FINE)]) == Invoked(w, c, s, FINE).0
    requires Trusts(w, s, c, left) && GoodHash(w) && Adaptive(w)
    requires Invoked(w, c, s, FINE).0.files == left && Proper(w, c, left)
    requires Invoked(w, c, Invoked(w, c, s, FINE).0, FINE).1 == Hit
    ensures Delivers(w, UserRun(c, left), Invoked(w, c, Invoked(w, c, s, FINE).0, FINE).0.files)
  {
    Transparent(w, s.files, [Invoke(c, FINE)], c, FINE);
  }
}
