/** What surrounds the cache: a file system, moc programs, hashing, and the key computed from them. */
module MocWorld {
  import opened Common
  import opened Text
  import Args
  import ArgsTold
  import Basedir
  import CacheKey
  import DepFile
  import Manifest

  /** Contents by resolved path. */
  type Files = map<string, string>

  /** One run of a moc program: its exit code and the files it wrote. */
  datatype Ran = Ran(code: int, writes: Files)

  /** What moc is given before it looks at any other file: its identity, what its command line tells it, the
      input's text, its path relative to the output, and the texts of the force-included files. */
  datatype Given = Given(tool: string, told: seq<seq<string>>, input: string, relpath: string, forced: seq<Option<string>>)

  /** How moc ends: with an output and a JSON text, or in failure, leaving whatever it leaves. */
  datatype End = Finish(output: string, json: string) | Fail(code: int, leaves: Files)

  /** The paths moc looks at, in order, each chosen after seeing what the earlier ones held, and its end. */
  datatype Trace = Trace(looks: seq<string>, end: End)

  /**
   `moc` stands for the moc programs, `other` for what they do with a line that is not cached, `report` for
   the text of the dep file they write. `resolve` resolves a path, `relpath` gives a path relative to an
   output's directory, and `hashed` holds of the texts that are hashed at all.
   */
  datatype World = World(moc: (Given, Files) -> Trace, other: (string, seq<string>, Files) -> Ran,
                         report: (string, seq<string>) -> string, resolve: string -> string,
                         relpath: (string, string) -> string, sha: string -> string,
                         basedir: string, hashed: string -> bool)

  /** A moc program, its command line, and the files it finds. */
  datatype Run = Run(tool: string, argv: seq<string>, files: Files)

  predicate IsFile(w: World, files: Files, path: string) {
    w.resolve(path) in files
  }

  function Read(w: World, files: Files, path: string): string
    requires IsFile(w, files, path)
  {
    files[w.resolve(path)]
  }

  function Found(w: World, files: Files, path: string): Option<string> {
    if IsFile(w, files, path) then Some(Read(w, files, path)) else None
  }

  predicate SameAt(w: World, a: Files, b: Files, path: string) {
    Found(w, a, path) == Found(w, b, path)
  }

  // ---- the base directory ----

  function Spelling(w: World): (s: seq<string>)
    ensures Basedir.Spellings(s)
  {
    if w.basedir == [] then [] else [w.basedir]
  }

  function Normal(w: World, s: string): string {
    Basedir.Normalized(s, Spelling(w))
  }

  function Normals(w: World, s: seq<string>): (n: seq<string>)
    ensures |n| == |s| && forall k :: 0 <= k < |n| ==> n[k] == Normal(w, s[k])
  {
    seq(|s|, k requires 0 <= k < |s| => Normal(w, s[k]))
  }

  lemma {:induction false} NothingToRename(s: string)
    ensures Basedir.Normalized(s, []) == s
  {
    if s != [] {
      NothingToRename(s[1..]);
    }
  }

  /** A base directory can be renamed in it and back: there is none, or the text does not hold the token. */
  ghost predicate Renamable(w: World, s: string) {
    w.basedir == [] || !Occurs(Basedir.TOKEN, s)
  }

  lemma NormalIsReversible(w: World, s: string)
    requires Renamable(w, s)
    ensures Basedir.Denormalized(Normal(w, s), w.basedir) == s
  {
    if w.basedir == [] {
      NothingToRename(s);
    } else {
      Basedir.Reversible(s, w.basedir);
    }
  }

  lemma NormalsAreInjective(w: World, a: seq<string>, b: seq<string>)
    requires Normals(w, a) == Normals(w, b)
    requires forall k :: 0 <= k < |a| ==> Renamable(w, a[k])
    requires forall k :: 0 <= k < |b| ==> Renamable(w, b[k])
    ensures a == b
  {
    forall k | 0 <= k < |a| ensures a[k] == b[k] {
      assert Normals(w, a)[k] == Normals(w, b)[k];
      NormalIsReversible(w, a[k]);
      NormalIsReversible(w, b[k]);
    }
  }

  // ---- what a command line asks for ----

  /** A force-included file is known by its content, with the base directory in it renamed. */
  function ContentId(w: World, files: Files, path: string): string {
    if IsFile(w, files, path) then w.sha(Normal(w, Read(w, files, path))) else path
  }

  function Ids(w: World, files: Files): string -> string {
    path => ContentId(w, files, path)
  }

  function Asked(w: World, r: Run): Args.Parsed {
    Args.Meaning(Args.Split(r.argv), Ids(w, r.files))
  }

  function OrEmpty(s: Option<string>): string {
    if s.Some? then s.value else ""
  }

  function OutPath(p: Args.Parsed): string { OrEmpty(p.output) }

  function InPath(p: Args.Parsed): string { OrEmpty(p.Input()) }

  function DepPath(p: Args.Parsed): string {
    if OrEmpty(p.depPath) != "" then OrEmpty(p.depPath) else OutPath(p) + ".d"
  }

  function JsonPath(p: Args.Parsed): string { OutPath(p) + ".json" }

  /** Only a run with an output and an existing input is cached; any other is handed to moc as it is. */
  predicate Usable(w: World, r: Run) {
    var p := Asked(w, r);
    OutPath(p) != "" && InPath(p) != "" && IsFile(w, r.files, InPath(p))
  }

  // ---- the key ----

  function KeyParts(w: World, r: Run): seq<string>
    requires Usable(w, r)
  {
    var p := Asked(w, r);
    [r.tool] + Normals(w, p.hashable) + [w.sha(Read(w, r.files, InPath(p))), w.relpath(InPath(p), OutPath(p))]
  }

  function KeyText(w: World, r: Run): string
    requires Usable(w, r)
  {
    CacheKey.Terminated(KeyParts(w, r))
  }

  function Key(w: World, r: Run): string
    requires Usable(w, r)
  {
    w.sha(KeyText(w, r))
  }

  // ---- what moc does ----

  function Forced(w: World, r: Run): (texts: seq<Option<string>>)
    ensures var paths := Asked(w, r).includes;
            |texts| == |paths| && forall k :: 0 <= k < |paths| ==> texts[k] == Found(w, r.files, paths[k])
  {
    var paths := Asked(w, r).includes;
    seq(|paths|, k requires 0 <= k < |paths| => Found(w, r.files, paths[k]))
  }

  function GivenTo(w: World, r: Run): Given
    requires Usable(w, r)
  {
    var p := Asked(w, r);
    Given(r.tool, ArgsTold.AllTold(Args.Split(r.argv)), Read(w, r.files, InPath(p)), w.relpath(InPath(p), OutPath(p)),
          Forced(w, r))
  }

  function Traced(w: World, r: Run): Trace
    requires Usable(w, r)
  {
    w.moc(GivenTo(w, r), r.files)
  }

  function Existing(w: World, files: Files, paths: seq<string>): seq<string> {
    if paths == [] then []
    else (if IsFile(w, files, paths[0]) then [paths[0]] else []) + Existing(w, files, paths[1..])
  }

  /** moc's own: a dep file if asked for, listing the input, the force-included files and the files found by
      looking, at its path or beside the output; JSON if asked for, beside the output; and the output. */
  function Outputs(w: World, r: Run, looks: seq<string>, output: string, json: string): Files {
    var p := Asked(w, r);
    var out := OrEmpty(p.output);
    var dep := if OrEmpty(p.depPath) == "" then out + ".d" else OrEmpty(p.depPath);
    var listed := [OrEmpty(p.Input())] + p.includes + Existing(w, r.files, looks);
    (if p.wantsDep then map[w.resolve(dep) := w.report(out, listed)] else map[])
    + (if p.wantsJson then map[w.resolve(out + ".json") := json] else map[])
    + map[w.resolve(out) := output]
  }

  function Result(w: World, r: Run): Ran {
    if !Usable(w, r) then w.other(r.tool, r.argv, r.files)
    else
      match Traced(w, r).end
      case Fail(code, leaves) => Ran(if code == 0 then 1 else code, leaves)
      case Finish(output, json) => Ran(0, Outputs(w, r, Traced(w, r).looks, output, json))
  }

  function After(w: World, r: Run): Files {
    r.files + Result(w, r).writes
  }

  function OutText(w: World, r: Run): Option<string> {
    Found(w, After(w, r), OutPath(Asked(w, r)))
  }

  function JsonText(w: World, r: Run): Option<string> {
    Found(w, After(w, r), JsonPath(Asked(w, r)))
  }

  /** Reading a text makes every line end a line feed. */
  function Translated(text: string): string {
    Replaced(Replaced(text, "\r\n", "\n"), "\r", "\n")
  }

  /** The dependencies a run reports. */
  function Reported(w: World, r: Run): seq<string> {
    DepFile.Parsed(Translated(OrEmpty(Found(w, After(w, r), DepPath(Asked(w, r))))))
  }

  predicate Includes(w: World, p: Args.Parsed, path: string) {
    exists k :: 0 <= k < |p.includes| && w.resolve(p.includes[k]) == w.resolve(path)
  }

  /** A reported file is tracked by its path, unless it is force-included and so known by its content. */
  predicate Tracked(w: World, r: Run, dep: string) {
    IsFile(w, After(w, r), dep) && !Includes(w, Asked(w, r), dep)
  }

  /** The manifest entry of one reported file, if it is tracked. */
  function EntryFor(w: World, r: Run, dep: string): seq<Manifest.Entry> {
    if Tracked(w, r, dep) then [Manifest.Entry(Normal(w, dep), w.sha(Read(w, After(w, r), dep)))] else []
  }

  function Entries(w: World, r: Run, deps: seq<string>): seq<Manifest.Entry> {
    if deps == [] then [] else EntryFor(w, r, deps[0]) + Entries(w, r, deps[1..])
  }

  // ---- what is taken of moc and of hashing ----

  ghost predicate SameAnswers(w: World, looks: seq<string>, a: Files, b: Files) {
    forall k :: 0 <= k < |looks| ==> SameAt(w, a, b, looks[k])
  }

  /** moc is a deterministic reader: on files that answer every look alike it does the same again. */
  ghost predicate Adaptive(w: World) {
    forall given: Given, a: Files, b: Files {:trigger SameAnswers(w, w.moc(given, a).looks, a, b)} ::
      SameAnswers(w, w.moc(given, a).looks, a, b) ==> w.moc(given, b) == w.moc(given, a)
  }

  /** Hashes are lower-case hexadecimal, and no two texts that get hashed collide. */
  ghost predicate GoodHash(w: World) {
    && (forall s: string {:trigger w.sha(s)} :: Manifest.IsDigest(w.sha(s)))
    && (forall s: string, t: string {:trigger w.sha(s), w.sha(t)} ::
          w.hashed(s) && w.hashed(t) && w.sha(s) == w.sha(t) ==> s == t)
  }

  /** Output, JSON and dep file have paths of their own. */
  predicate OutputsApart(w: World, p: Args.Parsed) {
    && w.resolve(OutPath(p)) != w.resolve(JsonPath(p)) && w.resolve(DepPath(p)) != w.resolve(OutPath(p))
    && w.resolve(DepPath(p)) != w.resolve(JsonPath(p))
  }

  /** The paths a request has written. */
  function Targets(w: World, p: Args.Parsed): set<string> {
    {w.resolve(OutPath(p)), w.resolve(JsonPath(p)), w.resolve(DepPath(p))}
  }

  lemma OutputsHold(w: World, r: Run, looks: seq<string>, output: string, json: string)
    ensures var p, writes := Asked(w, r), Outputs(w, r, looks, output, json);
            var out, aside := w.resolve(OutPath(p)), w.resolve(JsonPath(p));
            && out in writes && writes[out] == output && writes.Keys <= Targets(w, p)
            && (p.wantsJson ==> aside in writes && (aside != out ==> writes[aside] == json))
  {
  }

  /** A success leaves an output, and a JSON text when asked for it, and writes nothing but its targets. */
  lemma SuccessWrites(w: World, r: Run)
    requires Usable(w, r) && Result(w, r).code == 0
    ensures OutText(w, r).Some? && (Asked(w, r).wantsJson ==> JsonText(w, r).Some?)
    ensures Result(w, r).writes.Keys <= Targets(w, Asked(w, r))
  {
    var t := Traced(w, r);
    OutputsHold(w, r, t.looks, t.end.output, t.end.json);
  }

  lemma FinishLeaves(w: World, r: Run)
    requires Usable(w, r) && OutputsApart(w, Asked(w, r)) && Traced(w, r).end.Finish?
    ensures Result(w, r).code == 0 && OutText(w, r) == Some(Traced(w, r).end.output)
    ensures Asked(w, r).wantsJson ==> JsonText(w, r) == Some(Traced(w, r).end.json)
  {
    var t := Traced(w, r);
    OutputsHold(w, r, t.looks, t.end.output, t.end.json);
  }

  /** The same start and the same answers give the same output and JSON, wherever these are put. */
  lemma SameReading(w: World, r: Run, q: Run)
    requires Adaptive(w) && Usable(w, r) && Usable(w, q) && GivenTo(w, r) == GivenTo(w, q)
    requires SameAnswers(w, Traced(w, r).looks, r.files, q.files) && Result(w, r).code == 0
    requires OutputsApart(w, Asked(w, r)) && OutputsApart(w, Asked(w, q))
    requires Asked(w, r).wantsJson == Asked(w, q).wantsJson
    ensures SameResult(w, r, q)
  {
    assert Traced(w, q) == Traced(w, r);
    FinishLeaves(w, r);
    FinishLeaves(w, q);
  }

  ghost predicate SameResult(w: World, r: Run, q: Run) {
    && Result(w, q).code == 0 && OutText(w, q) == OutText(w, r)
    && (Asked(w, r).wantsJson && Asked(w, q).wantsJson ==> JsonText(w, q) == JsonText(w, r))
  }

  // ---- well-formed command lines ----

  predicate CleanWord(word: string) {
    Free(word, '\0')
  }

  /** A word an operating system can pass, in which the base directory can be renamed and back. */
  ghost predicate Passable(w: World, word: string) {
    CleanWord(word) && Renamable(w, word)
  }

  ghost predicate AllPassable(w: World, words: seq<string>) {
    forall k :: 0 <= k < |words| ==> Passable(w, words[k])
  }

  lemma DigestIsPassable(w: World, d: string)
    requires Manifest.IsDigest(d)
    ensures Passable(w, d)
  {
    forall i | 0 <= i < |d| ensures d[i] != '\0' && d[i] != '<' {
    }
    if i :| 0 <= i <= |d| && Basedir.TOKEN <= d[i..] {
      assert Basedir.TOKEN[0] == '<' == d[i..][0] == d[i];
    }
  }

  lemma WordsArePassable(w: World, r: Run)
    requires GoodHash(w) && AllPassable(w, r.argv)
    ensures AllPassable(w, Asked(w, r).hashable)
  {
    var good: string -> bool := word => Passable(w, word);
    Args.SplitReadable(r.argv);
    forall word | good(word) ensures good(Ids(w, r.files)(word)) {
      if IsFile(w, r.files, word) {
        DigestIsPassable(w, w.sha(Normal(w, Read(w, r.files, word))));
      }
    }
    Args.HashableAll(Args.Split(r.argv), Ids(w, r.files), good);
    var hashable := Asked(w, r).hashable;
    forall k | 0 <= k < |hashable| ensures Passable(w, hashable[k]) {
      assert good(hashable[k]);
    }
  }

  lemma PartsAreNulFree(w: World, r: Run)
    requires GoodHash(w) && Usable(w, r) && AllPassable(w, r.argv) && CleanWord(r.tool)
    requires CleanWord(w.relpath(InPath(Asked(w, r)), OutPath(Asked(w, r))))
    ensures CacheKey.NulFree(KeyParts(w, r))
  {
    var hashable := Asked(w, r).hashable;
    WordsArePassable(w, r);
    forall k | 0 <= k < |hashable| ensures Free(Normals(w, hashable)[k], '\0') {
      assert Passable(w, hashable[k]);
      assert Free(Basedir.TOKEN, '\0');
      Basedir.NormalizedStaysFree(hashable[k], Spelling(w), '\0');
    }
    DigestIsPassable(w, w.sha(Read(w, r.files, InPath(Asked(w, r)))));
  }

  /** A force-included path is hashed by content without doubt: its text is among the hashed ones, or it is
      no file, and then not named like a digest. */
  ghost predicate Identifiable(w: World, files: Files, path: string) {
    if IsFile(w, files, path) then
      Renamable(w, Read(w, files, path)) && w.hashed(Normal(w, Read(w, files, path)))
    else !Manifest.IsDigest(path)
  }

  ghost predicate AllIdentifiable(w: World, files: Files, paths: seq<string>) {
    forall k :: 0 <= k < |paths| ==> Identifiable(w, files, paths[k])
  }

  /** Runs a cache key can be computed for without ambiguity. */
  ghost predicate Keyable(w: World, r: Run) {
    && ArgsTold.LooseEnd(r.argv).None?
    && Usable(w, r) && AllPassable(w, r.argv) && CleanWord(r.tool) && w.hashed(KeyText(w, r))
    && CleanWord(w.relpath(InPath(Asked(w, r)), OutPath(Asked(w, r))))
    && w.hashed(Read(w, r.files, InPath(Asked(w, r)))) && AllIdentifiable(w, r.files, Asked(w, r).includes)
  }

  /** Equal keys mean equal key parts. */
  lemma SameKeySameParts(w: World, r: Run, q: Run)
    requires GoodHash(w) && Keyable(w, r) && Keyable(w, q) && Key(w, r) == Key(w, q)
    ensures KeyParts(w, r) == KeyParts(w, q)
  {
    PartsAreNulFree(w, r);
    PartsAreNulFree(w, q);
    assert KeyText(w, r) == KeyText(w, q);
    CacheKey.TerminatedIsInjective(KeyParts(w, r), KeyParts(w, q));
  }

  /** And so the same words before rewriting, and the same input file and wish for JSON. */
  lemma SamePartsSameRequest(w: World, r: Run, q: Run)
    requires GoodHash(w) && Keyable(w, r) && Keyable(w, q) && KeyParts(w, r) == KeyParts(w, q)
    ensures Asked(w, r).hashable == Asked(w, q).hashable && Asked(w, r).wantsJson == Asked(w, q).wantsJson
    ensures InPath(Asked(w, r)) == InPath(Asked(w, q))
    ensures Args.Identities(Asked(w, r).includes, Ids(w, r.files)) == Args.Identities(Asked(w, q).includes, Ids(w, q.files))
  {
    var a, b := Asked(w, r).hashable, Asked(w, q).hashable;
    var n := |KeyParts(w, r)| - 2;
    assert Normals(w, a) == KeyParts(w, r)[1..n] && Normals(w, b) == KeyParts(w, q)[1..n];
    WordsArePassable(w, r);
    WordsArePassable(w, q);
    NormalsAreInjective(w, a, b);
    Args.SameKeySameRequest(r.argv, q.argv, Ids(w, r.files), Ids(w, q.files));
  }

  /** Equal identities of force-included paths stand for equal texts. */
  lemma SameIdentitySameText(w: World, a: Files, b: Files, p: string, q: string)
    requires GoodHash(w) && Identifiable(w, a, p) && Identifiable(w, b, q)
    requires ContentId(w, a, p) == ContentId(w, b, q)
    ensures Found(w, a, p) == Found(w, b, q)
  {
    if IsFile(w, a, p) && IsFile(w, b, q) {
      NormalIsReversible(w, Read(w, a, p));
      NormalIsReversible(w, Read(w, b, q));
    }
  }

  /** Equal keys mean that moc is given the same: told the same by its line, and the same texts, not just digests. */
  lemma SameKeySameGiven(w: World, r: Run, q: Run)
    requires GoodHash(w) && Keyable(w, r) && Keyable(w, q) && Key(w, r) == Key(w, q)
    ensures GivenTo(w, r) == GivenTo(w, q) && Asked(w, r).wantsJson == Asked(w, q).wantsJson
  {
    SameKeySameParts(w, r, q);
    SamePartsSameRequest(w, r, q);
    ArgsTold.SameKeyTellsSame(r.argv, q.argv, Ids(w, r.files), Ids(w, q.files));
    LastParts(w, r);
    LastParts(w, q);
    var a, b := Asked(w, r).includes, Asked(w, q).includes;
    var ids := Args.Identities(a, Ids(w, r.files));
    forall k | 0 <= k < |a| ensures Forced(w, r)[k] == Forced(w, q)[k] {
      assert ids[k] == ContentId(w, r.files, a[k]) == ContentId(w, q.files, b[k]);
      SameIdentitySameText(w, r.files, q.files, a[k], b[k]);
    }
  }

  lemma LastParts(w: World, r: Run)
    requires Usable(w, r)
    ensures var parts, p := KeyParts(w, r), Asked(w, r);
            && |parts| > 2 && parts[0] == r.tool && parts[|parts| - 2] == w.sha(Read(w, r.files, InPath(p)))
            && parts[|parts| - 1] == w.relpath(InPath(p), OutPath(p))
  {
  }

  // ---- what the key does not depend on ----

  /** A run that finds the input and the force-included files as they were has the same key and start. */
  lemma KeyFrame(w: World, r: Run, files: Files)
    requires Usable(w, r) && SameAt(w, r.files, files, InPath(Asked(w, r)))
    requires forall k :: 0 <= k < |Asked(w, r).includes| ==> SameAt(w, r.files, files, Asked(w, r).includes[k])
    ensures var q := r.(files := files);
            && Usable(w, q) && Asked(w, q) == Asked(w, r) && KeyParts(w, q) == KeyParts(w, r)
            && GivenTo(w, q) == GivenTo(w, r) && (Keyable(w, r) ==> Keyable(w, q))
  {
    var q, args := r.(files := files), Args.Split(r.argv);
    var idA, idB := Ids(w, r.files), Ids(w, files);
    forall k | 0 <= k < |Args.Values(args, Args.IncludeOption)|
      ensures idA(Args.Values(args, Args.IncludeOption)[k]) == idB(Args.Values(args, Args.IncludeOption)[k])
    {
      assert Args.Values(args, Args.IncludeOption)[k] == Asked(w, r).includes[k];
      assert SameAt(w, r.files, files, Asked(w, r).includes[k]);
    }
    Args.SameIdentitiesSameWords(args, idA, idB);
    assert Asked(w, q) == Asked(w, r);
    assert Forced(w, q) == Forced(w, r);
    forall k | 0 <= k < |Asked(w, r).includes| && Keyable(w, r) ensures Identifiable(w, files, Asked(w, r).includes[k]) {
      assert Identifiable(w, r.files, Asked(w, r).includes[k]);
      assert SameAt(w, r.files, files, Asked(w, r).includes[k]);
    }
  }

  /** A loose end does not show in the key: the line with it and the line without share one, though moc is told
      different things. */
  lemma LooseEndSharesKey(w: World, r: Run, end: string)
    requires Args.Complete(r.argv) && Usable(w, r) && end in ["-o", "--output", "--dep-file-path", "--include"]
    ensures var q := r.(argv := r.argv + [end]);
            && ArgsTold.LooseEnd(q.argv) == Some(end) && Usable(w, q)
            && KeyParts(w, q) == KeyParts(w, r) && GivenTo(w, q).told != GivenTo(w, r).told
  {
    ArgsTold.LooseEndIsNotKeyed(r.argv, end, Ids(w, r.files));
    assert |GivenTo(w, r.(argv := r.argv + [end])).told| == |GivenTo(w, r).told| + 1;
  }
}
