/** One invocation of the caching launcher: a hit copies stored results out, a miss runs moc and stores. */
module MocCache {
  import opened Common
  import opened MocWorld
  import Args
  import Basedir
  import DepFile
  import Manifest

  /** An entry's directory; trimming and failed writes can leave any of its files missing. */
  datatype Parts = Parts(manifest: Option<string>, output: Option<string>, json: Option<string>)

  type Cache = map<string, Parts>

  datatype State = State(files: Files, cache: Cache)

  /** What the launcher is called with; `tmp` is the fresh file it may need for moc's dep file. */
  datatype Call = Call(tool: string, argv: seq<string>, tmp: string)

  /** What the file system does to an invocation: copying a hit out stops after some writes, the dep file
      cannot be read, storing stops after some writes. */
  datatype Faults = Faults(copyStops: Option<nat>, depUnreadable: bool, storeStops: Option<nat>)

  /** `RealRun` is a run of moc itself with its exit code, cached or not. */
  datatype Outcome = Hit | RealRun(code: int)

  function UserRun(c: Call, files: Files): Run {
    Run(c.tool, c.argv, files)
  }

  /** What a miss runs: the dep file is asked for when the caller did not. */
  function CapturedRun(w: World, c: Call, files: Files): Run {
    if Asked(w, UserRun(c, files)).wantsDep then UserRun(c, files)
    else Run(c.tool, c.argv + Args.DepRequest(c.tmp), files)
  }

  // ---- looking an entry up ----

  predicate Holds(w: World, files: Files, dep: string, hash: string) {
    IsFile(w, files, dep) && w.sha(Read(w, files, dep)) == hash
  }

  /** The dependencies of a manifest whose lines are all well formed and whose files are all unchanged. */
  function Checked(w: World, files: Files, lines: seq<string>): Option<seq<string>> {
    if lines == [] then Some([])
    else
      match Manifest.ReadLine(lines[0])
      case None => None
      case Some(e) =>
        var dep := Basedir.Denormalized(e.dep, w.basedir);
        if !Holds(w, files, dep, e.hash) then None
        else
          match Checked(w, files, lines[1..])
          case None => None
          case Some(rest) => Some([dep] + rest)
  }

  function PartsAt(cache: Cache, key: string): Parts {
    if key in cache then cache[key] else Parts(None, None, None)
  }

  predicate Present(parts: Parts, wantsJson: bool) {
    parts.manifest.Some? && parts.output.Some? && (wantsJson ==> parts.json.Some?)
  }

  function Lookup(w: World, r: Run, parts: Parts): Option<seq<string>> {
    if Present(parts, Asked(w, r).wantsJson) then Checked(w, r.files, Manifest.SplitLines(parts.manifest.value)) else None
  }

  // ---- serving a hit ----

  /** Without repetitions, each path where it first stands. */
  function FirstsOnly(paths: seq<string>): seq<string> {
    if paths == [] then []
    else
      var before := FirstsOnly(paths[..|paths| - 1]);
      if paths[|paths| - 1] in before then before else before + [paths[|paths| - 1]]
  }

  /** The dep file of a hit is made afresh for this tree. */
  function DepText(p: Args.Parsed, deps: seq<string>): string {
    DepFile.Written(OutPath(p), FirstsOnly([InPath(p)] + p.includes + deps))
  }

  /** The files a hit writes, in order. */
  function HitWrites(p: Args.Parsed, parts: Parts, deps: seq<string>): seq<(string, string)>
    requires Present(parts, p.wantsJson)
  {
    [(OutPath(p), parts.output.value)]
    + (if p.wantsDep then [(DepPath(p), DepText(p, deps))] else [])
    + (if p.wantsJson then [(JsonPath(p), parts.json.value)] else [])
  }

  function Wrote(w: World, files: Files, writes: seq<(string, string)>): Files {
    if writes == [] then files
    else Wrote(w, files, writes[..|writes| - 1])[w.resolve(writes[|writes| - 1].0) := writes[|writes| - 1].1]
  }

  // ---- storing a miss ----

  predicate DepFileMissing(w: World, c: Call, r: Run, faults: Faults) {
    faults.depUnreadable || (Asked(w, UserRun(c, r.files)).wantsDep && !IsFile(w, After(w, r), DepPath(Asked(w, r))))
  }

  function ManifestOf(w: World, r: Run): string {
    Manifest.Written(Entries(w, r, Reported(w, r)))
  }

  predicate Allows(stops: Option<nat>, n: nat) {
    stops.None? || n < stops.value
  }

  /** Output first, then the JSON if there is one, then the manifest; a failed write ends the storing. */
  function StoredParts(before: Parts, output: Option<string>, json: Option<string>, manifest: string, stops: Option<nat>)
    : Parts
  {
    if output.None? || !Allows(stops, 0) then before
    else
      var first := before.(output := output);
      if json.None? then
        if Allows(stops, 1) then first.(manifest := Some(manifest)) else first
      else if !Allows(stops, 1) then first
      else
        var second := first.(json := json);
        if Allows(stops, 2) then second.(manifest := Some(manifest)) else second
  }

  function Stored(w: World, r: Run, before: Parts, stops: Option<nat>): Parts {
    var json := if Asked(w, r).wantsJson then JsonText(w, r) else None;
    StoredParts(before, OutText(w, r), json, ManifestOf(w, r), stops)
  }

  /** The files a real run leaves once the temporary dep file is taken away. */
  function Left(w: World, c: Call, files: Files): Files {
    var after := After(w, CapturedRun(w, c, files));
    if Asked(w, UserRun(c, files)).wantsDep then after else after - {w.resolve(c.tmp)}
  }

  function MissFrom(w: World, c: Call, key: string, s: State, faults: Faults): (State, Outcome) {
    var r := CapturedRun(w, c, s.files);
    var kept := Left(w, c, s.files);
    if Result(w, r).code != 0 || DepFileMissing(w, c, r, faults) then
      (State(kept, s.cache), RealRun(Result(w, r).code))
    else
      (State(kept, s.cache[key := Stored(w, r, PartsAt(s.cache, key), faults.storeStops)]), RealRun(0))
  }

  // ---- the invocation ----

  function Invoked(w: World, c: Call, s: State, faults: Faults): (State, Outcome) {
    var r := UserRun(c, s.files);
    var p := Asked(w, r);
    if !Usable(w, r) then
      (State(After(w, r), s.cache), RealRun(Result(w, r).code))
    else
      var parts := PartsAt(s.cache, Key(w, r));
      match Lookup(w, r, parts)
      case None => MissFrom(w, c, Key(w, r), s, faults)
      case Some(deps) =>
        var writes := HitWrites(p, parts, deps);
        if faults.copyStops.None? || faults.copyStops.value >= |writes| then
          (State(Wrote(w, s.files, writes), s.cache), Hit)
        else
          MissFrom(w, c, Key(w, r), State(Wrote(w, s.files, writes[..faults.copyStops.value]), s.cache), faults)
  }
}
