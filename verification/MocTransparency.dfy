/** Whatever was edited, trimmed or cached before, a hit serves what moc itself would produce now. */
module MocTransparency {
  import opened Common
  import opened MocCache
  import opened MocWorld
  import Args
  import ArgsTold
  import Basedir
  import DepFile
  import Manifest

  // ---- the captured run and the caller's run ----

  /** The dep-file request can be appended to the line. */
  ghost predicate Capturable(w: World, c: Call, files: Files) {
    Asked(w, UserRun(c, files)).wantsDep || (Args.Complete(c.argv) && c.tmp != "")
  }

  lemma CaptureKeepsKey(w: World, c: Call, files: Files)
    requires Capturable(w, c, files) && Usable(w, UserRun(c, files))
    ensures var u, r := UserRun(c, files), CapturedRun(w, c, files);
            && Usable(w, r) && KeyParts(w, r) == KeyParts(w, u) && GivenTo(w, r) == GivenTo(w, u) && Asked(w, r).wantsDep
            && OutPath(Asked(w, r)) == OutPath(Asked(w, u)) && JsonPath(Asked(w, r)) == JsonPath(Asked(w, u))
            && Asked(w, r).wantsJson == Asked(w, u).wantsJson && Asked(w, r).includes == Asked(w, u).includes
            && (!Asked(w, u).wantsDep ==> DepPath(Asked(w, r)) == c.tmp)
  {
    if !Asked(w, UserRun(c, files)).wantsDep {
      Args.RequestChangesNothingElse(c.argv, c.tmp, Ids(w, files));
      ArgsTold.RequestTellsNothingElse(c.argv, c.tmp);
      assert Forced(w, CapturedRun(w, c, files)) == Forced(w, UserRun(c, files));
    }
  }

  /** The captured run has the key and the output of the caller's line exactly if a dep file was asked for,
      or the line is complete, or its dangling option names the same output. */
  lemma CaptureExactly(w: World, c: Call, files: Files)
    requires Usable(w, UserRun(c, files))
    ensures var u, r := UserRun(c, files), CapturedRun(w, c, files);
            Usable(w, r) && KeyParts(w, r) == KeyParts(w, u) && OutPath(Asked(w, r)) == OutPath(Asked(w, u)) <==>
            Asked(w, u).wantsDep || Args.Complete(c.argv) || Args.NamesTheSameOutput(c.argv, Asked(w, u).output)
  {
    var u, r := UserRun(c, files), CapturedRun(w, c, files);
    if !Asked(w, u).wantsDep {
      if Args.Complete(c.argv) {
        Args.RequestChangesNothingElse(c.argv, c.tmp, Ids(w, files));
      } else {
        Args.DanglingMeans(c.argv, c.tmp, Ids(w, files));
        assert Usable(w, r) ==> |KeyParts(w, r)| == |Asked(w, r).hashable| + 3;
        assert |KeyParts(w, u)| == |Asked(w, u).hashable| + 3;
      }
    }
  }

  /** A reported path that the base directory can be renamed in; if tracked, nothing the invocation writes. */
  ghost predicate OrderlyDep(w: World, c: Call, files: Files, dep: string) {
    var r := CapturedRun(w, c, files);
    && Renamable(w, dep)
    && (Tracked(w, r, dep) ==>
          && w.resolve(dep) !in Targets(w, Asked(w, r)) + Targets(w, Asked(w, UserRun(c, files)))
          && (w.resolve(dep) in files ==> w.hashed(files[w.resolve(dep)])))
  }

  /** Every reported path is in order, so that the manifest says what it means. */
  ghost predicate Orderly(w: World, c: Call, files: Files) {
    var r := CapturedRun(w, c, files);
    Usable(w, r) && forall k :: 0 <= k < |Reported(w, r)| ==> OrderlyDep(w, c, files, Reported(w, r)[k])
  }

  /** A path moc looked at that held a file, is reported, and is not force-included by the same line: the
      manifest watches it. */
  predicate Watched(w: World, c: Call, files: Files, path: string) {
    var r := CapturedRun(w, c, files);
    IsFile(w, files, path) && path in Reported(w, r) && !Includes(w, Asked(w, r), path)
  }

  /** The other paths moc looked at, say in vain along an include path, and what they held. */
  function Unwatched(w: World, c: Call, files: Files): map<string, Option<string>>
    requires Usable(w, CapturedRun(w, c, files))
  {
    var looks := Traced(w, CapturedRun(w, c, files)).looks;
    map path | path in looks && !Watched(w, c, files, path) :: Found(w, files, path)
  }

  ghost predicate AsThen(w: World, now: Files, unwatched: map<string, Option<string>>) {
    forall path :: path in unwatched ==> Found(w, now, path) == unwatched[path]
  }

  lemma TrackedIsUntouched(w: World, c: Call, files: Files, dep: string)
    requires Usable(w, CapturedRun(w, c, files)) && Result(w, CapturedRun(w, c, files)).code == 0
    requires OrderlyDep(w, c, files, dep) && Tracked(w, CapturedRun(w, c, files), dep)
    ensures IsFile(w, files, dep) && Read(w, After(w, CapturedRun(w, c, files)), dep) == Read(w, files, dep)
    ensures w.hashed(Read(w, files, dep))
  {
    var r := CapturedRun(w, c, files);
    SuccessWrites(w, r);
    assert w.resolve(dep) !in Result(w, r).writes;
  }

  // ---- manifests ----

  lemma ReportedAreClean(w: World, r: Run, k: nat)
    requires k < |Reported(w, r)|
    ensures Reported(w, r)[k] != "" && DepFile.Plain(Reported(w, r)[k])
  {
    var text := OrEmpty(Found(w, After(w, r), DepPath(Asked(w, r))));
    DepFile.WordsAreClean(DepFile.AfterColon(DepFile.Unfolded(Translated(text))), [], k);
  }

  ghost predicate CleanPaths(deps: seq<string>) {
    forall k :: 0 <= k < |deps| ==> deps[k] != "" && DepFile.Plain(deps[k])
  }

  lemma {:induction false} EntriesAreRecordable(w: World, r: Run, deps: seq<string>)
    requires GoodHash(w) && CleanPaths(deps)
    ensures Manifest.AllRecordable(Entries(w, r, deps))
  {
    if deps != [] {
      EntriesAreRecordable(w, r, deps[1..]);
      var d := deps[0];
      assert d != "" && DepFile.Plain(d);
      StaysRecordable(w, d);
    }
  }

  lemma StaysRecordable(w: World, dep: string)
    requires dep != "" && DepFile.Plain(dep)
    ensures Normal(w, dep) != "" && DepFile.Plain(Normal(w, dep))
  {
    Basedir.NormalizedStaysFree(dep, Spelling(w), '\t');
    Basedir.NormalizedStaysFree(dep, Spelling(w), '\n');
    Basedir.NormalizedStaysFree(dep, Spelling(w), '\r');
  }

  ghost predicate AllHold(w: World, files: Files, entries: seq<Manifest.Entry>) {
    forall k :: 0 <= k < |entries| ==> Holds(w, files, Basedir.Denormalized(entries[k].dep, w.basedir), entries[k].hash)
  }

  function Named(w: World, entries: seq<Manifest.Entry>): seq<string> {
    if entries == [] then [] else [Basedir.Denormalized(entries[0].dep, w.basedir)] + Named(w, entries[1..])
  }

  /** Checking line by line accepts exactly the well-formed manifests whose files are all unchanged. */
  lemma {:induction false} CheckedIsParsed(w: World, files: Files, lines: seq<string>)
    ensures Checked(w, files, lines).Some? <==>
            Manifest.ReadLines(lines).Some? && AllHold(w, files, Manifest.ReadLines(lines).value)
    ensures Checked(w, files, lines).Some? ==> Checked(w, files, lines).value == Named(w, Manifest.ReadLines(lines).value)
  {
    if lines != [] {
      CheckedIsParsed(w, files, lines[1..]);
      var all, rest := Manifest.ReadLines(lines), Manifest.ReadLines(lines[1..]);
      if all.Some? {
        assert all.value[1..] == rest.value;
        assert AllHold(w, files, all.value) <==>
               && Holds(w, files, Basedir.Denormalized(all.value[0].dep, w.basedir), all.value[0].hash)
               && AllHold(w, files, rest.value) by {
          assert forall k :: 1 <= k < |all.value| ==> all.value[k] == rest.value[k - 1];
        }
      }
    }
  }

  lemma {:induction false} EntryOf(w: World, r: Run, deps: seq<string>, k: nat)
    requires k < |deps| && Tracked(w, r, deps[k])
    ensures EntryFor(w, r, deps[k])[0] in Entries(w, r, deps)
  {
    if k > 0 {
      EntryOf(w, r, deps[1..], k - 1);
      assert deps[1..][k - 1] == deps[k];
    }
  }

  // ---- what an entry holds ----

  /** A successful, orderly run under this key. */
  ghost predicate Recordable(w: World, key: string, c: Call, files: Files) {
    var u, r := UserRun(c, files), CapturedRun(w, c, files);
    && Keyable(w, u) && Key(w, u) == key && Capturable(w, c, files) && OutputsApart(w, Asked(w, r))
    && Result(w, r).code == 0 && Orderly(w, c, files)
  }

  /** Every file the entry still has, as far as its key asks for it, comes from this run. */
  ghost predicate FromRun(w: World, parts: Parts, c: Call, files: Files) {
    var u, r := UserRun(c, files), CapturedRun(w, c, files);
    && (parts.manifest.Some? ==> parts.manifest.value == ManifestOf(w, r))
    && (parts.output.Some? ==> parts.output == OutText(w, r))
    && (parts.json.Some? && Asked(w, u).wantsJson ==> parts.json == JsonText(w, r))
  }

  ghost predicate Recorded(w: World, key: string, parts: Parts, c: Call, files: Files) {
    Recordable(w, key, c, files) && FromRun(w, parts, c, files)
  }

  /** The run an entry comes from, and what moc looked at in it beside the files in the manifest. */
  ghost predicate Explains(w: World, key: string, parts: Parts, unwatched: map<string, Option<string>>, c: Call, files: Files) {
    Recorded(w, key, parts, c, files) && Unwatched(w, c, files) == unwatched
  }

  /** An entry with a manifest, the one kind that is ever used, comes from one run. */
  ghost predicate Sound(w: World, key: string, parts: Parts, unwatched: map<string, Option<string>>) {
    parts.manifest.Some? ==> exists c: Call, files: Files :: Explains(w, key, parts, unwatched, c, files)
  }

  /** Keys whose entries are trusted, with the unwatched paths of the runs they come from. */
  type Trust = map<string, map<string, Option<string>>>

  ghost predicate Inv(w: World, cache: Cache, trusted: Trust) {
    forall key :: key in cache && key in trusted ==> Sound(w, key, cache[key], trusted[key])
  }

  ghost predicate AllHashed(w: World, files: Files) {
    forall path :: path in files ==> w.hashed(files[path])
  }

  // ---- a hit ----

  lemma HitFindsUnchanged(w: World, parts: Parts, c: Call, files: Files, u: Run, k: nat)
    requires GoodHash(w) && Usable(w, u) && Recorded(w, Key(w, u), parts, c, files)
    requires AllHashed(w, u.files) && Lookup(w, u, parts).Some?
    requires k < |Reported(w, CapturedRun(w, c, files))|
    requires Tracked(w, CapturedRun(w, c, files), Reported(w, CapturedRun(w, c, files))[k])
    ensures SameAt(w, files, u.files, Reported(w, CapturedRun(w, c, files))[k])
  {
    var r := CapturedRun(w, c, files);
    var deps := Reported(w, r);
    var entries := Entries(w, r, deps);
    forall j | 0 <= j < |deps| ensures deps[j] != "" && DepFile.Plain(deps[j]) {
      ReportedAreClean(w, r, j);
    }
    EntriesAreRecordable(w, r, deps);
    Manifest.ReadsBackOrNothing(entries);
    CheckedIsParsed(w, u.files, Manifest.SplitLines(parts.manifest.value));
    assert AllHold(w, u.files, entries);
    EntryOf(w, r, deps, k);
    var i :| 0 <= i < |entries| && entries[i] == EntryFor(w, r, deps[k])[0];
    assert OrderlyDep(w, c, files, deps[k]);
    NormalIsReversible(w, deps[k]);
    assert Holds(w, u.files, deps[k], entries[i].hash);
    TrackedIsUntouched(w, c, files, deps[k]);
    assert w.hashed(Read(w, u.files, deps[k]));
  }

  lemma WatchedIsTracked(w: World, c: Call, files: Files, path: string)
    requires Usable(w, CapturedRun(w, c, files)) && Watched(w, c, files, path)
    ensures Tracked(w, CapturedRun(w, c, files), path)
  {
  }

  /** So every look of the recorded run would be answered as it was then, if the unwatched ones are. */
  lemma HitAnswersAlike(w: World, parts: Parts, c: Call, files: Files, u: Run)
    requires GoodHash(w) && Usable(w, u) && Recorded(w, Key(w, u), parts, c, files)
    requires AllHashed(w, u.files) && Lookup(w, u, parts).Some? && AsThen(w, u.files, Unwatched(w, c, files))
    ensures SameAnswers(w, Traced(w, CapturedRun(w, c, files)).looks, files, u.files)
  {
    var r := CapturedRun(w, c, files);
    var looks, deps := Traced(w, r).looks, Reported(w, r);
    forall i | 0 <= i < |looks| ensures SameAt(w, files, u.files, looks[i]) {
      if Watched(w, c, files, looks[i]) {
        var k :| 0 <= k < |deps| && deps[k] == looks[i];
        WatchedIsTracked(w, c, files, looks[i]);
        HitFindsUnchanged(w, parts, c, files, u, k);
      } else {
        assert looks[i] in Unwatched(w, c, files);
      }
    }
  }

  /** What a usable entry holds is what the caller's own run of moc would give on the files as they are. */
  lemma HitIsReal(w: World, parts: Parts, c: Call, files: Files, u: Run)
    requires GoodHash(w) && Adaptive(w) && Keyable(w, u) && Recorded(w, Key(w, u), parts, c, files)
    requires AllHashed(w, u.files) && OutputsApart(w, Asked(w, u)) && Lookup(w, u, parts).Some?
    requires AsThen(w, u.files, Unwatched(w, c, files))
    ensures Result(w, u).code == 0 && parts.output == OutText(w, u)
    ensures Asked(w, u).wantsJson ==> parts.json == JsonText(w, u)
  {
    var r := CapturedRun(w, c, files);
    SameKeySameGiven(w, UserRun(c, files), u);
    CaptureKeepsKey(w, c, files);
    HitAnswersAlike(w, parts, c, files, u);
    SameReading(w, r, u);
  }
}
