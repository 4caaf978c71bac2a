/** When an entry is used again: the very next run, the dep file it gets, and what a torn write does. */
module MocReuse {
  import opened Common
  import opened MocCache
  import opened MocRuns
  import opened MocTransparency
  import opened MocWorld
  import Args
  import Basedir
  import DepFile
  import Manifest

  /** The reported files that are tracked by path, in order. */
  function TrackedOf(w: World, r: Run, deps: seq<string>): seq<string> {
    if deps == [] then []
    else (if Tracked(w, r, deps[0]) then [deps[0]] else []) + TrackedOf(w, r, deps[1..])
  }

  ghost predicate AllOrderly(w: World, c: Call, files: Files, deps: seq<string>) {
    forall k :: 0 <= k < |deps| ==> OrderlyDep(w, c, files, deps[k])
  }

  lemma {:induction false} EntriesName(w: World, c: Call, files: Files, deps: seq<string>)
    requires AllOrderly(w, c, files, deps)
    ensures var r := CapturedRun(w, c, files); Named(w, Entries(w, r, deps)) == TrackedOf(w, r, deps)
  {
    if deps != [] {
      var r := CapturedRun(w, c, files);
      assert OrderlyDep(w, c, files, deps[0]);
      EntriesName(w, c, files, deps[1..]);
      NormalIsReversible(w, deps[0]);
      if Tracked(w, r, deps[0]) {
        assert Entries(w, r, deps)[1..] == Entries(w, r, deps[1..]);
      } else {
        assert Entries(w, r, deps) == Entries(w, r, deps[1..]);
      }
    }
  }

  /** The recorded hashes hold wherever the tracked files are as the run left them. */
  lemma {:induction false} EntriesHold(w: World, c: Call, files: Files, deps: seq<string>, now: Files)
    requires AllOrderly(w, c, files, deps)
    requires forall k :: 0 <= k < |deps| && Tracked(w, CapturedRun(w, c, files), deps[k]) ==>
               SameAt(w, After(w, CapturedRun(w, c, files)), now, deps[k])
    ensures AllHold(w, now, Entries(w, CapturedRun(w, c, files), deps))
  {
    if deps != [] {
      var r, d := CapturedRun(w, c, files), deps[0];
      assert OrderlyDep(w, c, files, d);
      EntriesHold(w, c, files, deps[1..], now);
      NormalIsReversible(w, d);
      AllHoldSum(w, now, EntryFor(w, r, d), Entries(w, r, deps[1..]));
    }
  }

  lemma AllHoldSum(w: World, now: Files, a: seq<Manifest.Entry>, b: seq<Manifest.Entry>)
    requires AllHold(w, now, a) && AllHold(w, now, b)
    ensures AllHold(w, now, a + b)
  {
    forall k | 0 <= k < |a + b| ensures (a + b)[k] == if k < |a| then a[k] else b[k - |a|] {
    }
  }

  /** A manifest that reads back: the run tracked something, under names without line breaks. */
  ghost predicate Readable(w: World, r: Run) {
    Entries(w, r, Reported(w, r)) != [] && Manifest.AllUnbroken(Entries(w, r, Reported(w, r)))
  }

  lemma ManifestReads(w: World, r: Run)
    requires GoodHash(w)
    ensures Manifest.Parsed(ManifestOf(w, r)) == if Readable(w, r) then Some(Entries(w, r, Reported(w, r))) else None
  {
    var deps := Reported(w, r);
    forall j | 0 <= j < |deps| ensures deps[j] != "" && DepFile.Plain(deps[j]) {
      ReportedAreClean(w, r, j);
    }
    EntriesAreRecordable(w, r, deps);
    Manifest.ReadsBackOrNothing(Entries(w, r, deps));
  }

  /** An entry's manifest is accepted exactly where its hashes hold, and names the tracked files. */
  lemma LookupExactly(w: World, c: Call, files: Files, u: Run, parts: Parts)
    requires GoodHash(w) && Orderly(w, c, files)
    requires Present(parts, Asked(w, u).wantsJson) && parts.manifest.value == ManifestOf(w, CapturedRun(w, c, files))
    ensures var r := CapturedRun(w, c, files);
            && (Lookup(w, u, parts).Some? <==> Readable(w, r) && AllHold(w, u.files, Entries(w, r, Reported(w, r))))
            && (Lookup(w, u, parts).Some? ==> Lookup(w, u, parts).value == TrackedOf(w, r, Reported(w, r)))
  {
    var r := CapturedRun(w, c, files);
    ManifestReads(w, r);
    CheckedIsParsed(w, u.files, Manifest.SplitLines(parts.manifest.value));
    EntriesName(w, c, files, Reported(w, r));
  }

  // ---- the next run ----

  lemma LeftKeepsSources(w: World, c: Call, files: Files, path: string)
    requires Usable(w, UserRun(c, files)) && Capturable(w, c, files) && Apart(w, c, files)
    requires Result(w, CapturedRun(w, c, files)).code == 0
    requires w.resolve(path) !in Targets(w, Asked(w, UserRun(c, files)))
    requires !Asked(w, UserRun(c, files)).wantsDep ==> w.resolve(path) != w.resolve(c.tmp)
    ensures SameAt(w, files, Left(w, c, files), path)
  {
    var r := CapturedRun(w, c, files);
    CaptureKeepsKey(w, c, files);
    SuccessWrites(w, r);
    assert w.resolve(path) !in Result(w, r).writes;
  }

  lemma LeftKeepsTracked(w: World, c: Call, files: Files, dep: string)
    requires Usable(w, UserRun(c, files)) && Capturable(w, c, files) && OrderlyDep(w, c, files, dep)
    requires Tracked(w, CapturedRun(w, c, files), dep)
    ensures SameAt(w, After(w, CapturedRun(w, c, files)), Left(w, c, files), dep)
  {
    CaptureKeepsKey(w, c, files);
  }

  lemma MissStores(w: World, c: Call, key: string, s: State, storing: Faults)
    requires Usable(w, UserRun(c, s.files)) && Capturable(w, c, s.files)
    requires Result(w, CapturedRun(w, c, s.files)).code == 0 && storing.storeStops.None?
    requires !DepFileMissing(w, c, CapturedRun(w, c, s.files), storing)
    ensures var next := MissFrom(w, c, key, s, storing).0;
            var parts := PartsAt(next.cache, key);
            && next.files == Left(w, c, s.files)
            && Present(parts, Asked(w, UserRun(c, s.files)).wantsJson)
            && parts.manifest.value == ManifestOf(w, CapturedRun(w, c, s.files))
  {
    var r := CapturedRun(w, c, s.files);
    CaptureKeepsKey(w, c, s.files);
    SuccessWrites(w, r);
    StoredWhole(w, r, PartsAt(s.cache, key), storing.storeStops);
  }

  /** Unless copying out fails, an invocation hits exactly if its entry is usable. */
  lemma HitsIfUsable(w: World, c: Call, s: State, faults: Faults)
    requires Usable(w, UserRun(c, s.files)) && faults.copyStops.None?
    ensures var u := UserRun(c, s.files);
            Invoked(w, c, s, faults).1 == Hit <==> Lookup(w, u, PartsAt(s.cache, Key(w, u))).Some?
  {
  }

  /** Where a later call finds the input, the force-included files and the tracked files as the run did. */
  ghost predicate StillThere(w: World, c: Call, files: Files, now: Files) {
    var r := CapturedRun(w, c, files);
    && SameAt(w, files, now, InPath(Asked(w, UserRun(c, files))))
    && (forall k :: 0 <= k < |Asked(w, UserRun(c, files)).includes| ==>
          SameAt(w, files, now, Asked(w, UserRun(c, files)).includes[k]))
    && (forall k :: 0 <= k < |Reported(w, r)| && Tracked(w, r, Reported(w, r)[k]) ==>
          SameAt(w, After(w, r), now, Reported(w, r)[k]))
  }

  /** After a miss that was stored whole the same call hits wherever these are still there, whatever else
      has changed: exactly if the manifest reads back. */
  lemma LaterRunHits(w: World, c: Call, s: State, storing: Faults, now: Files, again: Faults)
    requires GoodHash(w) && Usable(w, UserRun(c, s.files)) && Capturable(w, c, s.files) && Orderly(w, c, s.files)
    requires storing.storeStops.None? && again.copyStops.None? && StillThere(w, c, s.files, now)
    requires Result(w, CapturedRun(w, c, s.files)).code == 0
    requires !DepFileMissing(w, c, CapturedRun(w, c, s.files), storing)
    ensures var next := MissFrom(w, c, Key(w, UserRun(c, s.files)), s, storing).0;
            Invoked(w, c, State(now, next.cache), again).1 == Hit <==> Readable(w, CapturedRun(w, c, s.files))
  {
    var u, r := UserRun(c, s.files), CapturedRun(w, c, s.files);
    var next := MissFrom(w, c, Key(w, u), s, storing).0;
    MissStores(w, c, Key(w, u), s, storing);
    KeyFrame(w, u, now);
    HitsIfUsable(w, c, State(now, next.cache), again);
    EntriesHold(w, c, s.files, Reported(w, r), now);
    LookupExactly(w, c, s.files, UserRun(c, now), PartsAt(next.cache, Key(w, u)));
  }

  lemma LeftStillThere(w: World, c: Call, files: Files)
    requires Usable(w, UserRun(c, files)) && Capturable(w, c, files) && Apart(w, c, files) && Orderly(w, c, files)
    requires Result(w, CapturedRun(w, c, files)).code == 0
    ensures StillThere(w, c, files, Left(w, c, files))
  {
    var u, r, left := UserRun(c, files), CapturedRun(w, c, files), Left(w, c, files);
    LeftKeepsSources(w, c, files, InPath(Asked(w, u)));
    forall k | 0 <= k < |Asked(w, u).includes| ensures SameAt(w, files, left, Asked(w, u).includes[k]) {
      LeftKeepsSources(w, c, files, Asked(w, u).includes[k]);
    }
    var deps := Reported(w, r);
    forall k | 0 <= k < |deps| && Tracked(w, r, deps[k]) ensures SameAt(w, After(w, r), left, deps[k]) {
      assert OrderlyDep(w, c, files, deps[k]);
      LeftKeepsTracked(w, c, files, deps[k]);
    }
  }

  /** In particular at once: a run that tracks no file at all never hits, and neither does one that tracks
      a name with a line break in it; any other does. */
  lemma NextRunHits(w: World, c: Call, s: State, storing: Faults, again: Faults)
    requires GoodHash(w) && Proper(w, c, s.files) && Orderly(w, c, s.files)
    requires storing.storeStops.None? && again.copyStops.None?
    requires Result(w, CapturedRun(w, c, s.files)).code == 0
    requires !DepFileMissing(w, c, CapturedRun(w, c, s.files), storing)
    ensures var next := MissFrom(w, c, Key(w, UserRun(c, s.files)), s, storing).0;
            Invoked(w, c, next, again).1 == Hit <==> Readable(w, CapturedRun(w, c, s.files))
  {
    MissStores(w, c, Key(w, UserRun(c, s.files)), s, storing);
    LeftStillThere(w, c, s.files);
    LaterRunHits(w, c, s, storing, Left(w, c, s.files), again);
  }

  // ---- the dep file of a hit ----

  lemma {:induction false} FirstsOnlyAre(paths: seq<string>)
    ensures Distinct(FirstsOnly(paths))
    ensures forall p :: p in FirstsOnly(paths) <==> p in paths
  {
    if paths != [] {
      var before := paths[..|paths| - 1];
      FirstsOnlyAre(before);
      assert paths == before + [paths[|paths| - 1]];
    }
  }

  /** The dep file a hit writes lists the input, the force-included files and the files the recorded run
      tracked, each once, and reads back as that list. */
  lemma HitDepFile(w: World, c: Call, files: Files, u: Run, parts: Parts)
    requires GoodHash(w) && Usable(w, u) && Recorded(w, Key(w, u), parts, c, files) && Lookup(w, u, parts).Some?
    requires var p, r := Asked(w, u), CapturedRun(w, c, files);
             var all := [InPath(p)] + p.includes + TrackedOf(w, r, Reported(w, r));
             DepFile.Plain(OutPath(p)) && forall k :: 0 <= k < |all| ==> DepFile.Listable(all[k])
    ensures var p := Asked(w, u);
            var all := [InPath(p)] + p.includes + TrackedOf(w, CapturedRun(w, c, files), Reported(w, CapturedRun(w, c, files)));
            var listed := DepFile.Parsed(DepText(p, Lookup(w, u, parts).value));
            listed == FirstsOnly(all) && Distinct(listed) && forall path :: path in listed <==> path in all
  {
    var p := Asked(w, u);
    var all := [InPath(p)] + p.includes + TrackedOf(w, CapturedRun(w, c, files), Reported(w, CapturedRun(w, c, files)));
    LookupExactly(w, c, files, u, parts);
    FirstsOnlyAre(all);
    forall k | 0 <= k < |FirstsOnly(all)| ensures DepFile.Listable(FirstsOnly(all)[k]) {
      assert FirstsOnly(all)[k] in all;
    }
    DepFile.RoundTrip(OutPath(p), FirstsOnly(all));
  }

  // ---- a torn write ----

  /** Wherever the entry is used and the unwatched paths are as they were, it serves the output and JSON moc
      would produce. */
  ghost predicate ServesRightly(w: World, key: string, parts: Parts, unwatched: map<string, Option<string>>) {
    forall u: Run {:trigger Lookup(w, u, parts)} ::
      Keyable(w, u) && Key(w, u) == key && AllHashed(w, u.files) && AsThen(w, u.files, unwatched) ==>
      OutputsApart(w, Asked(w, u)) && Lookup(w, u, parts).Some? ==> Serves(w, u, parts)
  }

  ghost predicate Serves(w: World, u: Run, parts: Parts) {
    parts.output == OutText(w, u) && (Asked(w, u).wantsJson ==> parts.json == JsonText(w, u))
  }

  /** The run an entry was recorded from would find it usable, and rightly so. */
  lemma OwnRunHits(w: World, key: string, c: Call, files: Files)
    requires GoodHash(w) && Adaptive(w) && Recordable(w, key, c, files) && OutputsApart(w, Asked(w, UserRun(c, files)))
    requires Readable(w, CapturedRun(w, c, files))
    ensures AllHold(w, files, Entries(w, CapturedRun(w, c, files), Reported(w, CapturedRun(w, c, files))))
    ensures SameResult(w, CapturedRun(w, c, files), UserRun(c, files))
  {
    var u, r := UserRun(c, files), CapturedRun(w, c, files);
    var deps := Reported(w, r);
    CaptureKeepsKey(w, c, files);
    forall k | 0 <= k < |deps| && Tracked(w, r, deps[k]) ensures SameAt(w, After(w, r), files, deps[k]) {
      assert OrderlyDep(w, c, files, deps[k]);
      TrackedIsUntouched(w, c, files, deps[k]);
    }
    EntriesHold(w, c, files, deps, files);
    SameReading(w, r, u);
  }

  /** The parts of an entry that a key asks for are those of another. */
  predicate SameServed(parts: Parts, other: Parts, wantsJson: bool) {
    parts.output == other.output && (wantsJson ==> parts.json == other.json)
  }

  /** An entry recorded from one run gets the output, and perhaps the JSON, of another run under its key,
      whose storing then stops before the manifest. It serves rightly from then on exactly if what was
      stored equals what was there, or the manifest that stayed never reads back. */
  lemma TornExactly(w: World, key: string, parts: Parts, c: Call, files: Files, later: Run, stops: Option<nat>)
    requires GoodHash(w) && Adaptive(w) && Recorded(w, key, parts, c, files)
    requires AllHashed(w, files) && OutputsApart(w, Asked(w, UserRun(c, files)))
    requires Present(parts, Asked(w, UserRun(c, files)).wantsJson)
    requires Usable(w, later) && Result(w, later).code == 0
    requires Asked(w, later).wantsJson == Asked(w, UserRun(c, files)).wantsJson
    requires Allows(stops, 0) && !WholeStore(w, later, stops)
    ensures var torn := Stored(w, later, parts, stops);
            && torn.manifest == parts.manifest && torn.output == OutText(w, later)
            && (ServesRightly(w, key, torn, Unwatched(w, c, files)) <==>
                SameServed(torn, parts, Asked(w, later).wantsJson) || !Readable(w, CapturedRun(w, c, files)))
  {
    SuccessWrites(w, later);
    var torn, u, r := Stored(w, later, parts, stops), UserRun(c, files), CapturedRun(w, c, files);
    StoredTorn(w, later, parts, stops);
    if !Readable(w, r) {
      UnreadableServesNothing(w, key, torn, c, files);
    } else if SameServed(torn, parts, Asked(w, later).wantsJson) {
      assert FromRun(w, torn, c, files);
      UndisturbedServes(w, key, torn, c, files);
    } else {
      OwnRunHits(w, key, c, files);
      CaptureKeepsKey(w, c, files);
      LookupExactly(w, c, files, u, torn);
      assert Lookup(w, u, torn).Some? && !Serves(w, u, torn);
    }
  }

  lemma StoredTorn(w: World, r: Run, before: Parts, stops: Option<nat>)
    requires OutText(w, r).Some? && (Asked(w, r).wantsJson ==> JsonText(w, r).Some?)
    requires Allows(stops, 0) && !WholeStore(w, r, stops)
    ensures var torn := Stored(w, r, before, stops);
            && torn.manifest == before.manifest && torn.output == OutText(w, r)
            && torn.json == if Asked(w, r).wantsJson && Allows(stops, 1) then JsonText(w, r) else before.json
  {
  }

  lemma UndisturbedServes(w: World, key: string, parts: Parts, c: Call, files: Files)
    requires GoodHash(w) && Adaptive(w) && Recorded(w, key, parts, c, files)
    ensures ServesRightly(w, key, parts, Unwatched(w, c, files))
  {
    forall u: Run | Keyable(w, u) && Key(w, u) == key && AllHashed(w, u.files) && OutputsApart(w, Asked(w, u))
                    && AsThen(w, u.files, Unwatched(w, c, files)) && Lookup(w, u, parts).Some?
      ensures Serves(w, u, parts)
    {
      HitIsReal(w, parts, c, files, u);
    }
  }

  lemma UnreadableServesNothing(w: World, key: string, parts: Parts, c: Call, files: Files)
    requires GoodHash(w) && Orderly(w, c, files) && !Readable(w, CapturedRun(w, c, files))
    requires parts.manifest == Some(ManifestOf(w, CapturedRun(w, c, files)))
    ensures ServesRightly(w, key, parts, Unwatched(w, c, files))
  {
    forall u: Run | Present(parts, Asked(w, u).wantsJson) ensures Lookup(w, u, parts).None? {
      LookupExactly(w, c, files, u, parts);
    }
  }
}
