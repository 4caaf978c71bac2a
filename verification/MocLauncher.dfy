/** The launcher as it works on the files and the cache directory in place. */
module MocLauncher {
  import opened Common
  import opened MocCache
  import opened MocWorld
  import Args
  import Basedir
  import DepFile
  import Manifest

  // ---- the loops, seen as unfinished calls of the functions they compute ----

  ghost predicate CheckedSoFar(w: World, files: Files, lines: seq<string>, i: nat, hit: bool, deps: seq<string>)
    requires i <= |lines|
  {
    var rest := Checked(w, files, lines[i..]);
    Checked(w, files, lines) == if hit && rest.Some? then Some(deps + rest.value) else None
  }

  lemma CheckedFirst(w: World, files: Files, lines: seq<string>)
    ensures CheckedSoFar(w, files, lines, 0, true, [])
  {
    assert lines[0..] == lines;
    var all := Checked(w, files, lines);
    assert all.Some? ==> [] + all.value == all.value;
  }

  lemma CheckedNext(w: World, files: Files, lines: seq<string>, i: nat, deps: seq<string>)
    requires i < |lines| && CheckedSoFar(w, files, lines, i, true, deps)
    ensures var e := Manifest.ReadLine(lines[i]);
            var good := e.Some? && Holds(w, files, Basedir.Denormalized(e.value.dep, w.basedir), e.value.hash);
            && (good ==> CheckedSoFar(w, files, lines, i + 1, true, deps + [Basedir.Denormalized(e.value.dep, w.basedir)]))
            && (!good ==> CheckedSoFar(w, files, lines, i + 1, false, deps))
  {
    assert lines[i..][1..] == lines[i + 1..];
    var e, rest := Manifest.ReadLine(lines[i]), Checked(w, files, lines[i + 1..]);
    if e.Some? && rest.Some? {
      var dep := Basedir.Denormalized(e.value.dep, w.basedir);
      assert deps + ([dep] + rest.value) == (deps + [dep]) + rest.value;
    }
  }

  ghost predicate CollectedSoFar(w: World, r: Run, deps: seq<string>, i: nat, entries: seq<Manifest.Entry>)
    requires i <= |deps|
  {
    entries + Entries(w, r, deps[i..]) == Entries(w, r, deps)
  }

  lemma CollectedFirst(w: World, r: Run, deps: seq<string>)
    ensures CollectedSoFar(w, r, deps, 0, [])
  {
    assert deps[0..] == deps;
  }

  lemma CollectedNext(w: World, r: Run, deps: seq<string>, i: nat, entries: seq<Manifest.Entry>)
    requires i < |deps| && CollectedSoFar(w, r, deps, i, entries)
    ensures CollectedSoFar(w, r, deps, i + 1, entries + EntryFor(w, r, deps[i]))
  {
    assert deps[i..][1..] == deps[i + 1..];
    var e, rest := EntryFor(w, r, deps[i]), Entries(w, r, deps[i + 1..]);
    assert entries + (e + rest) == (entries + e) + rest;
  }

  class Launcher {
    const w: World
    var files: Files
    var cache: Cache

    constructor (w: World, files: Files, cache: Cache)
      ensures this.w == w && this.files == files && this.cache == cache
    {
      this.w, this.files, this.cache := w, files, cache;
    }

    // ---- a hit ----

    /** Line by line, up to the first line that is malformed or whose file is gone or changed. */
    method CheckManifest(text: string) returns (hit: bool, deps: seq<string>)
      ensures Checked(w, files, Manifest.SplitLines(text)) == if hit then Some(deps) else None
    {
      var lines := Manifest.SplitLines(text);
      hit, deps := true, [];
      var i := 0;
      CheckedFirst(w, files, lines);
      while i < |lines| && hit
        invariant 0 <= i <= |lines|
        invariant CheckedSoFar(w, files, lines, i, hit, deps)
      {
        CheckedNext(w, files, lines, i, deps);
        var e := Manifest.ReadLine(lines[i]);
        if e.None? {
          hit := false;
        } else {
          var dep := Basedir.Denormalized(e.value.dep, w.basedir);
          if !IsFile(w, files, dep) || w.sha(Read(w, files, dep)) != e.value.hash {
            hit := false;
          } else {
            deps := deps + [dep];
          }
        }
        i := i + 1;
      }
      assert lines[|lines|..] == [];
      assert deps + [] == deps;
    }

    method WriteFile(path: string, text: string)
      modifies this`files
      ensures files == old(files)[w.resolve(path) := text]
    {
      files := files[w.resolve(path) := text];
    }

    /** Copies a hit out, up to the write that fails. */
    method CopyOut(p: Args.Parsed, parts: Parts, deps: seq<string>, stops: Option<nat>) returns (done: bool)
      requires Present(parts, p.wantsJson)
      modifies this`files
      ensures var writes := HitWrites(p, parts, deps);
              && done == (stops.None? || stops.value >= |writes|)
              && files == Wrote(w, old(files), if done then writes else writes[..stops.value])
    {
      var pending := [(OutPath(p), parts.output.value)];
      if p.wantsDep {
        pending := pending + [(DepPath(p), DepText(p, deps))];
      }
      if p.wantsJson {
        pending := pending + [(JsonPath(p), parts.json.value)];
      }
      done := stops.None? || stops.value >= |pending|;
      assert pending == HitWrites(p, parts, deps);
      var n := if done then |pending| else stops.value;
      var i := 0;
      while i < n
        invariant 0 <= i <= n
        invariant files == Wrote(w, old(files), pending[..i])
      {
        assert pending[..i + 1][..i] == pending[..i];
        WriteFile(pending[i].0, pending[i].1);
        i := i + 1;
      }
      assert pending[..|pending|] == pending;
    }

    // ---- a miss ----

    method RunMoc(r: Run) returns (code: int)
      requires r.files == files
      modifies this`files
      ensures code == Result(w, r).code && files == After(w, r)
    {
      var ran := Result(w, r);
      files := files + ran.writes;
      code := ran.code;
    }

    /** The manifest entries of what a run reported, hashed from the files as the run left them. */
    method CollectEntries(r: Run) returns (entries: seq<Manifest.Entry>)
      requires files == After(w, r)
      ensures entries == Entries(w, r, Reported(w, r))
    {
      var deps := DepFile.ParseDepFile(Translated(OrEmpty(Found(w, files, DepPath(Asked(w, r))))));
      entries := [];
      var i := 0;
      CollectedFirst(w, r, deps);
      while i < |deps|
        invariant 0 <= i <= |deps|
        invariant CollectedSoFar(w, r, deps, i, entries)
      {
        CollectedNext(w, r, deps, i, entries);
        entries := entries + EntryFor(w, r, deps[i]);
        i := i + 1;
      }
    }

    /** Writes the entry's files one after the other, until one write fails. */
    method Store(key: string, output: Option<string>, json: Option<string>, manifest: string, stops: Option<nat>)
      modifies this`cache
      ensures cache == old(cache)[key := StoredParts(PartsAt(old(cache), key), output, json, manifest, stops)]
    {
      cache := cache[key := PartsAt(cache, key)];
      if output.None? || !Allows(stops, 0) {
        return;
      }
      cache := cache[key := cache[key].(output := output)];
      var written := 1;
      if json.Some? {
        if !Allows(stops, 1) {
          return;
        }
        cache := cache[key := cache[key].(json := json)];
        written := 2;
      }
      if Allows(stops, written) {
        cache := cache[key := cache[key].(manifest := Some(manifest))];
      }
    }

    method Miss(c: Call, key: string, faults: Faults) returns (outcome: Outcome)
      modifies this`files, this`cache
      ensures (State(files, cache), outcome) == MissFrom(w, c, key, State(old(files), old(cache)), faults)
    {
      var wantsDep := Asked(w, UserRun(c, files)).wantsDep;
      var r := CapturedRun(w, c, files);
      var code := RunMoc(r);
      if code == 0 && !(faults.depUnreadable || (wantsDep && !IsFile(w, files, DepPath(Asked(w, r))))) {
        var entries := CollectEntries(r);
        var p := Asked(w, r);
        var json := if p.wantsJson then Found(w, files, JsonPath(p)) else None;
        Store(key, Found(w, files, OutPath(p)), json, Manifest.Written(entries), faults.storeStops);
      }
      if !wantsDep {
        files := files - {w.resolve(c.tmp)};
      }
      outcome := RealRun(code);
    }

    // ---- the launcher ----

    method Launch(c: Call, faults: Faults) returns (outcome: Outcome)
      modifies this`files, this`cache
      ensures (State(files, cache), outcome) == Invoked(w, c, State(old(files), old(cache)), faults)
    {
      var r := UserRun(c, files);
      var p := Args.ParseArgs(c.argv, Ids(w, files));
      if OutPath(p) == "" || InPath(p) == "" || !IsFile(w, files, InPath(p)) {
        var code := RunMoc(r);
        return RealRun(code);
      }
      var key := w.sha(KeyText(w, r));
      var parts := PartsAt(cache, key);
      if Present(parts, p.wantsJson) {
        var hit, deps := CheckManifest(parts.manifest.value);
        if hit {
          var done := CopyOut(p, parts, deps, faults.copyStops);
          if done {
            return Hit;
          }
        }
      }
      outcome := Miss(c, key, faults);
    }
  }
}
