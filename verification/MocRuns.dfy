/** Runs of edits, trims and invocations, and what every invocation in them delivers. */
module MocRuns {
  import opened Common
  import opened MocCache
  import opened MocTransparency
  import opened MocWorld
  import Args

  // ---- runs ----

  datatype Part = ManifestFile | OutputFile | JsonFile

  /** Any change of files; the loss of any files of any entries, as trimming may leave it; an invocation. */
  datatype Op = Edit(files: Files) | Lose(lost: set<(string, Part)>) | Invoke(call: Call, faults: Faults)

  function Remaining(parts: Parts, key: string, lost: set<(string, Part)>): Parts {
    Parts(if (key, ManifestFile) in lost then None else parts.manifest,
          if (key, OutputFile) in lost then None else parts.output,
          if (key, JsonFile) in lost then None else parts.json)
  }

  function Step(w: World, s: State, op: Op): State {
    match op
    case Edit(files) => s.(files := files)
    case Lose(lost) => s.(cache := map key | key in s.cache :: Remaining(s.cache[key], key, lost))
    case Invoke(c, faults) => Invoked(w, c, s, faults).0
  }

  function RunOf(w: World, s: State, ops: seq<Op>): State {
    if ops == [] then s else Step(w, RunOf(w, s, ops[..|ops| - 1]), ops[|ops| - 1])
  }

  // ---- what is asked of an invocation ----

  /** The files an invocation finds when it comes to run moc: a hit that stopped halfway has left its mark. */
  function MissFiles(w: World, c: Call, s: State, faults: Faults): Files {
    var u := UserRun(c, s.files);
    if !Usable(w, u) then s.files
    else
      var parts := PartsAt(s.cache, Key(w, u));
      match Lookup(w, u, parts)
      case None => s.files
      case Some(deps) =>
        var writes := HitWrites(Asked(w, u), parts, deps);
        if faults.copyStops.Some? && faults.copyStops.value < |writes| then Wrote(w, s.files, writes[..faults.copyStops.value])
        else s.files
  }

  /** Nothing is written over the input or a force-included file, nor two things to one path. */
  ghost predicate Apart(w: World, c: Call, files: Files) {
    var p := Asked(w, UserRun(c, files));
    && w.resolve(InPath(p)) !in Targets(w, p)
    && (forall k :: 0 <= k < |p.includes| ==> w.resolve(p.includes[k]) !in Targets(w, p))
    && OutputsApart(w, p)
    && (!p.wantsDep ==>
          && w.resolve(c.tmp) !in Targets(w, p) && w.resolve(c.tmp) != w.resolve(InPath(p)) && !Includes(w, p, c.tmp))
  }

  /** A run whose key is unambiguous and which keeps its files apart. */
  ghost predicate Proper(w: World, c: Call, files: Files) {
    && Keyable(w, UserRun(c, files)) && Capturable(w, c, files) && Apart(w, c, files) && AllHashed(w, files)
  }

  // ---- which keys an arbitrary run leaves trusted ----

  /** The last write of a store went through. */
  predicate WholeStore(w: World, r: Run, stops: Option<nat>) {
    Allows(stops, if Asked(w, r).wantsJson then 2 else 1)
  }

  /** Does the invocation write anything into its entry? */
  predicate Stores(w: World, c: Call, s: State, faults: Faults) {
    var r := CapturedRun(w, c, MissFiles(w, c, s, faults));
    && Usable(w, UserRun(c, s.files)) && Invoked(w, c, s, faults).1 != Hit
    && Result(w, r).code == 0 && !DepFileMissing(w, c, r, faults) && Allows(faults.storeStops, 0)
  }

  /** A proper invocation with an orderly run, stored to the end. */
  ghost predicate CleanStore(w: World, c: Call, s: State, faults: Faults) {
    var files := MissFiles(w, c, s, faults);
    Proper(w, c, s.files) && Orderly(w, c, files) && WholeStore(w, CapturedRun(w, c, files), faults.storeStops)
  }

  /** A clean store makes its key trusted, and one that is not ends the trust. */
  ghost function Trusting(w: World, s: State, op: Op, trusted: Trust): Trust {
    match op
    case Edit(_) => trusted
    case Lose(_) => trusted
    case Invoke(c, faults) =>
      if !Stores(w, c, s, faults) then trusted
      else
        var key, files := Key(w, UserRun(c, s.files)), MissFiles(w, c, s, faults);
        if CleanStore(w, c, s, faults) then trusted[key := Unwatched(w, c, files)] else trusted - {key}
  }

  /** The keys whose last store was clean. */
  ghost function Trusted(w: World, s: State, ops: seq<Op>): Trust {
    if ops == [] then map[]
    else Trusting(w, RunOf(w, s, ops[..|ops| - 1]), ops[|ops| - 1], Trusted(w, s, ops[..|ops| - 1]))
  }

  // ---- a hit that stopped halfway ----

  lemma {:induction false} WroteElsewhere(w: World, files: Files, writes: seq<(string, string)>, path: string)
    requires forall i :: 0 <= i < |writes| ==> w.resolve(writes[i].0) != w.resolve(path)
    ensures SameAt(w, files, Wrote(w, files, writes), path)
  {
    if writes != [] {
      WroteElsewhere(w, files, writes[..|writes| - 1], path);
    }
  }

  lemma HitWritesTargets(w: World, p: Args.Parsed, parts: Parts, deps: seq<string>)
    requires Present(parts, p.wantsJson)
    ensures var writes := HitWrites(p, parts, deps); forall i :: 0 <= i < |writes| ==> w.resolve(writes[i].0) in Targets(w, p)
  {
  }

  lemma MissFilesKeepSources(w: World, c: Call, s: State, faults: Faults, path: string)
    requires w.resolve(path) !in Targets(w, Asked(w, UserRun(c, s.files)))
    ensures SameAt(w, s.files, MissFiles(w, c, s, faults), path)
  {
    var u := UserRun(c, s.files);
    if Usable(w, u) {
      var parts := PartsAt(s.cache, Key(w, u));
      var found := Lookup(w, u, parts);
      if found.Some? {
        var writes := HitWrites(Asked(w, u), parts, found.value);
        if faults.copyStops.Some? && faults.copyStops.value < |writes| {
          HitWritesTargets(w, Asked(w, u), parts, found.value);
          WroteElsewhere(w, s.files, writes[..faults.copyStops.value], path);
        }
      }
    }
  }

  lemma MissFilesKeepKey(w: World, c: Call, s: State, faults: Faults)
    requires Proper(w, c, s.files)
    ensures var u, v := UserRun(c, s.files), UserRun(c, MissFiles(w, c, s, faults));
            && Keyable(w, v) && Asked(w, v) == Asked(w, u) && KeyParts(w, v) == KeyParts(w, u)
            && GivenTo(w, v) == GivenTo(w, u)
  {
    var u, files := UserRun(c, s.files), MissFiles(w, c, s, faults);
    MissFilesKeepSources(w, c, s, faults, InPath(Asked(w, u)));
    forall k | 0 <= k < |Asked(w, u).includes| ensures SameAt(w, s.files, files, Asked(w, u).includes[k]) {
      MissFilesKeepSources(w, c, s, faults, Asked(w, u).includes[k]);
    }
    KeyFrame(w, u, files);
  }

  lemma InvokedMisses(w: World, c: Call, s: State, faults: Faults)
    requires Usable(w, UserRun(c, s.files)) && Invoked(w, c, s, faults).1 != Hit
    ensures Invoked(w, c, s, faults) ==
            MissFrom(w, c, Key(w, UserRun(c, s.files)), s.(files := MissFiles(w, c, s, faults)), faults)
  {
  }

  lemma InvokedHits(w: World, c: Call, s: State, faults: Faults) returns (deps: seq<string>)
    requires Invoked(w, c, s, faults).1 == Hit
    ensures Usable(w, UserRun(c, s.files))
    ensures var u := UserRun(c, s.files);
            var parts := PartsAt(s.cache, Key(w, u));
            && Lookup(w, u, parts) == Some(deps) && Present(parts, Asked(w, u).wantsJson)
            && Invoked(w, c, s, faults).0 == State(Wrote(w, s.files, HitWrites(Asked(w, u), parts, deps)), s.cache)
  {
    var u := UserRun(c, s.files);
    deps := Lookup(w, u, PartsAt(s.cache, Key(w, u))).value;
  }

  // ---- every step keeps the entries sound ----

  /** What a whole store leaves of an entry. */
  lemma StoredWhole(w: World, r: Run, before: Parts, stops: Option<nat>)
    requires WholeStore(w, r, stops) && OutText(w, r).Some? && (Asked(w, r).wantsJson ==> JsonText(w, r).Some?)
    ensures Stored(w, r, before, stops) ==
            Parts(Some(ManifestOf(w, r)), OutText(w, r), if Asked(w, r).wantsJson then JsonText(w, r) else before.json)
  {
  }

  /** A whole store replaces all of an entry that its key asks for by the results of one run. */
  lemma StoredIsSound(w: World, c: Call, files: Files, before: Parts, stops: Option<nat>)
    requires Keyable(w, UserRun(c, files)) && Capturable(w, c, files) && Apart(w, c, files)
    requires Result(w, CapturedRun(w, c, files)).code == 0 && Orderly(w, c, files)
    requires WholeStore(w, CapturedRun(w, c, files), stops)
    ensures Sound(w, Key(w, UserRun(c, files)), Stored(w, CapturedRun(w, c, files), before, stops), Unwatched(w, c, files))
  {
    var u, r := UserRun(c, files), CapturedRun(w, c, files);
    CaptureKeepsKey(w, c, files);
    SuccessWrites(w, r);
    StoredWhole(w, r, before, stops);
    assert Explains(w, Key(w, u), Stored(w, r, before, stops), Unwatched(w, c, files), c, files);
  }

  /** What an invocation leaves in the cache: nothing new, or its own entry. */
  lemma InvokedStores(w: World, c: Call, s: State, faults: Faults)
    ensures var after, r := Invoked(w, c, s, faults).0.cache, CapturedRun(w, c, MissFiles(w, c, s, faults));
            if Stores(w, c, s, faults) then
              var key := Key(w, UserRun(c, s.files));
              after == s.cache[key := Stored(w, r, PartsAt(s.cache, key), faults.storeStops)]
            else forall key :: PartsAt(after, key) == PartsAt(s.cache, key)
  {
    if Usable(w, UserRun(c, s.files)) && Invoked(w, c, s, faults).1 != Hit {
      InvokedMisses(w, c, s, faults);
      MissStoring(w, c, Key(w, UserRun(c, s.files)), s.(files := MissFiles(w, c, s, faults)), faults);
    }
  }

  lemma MissStoring(w: World, c: Call, key: string, s: State, faults: Faults)
    ensures var after, r := MissFrom(w, c, key, s, faults).0.cache, CapturedRun(w, c, s.files);
            if Result(w, r).code == 0 && !DepFileMissing(w, c, r, faults) && Allows(faults.storeStops, 0)
            then after == s.cache[key := Stored(w, r, PartsAt(s.cache, key), faults.storeStops)]
            else forall k :: PartsAt(after, k) == PartsAt(s.cache, k)
  {
  }

  lemma InvAfterStore(w: World, cache: Cache, key: string, parts: Parts, trusted: Trust,
                      clean: bool, unwatched: map<string, Option<string>>, after: Cache, trusted': Trust)
    requires Inv(w, cache, trusted) && (clean ==> Sound(w, key, parts, unwatched))
    requires after == cache[key := parts] && trusted' == if clean then trusted[key := unwatched] else trusted - {key}
    ensures Inv(w, after, trusted')
  {
  }

  lemma InvAfterNothing(w: World, cache: Cache, after: Cache, trusted: Trust)
    requires Inv(w, cache, trusted) && forall key :: PartsAt(after, key) == PartsAt(cache, key)
    ensures Inv(w, after, trusted)
  {
    forall key | key in after && key in trusted ensures Sound(w, key, after[key], trusted[key]) {
      assert PartsAt(after, key) == PartsAt(cache, key);
    }
  }

  lemma StoreChangesItsKey(w: World, c: Call, s: State, faults: Faults)
    requires Stores(w, c, s, faults)
    ensures var key, after := Key(w, UserRun(c, s.files)), Invoked(w, c, s, faults).0.cache;
            after == s.cache[key := PartsAt(after, key)]
  {
    InvokedStores(w, c, s, faults);
    var key, r := Key(w, UserRun(c, s.files)), CapturedRun(w, c, MissFiles(w, c, s, faults));
    Updated(s.cache, key, Stored(w, r, PartsAt(s.cache, key), faults.storeStops), Invoked(w, c, s, faults).0.cache);
  }

  lemma Updated(cache: Cache, key: string, parts: Parts, after: Cache)
    requires after == cache[key := parts]
    ensures after == cache[key := PartsAt(after, key)]
  {
  }

  lemma TrustingIs(w: World, c: Call, s: State, faults: Faults, trusted: Trust)
    requires Stores(w, c, s, faults)
    ensures var key := Key(w, UserRun(c, s.files));
            Trusting(w, s, Invoke(c, faults), trusted) ==
            if CleanStore(w, c, s, faults) then trusted[key := Unwatched(w, c, MissFiles(w, c, s, faults))]
            else trusted - {key}
  {
  }

  lemma StoreKeepsInv(w: World, c: Call, s: State, faults: Faults, trusted: Trust)
    requires Inv(w, s.cache, trusted) && Stores(w, c, s, faults)
    ensures Inv(w, Invoked(w, c, s, faults).0.cache, Trusting(w, s, Invoke(c, faults), trusted))
  {
    var clean, files := CleanStore(w, c, s, faults), MissFiles(w, c, s, faults);
    var key, after := Key(w, UserRun(c, s.files)), Invoked(w, c, s, faults).0.cache;
    StoreChangesItsKey(w, c, s, faults);
    TrustingIs(w, c, s, faults, trusted);
    if clean {
      CleanStoreIsSound(w, c, s, faults);
    }
    InvAfterStore(w, s.cache, key, PartsAt(after, key), trusted, clean, if clean then Unwatched(w, c, files) else map[],
                  after, Trusting(w, s, Invoke(c, faults), trusted));
  }

  lemma InvokeKeepsInv(w: World, c: Call, s: State, faults: Faults, trusted: Trust)
    requires Inv(w, s.cache, trusted)
    ensures Inv(w, Invoked(w, c, s, faults).0.cache, Trusting(w, s, Invoke(c, faults), trusted))
  {
    if Stores(w, c, s, faults) {
      StoreKeepsInv(w, c, s, faults, trusted);
    } else {
      InvokedStores(w, c, s, faults);
      InvAfterNothing(w, s.cache, Invoked(w, c, s, faults).0.cache, trusted);
    }
  }

  lemma CleanStoreIsSound(w: World, c: Call, s: State, faults: Faults)
    requires Stores(w, c, s, faults) && CleanStore(w, c, s, faults)
    ensures var key := Key(w, UserRun(c, s.files));
            Sound(w, key, PartsAt(Invoked(w, c, s, faults).0.cache, key), Unwatched(w, c, MissFiles(w, c, s, faults)))
  {
    InvokedStores(w, c, s, faults);
    MissFilesKeepKey(w, c, s, faults);
    MissFilesStayApart(w, c, s, faults);
    StoredIsSound(w, c, MissFiles(w, c, s, faults), PartsAt(s.cache, Key(w, UserRun(c, s.files))), faults.storeStops);
  }

  lemma LosingKeepsRun(w: World, key: string, parts: Parts, lost: set<(string, Part)>, c: Call, files: Files)
    requires FromRun(w, parts, c, files)
    ensures FromRun(w, Remaining(parts, key, lost), c, files)
  {
  }

  lemma LosingKeepsSound(w: World, key: string, parts: Parts, lost: set<(string, Part)>, unwatched: map<string, Option<string>>)
    requires Sound(w, key, parts, unwatched)
    ensures Sound(w, key, Remaining(parts, key, lost), unwatched)
  {
    if parts.manifest.Some? {
      var c, files :| Explains(w, key, parts, unwatched, c, files);
      LosingKeepsRun(w, key, parts, lost, c, files);
      assert Explains(w, key, Remaining(parts, key, lost), unwatched, c, files);
    }
  }

  lemma LoseKeepsInv(w: World, s: State, lost: set<(string, Part)>, trusted: Trust)
    requires Inv(w, s.cache, trusted)
    ensures Inv(w, Step(w, s, Lose(lost)).cache, trusted)
  {
    forall key | key in s.cache && key in trusted ensures Sound(w, key, Remaining(s.cache[key], key, lost), trusted[key]) {
      LosingKeepsSound(w, key, s.cache[key], lost, trusted[key]);
    }
  }

  /** Over any run whatever, every entry that is used and trusted comes from one run under its key. */
  lemma {:induction false} RunKeepsInv(w: World, s: State, ops: seq<Op>)
    ensures Inv(w, RunOf(w, s, ops).cache, Trusted(w, s, ops))
  {
    if ops != [] {
      var before, op := ops[..|ops| - 1], ops[|ops| - 1];
      RunKeepsInv(w, s, before);
      match op
      case Edit(_) =>
      case Lose(lost) => LoseKeepsInv(w, RunOf(w, s, before), lost, Trusted(w, s, before));
      case Invoke(c, faults) => InvokeKeepsInv(w, c, RunOf(w, s, before), faults, Trusted(w, s, before));
    }
  }

  ghost predicate FairStep(w: World, s: State, op: Op) {
    op.Invoke? && Stores(w, op.call, s, op.faults) ==> CleanStore(w, op.call, s, op.faults)
  }

  ghost predicate FairRun(w: World, s: State, ops: seq<Op>) {
    ops != [] ==>
    FairRun(w, s, ops[..|ops| - 1]) && FairStep(w, RunOf(w, s, ops[..|ops| - 1]), ops[|ops| - 1])
  }

  ghost predicate ManifestsTrusted(cache: Cache, trusted: Trust) {
    forall key :: PartsAt(cache, key).manifest.Some? ==> key in trusted
  }

  /** If every store was clean, every entry that can be used is trusted. */
  lemma {:induction false} FairRunsAreTrusted(w: World, files: Files, ops: seq<Op>)
    requires FairRun(w, State(files, map[]), ops)
    ensures ManifestsTrusted(RunOf(w, State(files, map[]), ops).cache, Trusted(w, State(files, map[]), ops))
  {
    if ops != [] {
      FairRunsAreTrusted(w, files, ops[..|ops| - 1]);
      var s, trusted := RunOf(w, State(files, map[]), ops[..|ops| - 1]), Trusted(w, State(files, map[]), ops[..|ops| - 1]);
      FairStepTrusts(w, s, ops[|ops| - 1], trusted);
    }
  }

  lemma FairStepTrusts(w: World, s: State, op: Op, trusted: Trust)
    requires FairStep(w, s, op) && ManifestsTrusted(s.cache, trusted)
    ensures ManifestsTrusted(Step(w, s, op).cache, Trusting(w, s, op, trusted))
  {
    if op.Invoke? {
      InvokedStores(w, op.call, s, op.faults);
    } else if op.Lose? {
      forall key | PartsAt(Step(w, s, op).cache, key).manifest.Some? ensures key in trusted {
        assert PartsAt(s.cache, key).manifest.Some?;
      }
    }
  }

  // ---- what an invocation delivers ----

  /** The files hold what the caller's own run of moc produces: it succeeds, with this output and JSON. */
  ghost predicate Delivers(w: World, u: Run, files: Files) {
    var p := Asked(w, u);
    && Result(w, u).code == 0
    && Found(w, files, OutPath(p)) == OutText(w, u)
    && (p.wantsJson ==> Found(w, files, JsonPath(p)) == JsonText(w, u))
  }

  lemma SoundHitDelivers(w: World, u: Run, parts: Parts, unwatched: map<string, Option<string>>, deps: seq<string>)
    requires GoodHash(w) && Adaptive(w) && Keyable(w, u) && AllHashed(w, u.files)
    requires Sound(w, Key(w, u), parts, unwatched) && AsThen(w, u.files, unwatched)
    requires Lookup(w, u, parts) == Some(deps) && OutputsApart(w, Asked(w, u))
    ensures Delivers(w, u, Wrote(w, u.files, HitWrites(Asked(w, u), parts, deps)))
  {
    var c, files :| Explains(w, Key(w, u), parts, unwatched, c, files);
    HitIsReal(w, parts, c, files, u);
    HitFiles(w, Asked(w, u), u.files, parts, deps);
  }

  lemma HitDelivers(w: World, c: Call, s: State, faults: Faults, unwatched: map<string, Option<string>>)
    requires GoodHash(w) && Adaptive(w) && Proper(w, c, s.files) && Invoked(w, c, s, faults).1 == Hit
    requires var key := Key(w, UserRun(c, s.files)); Sound(w, key, PartsAt(s.cache, key), unwatched)
    requires AsThen(w, s.files, unwatched)
    ensures Delivers(w, UserRun(c, s.files), Invoked(w, c, s, faults).0.files)
    ensures Invoked(w, c, s, faults).0.cache == s.cache
  {
    var deps := InvokedHits(w, c, s, faults);
    var u := UserRun(c, s.files);
    SoundHitDelivers(w, u, PartsAt(s.cache, Key(w, u)), unwatched, deps);
  }

  /** A hit's files end up at their paths when these are distinct. */
  lemma HitFiles(w: World, p: Args.Parsed, files: Files, parts: Parts, deps: seq<string>)
    requires Present(parts, p.wantsJson)
    requires OutputsApart(w, p)
    ensures var after := Wrote(w, files, HitWrites(p, parts, deps));
            && Found(w, after, OutPath(p)) == parts.output
            && (p.wantsJson ==> Found(w, after, JsonPath(p)) == parts.json)
            && (p.wantsDep ==> Found(w, after, DepPath(p)) == Some(DepText(p, deps)))
  {
    var writes := HitWrites(p, parts, deps);
    var dep := if p.wantsDep then [(DepPath(p), DepText(p, deps))] else [];
    var json := if p.wantsJson then [(JsonPath(p), parts.json.value)] else [];
    var one: seq<(string, string)> := [(OutPath(p), parts.output.value)];
    WroteSum(w, files, one, dep + json);
    WroteSum(w, Wrote(w, files, one), dep, json);
    assert one + (dep + json) == writes;
    var first := Wrote(w, files, one);
    WroteOne(w, files, OutPath(p), parts.output.value);
    if p.wantsDep {
      WroteOne(w, first, DepPath(p), DepText(p, deps));
    }
    var second := Wrote(w, first, dep);
    if p.wantsJson {
      WroteOne(w, second, JsonPath(p), parts.json.value);
    }
  }

  lemma {:induction false} WroteSum(w: World, files: Files, a: seq<(string, string)>, b: seq<(string, string)>)
    ensures Wrote(w, files, a + b) == Wrote(w, Wrote(w, files, a), b)
  {
    if b == [] {
      assert a + b == a;
    } else {
      WroteSum(w, files, a, b[..|b| - 1]);
      assert (a + b)[..|a + b| - 1] == a + b[..|b| - 1];
    }
  }

  lemma WroteOne(w: World, files: Files, path: string, text: string)
    ensures Wrote(w, files, [(path, text)]) == files[w.resolve(path) := text]
  {
    assert [(path, text)][..0] == [];
  }

  /** A hit that stopped halfway wrote nothing that moc then looked at. */
  ghost predicate LooksApart(w: World, c: Call, s: State, faults: Faults) {
    var u, r := UserRun(c, s.files), CapturedRun(w, c, MissFiles(w, c, s, faults));
    MissFiles(w, c, s, faults) != s.files && Usable(w, r) ==>
    forall k :: 0 <= k < |Traced(w, r).looks| ==> w.resolve(Traced(w, r).looks[k]) !in Targets(w, Asked(w, u))
  }

  lemma CapturedLooksAlike(w: World, c: Call, s: State, faults: Faults)
    requires Adaptive(w) && Proper(w, c, s.files) && LooksApart(w, c, s, faults)
    ensures var r, u := CapturedRun(w, c, MissFiles(w, c, s, faults)), UserRun(c, s.files);
            && Usable(w, r) && Usable(w, u) && GivenTo(w, r) == GivenTo(w, u)
            && SameAnswers(w, Traced(w, r).looks, r.files, u.files)
            && OutputsApart(w, Asked(w, r)) && OutputsApart(w, Asked(w, u)) && Asked(w, r).wantsJson == Asked(w, u).wantsJson
  {
    var files := MissFiles(w, c, s, faults);
    var r := CapturedRun(w, c, files);
    MissFilesKeepKey(w, c, s, faults);
    MissFilesStayApart(w, c, s, faults);
    CaptureKeepsKey(w, c, files);
    var looks := Traced(w, r).looks;
    forall k | 0 <= k < |looks| ensures SameAt(w, files, s.files, looks[k]) {
      if files != s.files {
        MissFilesKeepSources(w, c, s, faults, looks[k]);
      }
    }
  }

  /** The captured run gives what the caller's own run would have given. */
  lemma CapturedIsReal(w: World, c: Call, s: State, faults: Faults)
    requires Adaptive(w) && Proper(w, c, s.files) && LooksApart(w, c, s, faults)
    requires Result(w, CapturedRun(w, c, MissFiles(w, c, s, faults))).code == 0
    ensures SameResult(w, CapturedRun(w, c, MissFiles(w, c, s, faults)), UserRun(c, s.files))
  {
    CapturedLooksAlike(w, c, s, faults);
    SameReading(w, CapturedRun(w, c, MissFiles(w, c, s, faults)), UserRun(c, s.files));
  }

  /** Taking the temporary dep file away again leaves the outputs. */
  lemma KeptOutputs(w: World, c: Call, files: Files)
    requires Usable(w, UserRun(c, files)) && Capturable(w, c, files) && Apart(w, c, files)
    ensures var u, r := UserRun(c, files), CapturedRun(w, c, files);
            var kept := Left(w, c, files);
            && Found(w, kept, OutPath(Asked(w, u))) == OutText(w, r)
            && Found(w, kept, JsonPath(Asked(w, u))) == JsonText(w, r)
            && Asked(w, r).wantsJson == Asked(w, u).wantsJson
  {
    CaptureKeepsKey(w, c, files);
  }

  lemma MissFilesStayApart(w: World, c: Call, s: State, faults: Faults)
    requires Proper(w, c, s.files)
    ensures var files := MissFiles(w, c, s, faults);
            Usable(w, UserRun(c, files)) && Capturable(w, c, files) && Apart(w, c, files)
  {
    MissFilesKeepKey(w, c, s, faults);
  }

  lemma MissDelivers(w: World, c: Call, s: State, faults: Faults)
    requires Adaptive(w) && Proper(w, c, s.files) && LooksApart(w, c, s, faults)
    requires Invoked(w, c, s, faults).1 == RealRun(0)
    ensures Delivers(w, UserRun(c, s.files), Invoked(w, c, s, faults).0.files)
  {
    InvokedMisses(w, c, s, faults);
    MissFilesKeepKey(w, c, s, faults);
    MissFilesStayApart(w, c, s, faults);
    KeptOutputs(w, c, MissFiles(w, c, s, faults));
    CapturedIsReal(w, c, s, faults);
  }

  // ---- what else an invocation leaves ----

  /** A line without an output or an input, or whose input is no file, is moc's own business. */
  lemma UncachedIsPassedOn(w: World, c: Call, s: State, faults: Faults)
    requires var p := Asked(w, UserRun(c, s.files));
             OrEmpty(p.output) == "" || OrEmpty(p.Input()) == "" || w.resolve(OrEmpty(p.Input())) !in s.files
    ensures var ran := w.other(c.tool, c.argv, s.files);
            Invoked(w, c, s, faults) == (State(s.files + ran.writes, s.cache), RealRun(ran.code))
  {
  }

  lemma TraceRepeats(w: World, r: Run, u: Run)
    requires Adaptive(w) && Usable(w, r) && Usable(w, u) && GivenTo(w, r) == GivenTo(w, u)
    requires SameAnswers(w, Traced(w, r).looks, r.files, u.files)
    ensures Traced(w, r) == Traced(w, u) && Result(w, r).code == Result(w, u).code
  {
  }

  /** moc does in the captured run what it would do in the caller's own, whether it succeeds or fails. */
  lemma CapturedEndsAlike(w: World, c: Call, s: State, faults: Faults)
    requires Adaptive(w) && Proper(w, c, s.files) && LooksApart(w, c, s, faults)
    ensures var r, u := CapturedRun(w, c, MissFiles(w, c, s, faults)), UserRun(c, s.files);
            Usable(w, r) && Usable(w, u) && Traced(w, r) == Traced(w, u) && Result(w, r).code == Result(w, u).code
  {
    CapturedLooksAlike(w, c, s, faults);
    TraceRepeats(w, CapturedRun(w, c, MissFiles(w, c, s, faults)), UserRun(c, s.files));
  }

  /** An invocation that does not hit ends with the exit code of the caller's own run; a failure stores nothing. */
  lemma MissExitsAsMoc(w: World, c: Call, s: State, faults: Faults)
    requires Adaptive(w) && Proper(w, c, s.files) && LooksApart(w, c, s, faults) && Invoked(w, c, s, faults).1 != Hit
    ensures var (t, end) := Invoked(w, c, s, faults);
            end == RealRun(Result(w, UserRun(c, s.files)).code) && (end.code != 0 ==> t.cache == s.cache)
  {
    InvokedMisses(w, c, s, faults);
    CapturedEndsAlike(w, c, s, faults);
  }

  /** A miss leaves all the files as the caller's own run would, but that the temporary file is gone. */
  lemma MissLeavesAll(w: World, c: Call, s: State, faults: Faults)
    requires Adaptive(w) && Proper(w, c, s.files) && MissFiles(w, c, s, faults) == s.files
    requires Invoked(w, c, s, faults).1 != Hit
    ensures var u, after := UserRun(c, s.files), Invoked(w, c, s, faults).0.files;
            after == if Asked(w, u).wantsDep then After(w, u) else After(w, u) - {w.resolve(c.tmp)}
  {
    InvokedMisses(w, c, s, faults);
    CapturedEndsAlike(w, c, s, faults);
    CaptureKeepsKey(w, c, s.files);
    if !Asked(w, UserRun(c, s.files)).wantsDep {
      CaptureAddsOne(w, c, s.files);
    }
  }

  lemma CaptureAddsOne(w: World, c: Call, files: Files)
    requires Capturable(w, c, files) && !Asked(w, UserRun(c, files)).wantsDep
    requires var u, r := UserRun(c, files), CapturedRun(w, c, files);
             Usable(w, u) && Usable(w, r) && Traced(w, r) == Traced(w, u)
    ensures var u, r, tmp := UserRun(c, files), CapturedRun(w, c, files), w.resolve(c.tmp);
            After(w, r) - {tmp} == After(w, u) - {tmp}
  {
    var u, r, tmp := UserRun(c, files), CapturedRun(w, c, files), w.resolve(c.tmp);
    CaptureKeepsKey(w, c, files);
    WritesBut(w, u, r, tmp);
    SumBut(files, Result(w, r).writes, Result(w, u).writes, tmp);
  }

  lemma WritesBut(w: World, u: Run, r: Run, tmp: string)
    requires Usable(w, u) && Usable(w, r) && Traced(w, r) == Traced(w, u)
    requires !Asked(w, u).wantsDep && Asked(w, r).wantsDep && w.resolve(DepPath(Asked(w, r))) == tmp
    requires OutPath(Asked(w, r)) == OutPath(Asked(w, u)) && Asked(w, r).wantsJson == Asked(w, u).wantsJson
    ensures Result(w, r).writes - {tmp} == Result(w, u).writes - {tmp}
  {
    if Traced(w, u).end.Finish? {
      var t := Traced(w, u);
      OutputsBut(w, u, r, t.looks, t.end.output, t.end.json, tmp);
    }
  }

  lemma SumBut(files: Files, a: Files, b: Files, tmp: string)
    requires a - {tmp} == b - {tmp}
    ensures (files + a) - {tmp} == (files + b) - {tmp}
  {
    forall path | path in (files + a) - {tmp} ensures path in files + b && (files + a)[path] == (files + b)[path] {
      assert path in a <==> path in a - {tmp};
      assert path in b <==> path in b - {tmp};
      assert path in a ==> a[path] == (a - {tmp})[path] == (b - {tmp})[path];
    }
    forall path | path in (files + b) - {tmp} ensures path in files + a {
      assert path in b <==> path in b - {tmp};
    }
  }

  lemma OutputsBut(w: World, u: Run, r: Run, looks: seq<string>, output: string, json: string, tmp: string)
    requires !Asked(w, u).wantsDep && Asked(w, r).wantsDep && w.resolve(DepPath(Asked(w, r))) == tmp
    requires OutPath(Asked(w, r)) == OutPath(Asked(w, u)) && Asked(w, r).wantsJson == Asked(w, u).wantsJson
    ensures Outputs(w, r, looks, output, json) - {tmp} == Outputs(w, u, looks, output, json) - {tmp}
  {
  }

  /**
   Transparency. Whatever files were edited, whatever entries were lost, whatever was invoked and however
   it was cut off before: a proper invocation that succeeds leaves exactly the output, and the JSON, that
   moc itself would produce from the files as they now are. For a hit this asks that the last store under
   its own key was clean, and that the paths the stored run looked at beside those in its manifest hold
   what they held then; what happened under other keys does not matter. And a hit changes nothing in the
   cache.
   */
  lemma Transparent(w: World, files: Files, ops: seq<Op>, c: Call, faults: Faults)
    requires GoodHash(w) && Adaptive(w)
    requires Proper(w, c, RunOf(w, State(files, map[]), ops).files)
    ensures var s, trusted := RunOf(w, State(files, map[]), ops), Trusted(w, State(files, map[]), ops);
            var u, after := UserRun(c, s.files), Invoked(w, c, s, faults);
            && (after.1 == Hit && Key(w, u) in trusted && AsThen(w, s.files, trusted[Key(w, u)]) ==>
                  Delivers(w, u, after.0.files) && after.0.cache == s.cache)
            && (after.1 == RealRun(0) && LooksApart(w, c, s, faults) ==> Delivers(w, u, after.0.files))
  {
    var s, trusted := RunOf(w, State(files, map[]), ops), Trusted(w, State(files, map[]), ops);
    var key := Key(w, UserRun(c, s.files));
    RunKeepsInv(w, State(files, map[]), ops);
    if Invoked(w, c, s, faults).1 == Hit && key in trusted && AsThen(w, s.files, trusted[key]) {
      assert Sound(w, key, PartsAt(s.cache, key), trusted[key]);
      HitDelivers(w, c, s, faults, trusted[key]);
    } else if Invoked(w, c, s, faults).1 == RealRun(0) && LooksApart(w, c, s, faults) {
      MissDelivers(w, c, s, faults);
    }
  }
}
