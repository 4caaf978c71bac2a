/** What a hit rests on beside the manifest, in both directions: exactly the paths moc looked at unwatched. */
module MocExactness {
  import opened Common
  import opened MocCache
  import opened MocRuns
  import opened MocTransparency
  import opened MocWorld
  import Args

  // ---- another moc in the same place ----

  /** The same surroundings, with a moc of its own. */
  ghost predicate SamePlace(w: World, v: World) {
    v == w.(moc := v.moc)
  }

  /** A deterministic reader that did, in the recorded run, just what moc did. */
  ghost predicate Alternative(w: World, v: World, c: Call, files: Files)
    requires Usable(w, CapturedRun(w, c, files))
  {
    var r := CapturedRun(w, c, files);
    SamePlace(w, v) && Adaptive(v) && v.moc(GivenTo(w, r), files) == Traced(w, r)
  }

  /** What a command line asks for, and what moc is given of it, does not depend on moc. */
  lemma AskedAnyway(w: World, v: World, r: Run)
    requires SamePlace(w, v)
    ensures Asked(v, r) == Asked(w, r) && Usable(v, r) == Usable(w, r)
    ensures Usable(w, r) ==> GivenTo(v, r) == GivenTo(w, r)
  {
    var args, idW, idV := Args.Split(r.argv), Ids(w, r.files), Ids(v, r.files);
    Args.SameIdentitiesSameWords(args, idV, idW);
    assert Asked(v, r) == Asked(w, r);
    assert Forced(v, r) == Forced(w, r);
  }

  // ---- when the unwatched paths are as they were ----

  /** The entry holds what this world's moc would produce. */
  ghost predicate EntryHolds(v: World, u: Run, parts: Parts) {
    && Result(v, u).code == 0 && parts.output == OutText(v, u)
    && (Asked(v, u).wantsJson ==> parts.json == JsonText(v, u))
  }

  /** An entry that can be used holds what the recorded run ended with. */
  lemma RecordedEnd(w: World, u: Run, parts: Parts, c: Call, files: Files)
    requires Usable(w, u) && Recorded(w, Key(w, u), parts, c, files) && Present(parts, Asked(w, u).wantsJson)
    requires Asked(w, UserRun(c, files)).wantsJson == Asked(w, u).wantsJson
    ensures Usable(w, CapturedRun(w, c, files)) && Traced(w, CapturedRun(w, c, files)).end.Finish?
    ensures var end := Traced(w, CapturedRun(w, c, files)).end;
            parts.output == Some(end.output) && (Asked(w, u).wantsJson ==> parts.json == Some(end.json))
  {
    CaptureKeepsKey(w, c, files);
    FinishLeaves(w, CapturedRun(w, c, files));
  }

  lemma ReadsAlike(w: World, v: World, given: Given, before: Files, now: Files)
    requires SamePlace(w, v) && Adaptive(v) && v.moc(given, before) == w.moc(given, before)
    requires SameAnswers(w, w.moc(given, before).looks, before, now)
    ensures v.moc(given, now) == w.moc(given, before)
  {
    assert SameAnswers(v, v.moc(given, before).looks, before, now);
  }

  lemma EndsAs(v: World, u: Run, parts: Parts, end: End)
    requires Usable(v, u) && OutputsApart(v, Asked(v, u)) && Traced(v, u).end == end && end.Finish?
    requires parts.output == Some(end.output) && (Asked(v, u).wantsJson ==> parts.json == Some(end.json))
    ensures EntryHolds(v, u, parts)
  {
    FinishLeaves(v, u);
  }

  /** Then every reader that did in the recorded run what moc did would end as the recorded run did. */
  lemma AlternativesAgree(w: World, v: World, parts: Parts, c: Call, files: Files, u: Run)
    requires GoodHash(w) && Keyable(w, u) && Recorded(w, Key(w, u), parts, c, files)
    requires AllHashed(w, u.files) && OutputsApart(w, Asked(w, u)) && Lookup(w, u, parts).Some?
    requires AsThen(w, u.files, Unwatched(w, c, files)) && Alternative(w, v, c, files)
    ensures EntryHolds(v, u, parts)
  {
    var r := CapturedRun(w, c, files);
    SameKeySameGiven(w, UserRun(c, files), u);
    CaptureKeepsKey(w, c, files);
    HitAnswersAlike(w, parts, c, files, u);
    ReadsAlike(w, v, GivenTo(w, r), files, u.files);
    RecordedEnd(w, u, parts, c, files);
    AskedAnyway(w, v, u);
    EndsAs(v, u, parts, Traced(w, r).end);
  }

  // ---- when one of them is not ----

  /** A reader that makes the recorded looks, and ends otherwise where any of them is answered otherwise. */
  ghost function Sceptical(w: World, before: Files, asked: Given, t: Trace, given: Given, now: Files): Trace
    requires t.end.Finish?
  {
    if given != asked then Trace([], Fail(1, map[]))
    else if SameAnswers(w, t.looks, before, now) then t
    else t.(end := t.end.(output := t.end.output + "!"))
  }

  ghost function Sceptic(w: World, c: Call, files: Files): World
    requires Usable(w, CapturedRun(w, c, files)) && Traced(w, CapturedRun(w, c, files)).end.Finish?
  {
    var r := CapturedRun(w, c, files);
    w.(moc := (given, now) => Sceptical(w, files, GivenTo(w, r), Traced(w, r), given, now))
  }

  lemma ScepticIsAlternative(w: World, c: Call, files: Files)
    requires Usable(w, CapturedRun(w, c, files)) && Traced(w, CapturedRun(w, c, files)).end.Finish?
    ensures Alternative(w, Sceptic(w, c, files), c, files)
  {
    var r, v := CapturedRun(w, c, files), Sceptic(w, c, files);
    forall given: Given, a: Files, b: Files | SameAnswers(v, v.moc(given, a).looks, a, b)
      ensures v.moc(given, b) == v.moc(given, a) {
      if given == GivenTo(w, r) {
        var looks := Traced(w, r).looks;
        assert forall k :: 0 <= k < |looks| ==> SameAt(v, a, b, looks[k]);
        assert SameAnswers(w, looks, files, a) <==> SameAnswers(w, looks, files, b);
      }
    }
  }

  lemma ChangedAnswer(w: World, c: Call, files: Files, now: Files)
    requires Usable(w, CapturedRun(w, c, files)) && !AsThen(w, now, Unwatched(w, c, files))
    ensures !SameAnswers(w, Traced(w, CapturedRun(w, c, files)).looks, files, now)
  {
    var looks, unwatched := Traced(w, CapturedRun(w, c, files)).looks, Unwatched(w, c, files);
    var path :| path in unwatched && Found(w, now, path) != unwatched[path];
    var k :| 0 <= k < |looks| && looks[k] == path;
    assert !SameAt(w, files, now, looks[k]);
  }

  lemma ScepticDisagrees(w: World, parts: Parts, c: Call, files: Files, u: Run)
    requires GoodHash(w) && Keyable(w, u) && Recorded(w, Key(w, u), parts, c, files)
    requires OutputsApart(w, Asked(w, u)) && Lookup(w, u, parts).Some?
    requires !AsThen(w, u.files, Unwatched(w, c, files))
    ensures Usable(w, CapturedRun(w, c, files)) && Traced(w, CapturedRun(w, c, files)).end.Finish?
    ensures Alternative(w, Sceptic(w, c, files), c, files) && !EntryHolds(Sceptic(w, c, files), u, parts)
  {
    var r := CapturedRun(w, c, files);
    SameKeySameGiven(w, UserRun(c, files), u);
    CaptureKeepsKey(w, c, files);
    RecordedEnd(w, u, parts, c, files);
    ScepticIsAlternative(w, c, files);
    ChangedAnswer(w, c, files, u.files);
    var v := Sceptic(w, c, files);
    AskedAnyway(w, v, u);
    var end := Traced(w, r).end;
    assert Traced(v, u).end == end.(output := end.output + "!");
    FinishLeaves(v, u);
  }

  /**
   Exactly what a hit rests on. Of an entry that is found usable, nothing is known but the run it was
   recorded from: it holds what moc would now produce, for every deterministic reader that did in that run
   what moc did, if and only if the unwatched paths hold what they held then.
   */
  lemma HitIsRealExactly(w: World, parts: Parts, c: Call, files: Files, u: Run)
    requires GoodHash(w) && Keyable(w, u) && Recorded(w, Key(w, u), parts, c, files)
    requires AllHashed(w, u.files) && OutputsApart(w, Asked(w, u)) && Lookup(w, u, parts).Some?
    ensures AsThen(w, u.files, Unwatched(w, c, files)) <==>
            forall v: World :: Alternative(w, v, c, files) ==> EntryHolds(v, u, parts)
  {
    if AsThen(w, u.files, Unwatched(w, c, files)) {
      forall v: World | Alternative(w, v, c, files) ensures EntryHolds(v, u, parts) {
        AlternativesAgree(w, v, parts, c, files, u);
      }
    } else {
      ScepticDisagrees(w, parts, c, files, u);
    }
  }

  lemma DeliversAnyway(w: World, v: World, s: State, c: Call, parts: Parts, left: Files)
    requires SamePlace(w, v)
    requires var p := Asked(w, UserRun(c, s.files));
             Found(w, left, OutPath(p)) == parts.output && (p.wantsJson ==> Found(w, left, JsonPath(p)) == parts.json)
    ensures Delivers(v, UserRun(c, s.files), left) <==> EntryHolds(v, UserRun(c, s.files), parts)
  {
    AskedAnyway(w, v, UserRun(c, s.files));
  }

  /** A hit on an entry leaves what every such reader would produce, exactly in that case. */
  lemma HitDeliversExactly(w: World, c: Call, s: State, faults: Faults, call: Call, before: Files)
    requires GoodHash(w) && Proper(w, c, s.files) && Invoked(w, c, s, faults).1 == Hit
    requires var key := Key(w, UserRun(c, s.files)); Recorded(w, key, PartsAt(s.cache, key), call, before)
    ensures AsThen(w, s.files, Unwatched(w, call, before)) <==>
            forall v: World :: Alternative(w, v, call, before) ==>
              Delivers(v, UserRun(c, s.files), Invoked(w, c, s, faults).0.files)
  {
    var u, left := UserRun(c, s.files), Invoked(w, c, s, faults).0.files;
    var parts := PartsAt(s.cache, Key(w, u));
    var deps := InvokedHits(w, c, s, faults);
    HitFiles(w, Asked(w, u), s.files, parts, deps);
    HitIsRealExactly(w, parts, call, before, u);
    forall v: World | Alternative(w, v, call, before) ensures Delivers(v, u, left) <==> EntryHolds(v, u, parts) {
      DeliversAnyway(w, v, s, c, parts, left);
    }
  }

  /** The same of whole runs: a hit on a trusted entry leaves what every deterministic reader that did in
      the storing run what moc did would produce, if and only if the unwatched paths are as they were. */
  lemma TransparentExactly(w: World, files: Files, ops: seq<Op>, c: Call, faults: Faults) returns (call: Call, before: Files)
    requires GoodHash(w)
    requires Proper(w, c, RunOf(w, State(files, map[]), ops).files)
    requires var s := RunOf(w, State(files, map[]), ops);
             Invoked(w, c, s, faults).1 == Hit && Key(w, UserRun(c, s.files)) in Trusted(w, State(files, map[]), ops)
    ensures var s := RunOf(w, State(files, map[]), ops);
            var u, after := UserRun(c, s.files), Invoked(w, c, s, faults).0;
            var unwatched := Trusted(w, State(files, map[]), ops)[Key(w, u)];
            && Explains(w, Key(w, u), PartsAt(s.cache, Key(w, u)), unwatched, call, before)
            && (AsThen(w, s.files, unwatched) <==>
                forall v: World :: Alternative(w, v, call, before) ==> Delivers(v, u, after.files))
  {
    RunKeepsInv(w, State(files, map[]), ops);
    call, before := StoringRun(w, RunOf(w, State(files, map[]), ops), Trusted(w, State(files, map[]), ops), c, faults);
    HitDeliversExactly(w, c, RunOf(w, State(files, map[]), ops), faults, call, before);
  }

  lemma StoringRun(w: World, s: State, trusted: Trust, c: Call, faults: Faults) returns (call: Call, before: Files)
    requires Inv(w, s.cache, trusted) && Invoked(w, c, s, faults).1 == Hit && Usable(w, UserRun(c, s.files))
    requires Key(w, UserRun(c, s.files)) in trusted
    ensures var key := Key(w, UserRun(c, s.files)); Explains(w, key, PartsAt(s.cache, key), trusted[key], call, before)
  {
    var key := Key(w, UserRun(c, s.files));
    var deps := InvokedHits(w, c, s, faults);
    assert Sound(w, key, PartsAt(s.cache, key), trusted[key]);
    call, before :| Explains(w, key, PartsAt(s.cache, key), trusted[key], call, before);
  }
}
