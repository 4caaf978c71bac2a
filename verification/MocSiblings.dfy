/** Sharing between build trees: what one tree stored and another finds usable is what moc would produce there. */
module MocSiblings {
  import opened Common
  import opened MocCache
  import opened MocExactness
  import opened MocTransparency
  import opened MocWorld
  import opened Text
  import Args
  import ArgsTold
  import Basedir
  import CacheKey
  import DepFile
  import Manifest

  // ---- two trees ----

  /** Two build trees with one cache: hashing is the same, and both base directories are absolute. */
  ghost predicate Siblings(w: World, v: World) {
    && w.sha == v.sha && w.hashed == v.hashed
    && w.basedir != "" && w.basedir[0] == '/' && v.basedir != "" && v.basedir[0] == '/'
  }

  /** Equal up to the base directory. */
  predicate Alike(w: World, v: World, s: string, t: string) {
    Normal(w, s) == Normal(v, t)
  }

  /** The path in the other tree. */
  function There(w: World, v: World, path: string): string {
    Basedir.Denormalized(Normal(w, path), v.basedir)
  }

  // ---- words that only differ in the base directory ----

  predicate Plain(s: string) {
    Free(s, '/') && Free(s, '<')
  }

  /** What holds no slash is not rewritten. */
  lemma PlainIsNormal(w: World, s: string)
    requires w.basedir != "" && w.basedir[0] == '/' && Plain(s)
    ensures Normal(w, s) == s
  {
    forall i, j | 0 <= i < |s| && 0 <= j < |Spelling(w)| ensures !Basedir.BeginsWith(s[i..], Spelling(w)[j]) {
      assert s[i..][0] == s[i] != '/';
    }
    Basedir.SiblingsUntouched(s, Spelling(w), |s|);
    assert s[..|s|] == s && Normal(w, s[|s|..]) == "";
  }

  lemma PlainStays(w: World, v: World, s: string, t: string)
    requires Siblings(w, v) && Renamable(v, t) && Alike(w, v, s, t) && Plain(s)
    ensures t == s
  {
    PlainIsNormal(w, s);
    NormalIsReversible(v, t);
    assert '<' in Basedir.TOKEN by { assert Basedir.TOKEN[0] == '<'; }
    NothingToReplace(s, Basedir.TOKEN, v.basedir, '<');
  }

  /** Rewriting keeps the first character, but for a slash. */
  lemma FirstStays(w: World, s: string)
    requires w.basedir != "" && w.basedir[0] == '/'
    ensures s == "" <==> Normal(w, s) == ""
    ensures s != "" ==> Normal(w, s)[0] == s[0] || (s[0] == '/' && Normal(w, s)[0] == '<')
  {
    if s != "" && Basedir.Matched(s, Spelling(w)).Some? {
      var m := Basedir.Matched(s, Spelling(w)).value;
      assert s[..m] == w.basedir;
      assert s[0] == s[..m][0];
    }
  }

  /** Option words are plain. */
  lemma OptionsArePlain(s: string)
    requires !Plain(s)
    ensures Args.KindOf(s) == if s[0] == '-' then Args.OtherFlag else Args.Positional
  {
    ArgsTold.ValueOptionsAre(s);
    if s in ["-o", "-F", "-M", "-b", "-f", "-p", "-n", "-t", "-A"] {
      ShortOptionsArePlain(s);
    } else if Args.TakesValue(Args.KindOf(s)) || s == "--output-dep-file" || s == "--output-json" {
      LongOptionsArePlain(s);
    }
  }

  lemma LongOptionsArePlain(s: string)
    requires s in ["--output", "--dep-file-path", "--include", "--dep-file-rule-name", "--collect-json",
                   "--compiler-flavor", "--json-output", "--output-dep-file", "--output-json"]
    ensures Plain(s)
  {
  }

  lemma ShortOptionsArePlain(s: string)
    requires s in ["-o", "-F", "-M", "-b", "-f", "-p", "-n", "-t", "-A"]
    ensures Plain(s)
  {
  }

  lemma KindStays(w: World, v: World, s: string, t: string)
    requires Siblings(w, v) && Renamable(w, s) && Renamable(v, t) && Alike(w, v, s, t)
    ensures Args.KindOf(s) == Args.KindOf(t)
  {
    if Plain(s) {
      PlainStays(w, v, s, t);
    } else if Plain(t) {
      PlainStays(v, w, t, s);
    } else {
      OptionsArePlain(s);
      OptionsArePlain(t);
      FirstStays(w, s);
      FirstStays(v, t);
    }
  }

  ghost predicate AllAlike(w: World, v: World, a: seq<string>, b: seq<string>) {
    |a| == |b| && forall k :: 0 <= k < |a| ==> AlikeWord(w, v, a[k], b[k])
  }

  /** Alike, and neither holds the token. */
  ghost predicate AlikeWord(w: World, v: World, s: string, t: string) {
    Alike(w, v, s, t) && Renamable(w, s) && Renamable(v, t)
  }

  /** Command lines of such words split alike. */
  lemma {:induction false} ValuesAlike(w: World, v: World, a: seq<string>, b: seq<string>, kind: Args.Kind)
    requires Siblings(w, v) && AllAlike(w, v, a, b)
    ensures AllAlike(w, v, Args.Values(Args.Split(a), kind), Args.Values(Args.Split(b), kind))
    ensures Args.Has(Args.Split(a), kind) == Args.Has(Args.Split(b), kind)
    decreases |a|
  {
    if a != [] {
      assert AlikeWord(w, v, a[0], b[0]);
      KindStays(w, v, a[0], b[0]);
      var n := |Args.First(a).Words()|;
      assert n == |Args.First(b).Words()| <= |a|;
      forall k | 0 <= k < |a[n..]| ensures AlikeWord(w, v, a[n..][k], b[n..][k]) {
        assert AlikeWord(w, v, a[n + k], b[n + k]);
      }
      ValuesAlike(w, v, a[n..], b[n..], kind);
      assert n == 2 ==> AlikeWord(w, v, a[1], b[1]);
      FirstAlike(w, v, a, b, kind);
    }
  }

  lemma FirstAlike(w: World, v: World, a: seq<string>, b: seq<string>, kind: Args.Kind)
    requires a != [] && b != [] && |a| == |b| && Args.KindOf(a[0]) == Args.KindOf(b[0])
    requires |Args.First(a).Words()| == 2 ==> AlikeWord(w, v, a[1], b[1])
    requires var n := |Args.First(a).Words()|;
             && n == |Args.First(b).Words()|
             && AllAlike(w, v, Args.Values(Args.Split(a[n..]), kind), Args.Values(Args.Split(b[n..]), kind))
             && Args.Has(Args.Split(a[n..]), kind) == Args.Has(Args.Split(b[n..]), kind)
    ensures AllAlike(w, v, Args.Values(Args.Split(a), kind), Args.Values(Args.Split(b), kind))
    ensures Args.Has(Args.Split(a), kind) == Args.Has(Args.Split(b), kind)
  {
    var n := |Args.First(a).Words()|;
    FirstValue(a, n, kind);
    FirstValue(b, n, kind);
    AlikeSum(w, v, ValueOf(Args.First(a), kind), ValueOf(Args.First(b), kind),
             Args.Values(Args.Split(a[n..]), kind), Args.Values(Args.Split(b[n..]), kind));
  }

  function ValueOf(arg: Args.Arg, kind: Args.Kind): seq<string> {
    if arg.kind == kind && arg.value.Some? then [arg.value.value] else []
  }

  lemma FirstValue(argv: seq<string>, n: nat, kind: Args.Kind)
    requires argv != [] && n == |Args.First(argv).Words()| <= |argv|
    ensures Args.Values(Args.Split(argv), kind) == ValueOf(Args.First(argv), kind) + Args.Values(Args.Split(argv[n..]), kind)
    ensures Args.Has(Args.Split(argv), kind) <==> Args.First(argv).kind == kind || Args.Has(Args.Split(argv[n..]), kind)
  {
    assert Args.Split(argv)[1..] == Args.Split(argv[n..]);
  }

  lemma AlikeSum(w: World, v: World, a: seq<string>, b: seq<string>, c: seq<string>, d: seq<string>)
    requires AllAlike(w, v, a, b) && AllAlike(w, v, c, d)
    ensures AllAlike(w, v, a + c, b + d)
  {
    forall k | 0 <= k < |a + c| ensures AlikeWord(w, v, (a + c)[k], (b + d)[k]) {
      assert k >= |a| ==> AlikeWord(w, v, c[k - |a|], d[k - |a|]);
    }
  }

  // ---- one key in two trees ----

  ghost predicate ToldAlike(w: World, v: World, a: seq<seq<string>>, b: seq<seq<string>>) {
    |a| == |b| && forall k :: 0 <= k < |a| ==> AllAlike(w, v, a[k], b[k])
  }

  lemma ToldAlikeSum(w: World, v: World, a: seq<seq<string>>, b: seq<seq<string>>, c: seq<seq<string>>, d: seq<seq<string>>)
    requires ToldAlike(w, v, a, b) && ToldAlike(w, v, c, d)
    ensures ToldAlike(w, v, a + c, b + d)
  {
    forall k | 0 <= k < |a + c| ensures AllAlike(w, v, (a + c)[k], (b + d)[k]) {
      assert k >= |a| ==> AllAlike(w, v, c[k - |a|], d[k - |a|]);
    }
  }

  lemma NothingIsAlike(w: World, v: World)
    ensures AlikeWord(w, v, "", "")
  {
    assert forall i :: 0 <= i <= |""| ==> !(Basedir.TOKEN <= ""[i..]);
  }

  lemma IncludeWord(word: string)
    ensures Args.KindOf(word) == Args.IncludeOption <==> word == "--include"
  {
  }

  lemma BlankedOneAlike(w: World, v: World, a: Args.Arg, b: Args.Arg)
    requires AllAlike(w, v, a.Words(), b.Words()) && (a.word == "--include" <==> b.word == "--include")
    ensures ToldAlike(w, v, ArgsTold.BlankedOne(a), ArgsTold.BlankedOne(b))
  {
    assert |a.Words()| == |b.Words()|;
    if a.word == "--include" && a.value.Some? {
      NothingIsAlike(w, v);
      assert a.Words()[0] == a.word && b.Words()[0] == b.word;
      assert AlikeWord(w, v, a.word, b.word);
      PairAlike(w, v, a.word, b.word);
    } else {
      assert ArgsTold.BlankedOne(a) == [a.Words()] && ArgsTold.BlankedOne(b) == [b.Words()];
    }
  }

  lemma PairAlike(w: World, v: World, s: string, t: string)
    requires AlikeWord(w, v, s, t) && AlikeWord(w, v, "", "")
    ensures AllAlike(w, v, [s, ""], [t, ""])
  {
  }

  lemma {:induction false} BlankedAlike(w: World, v: World, a: seq<string>, b: seq<string>)
    requires Siblings(w, v) && AllAlike(w, v, a, b)
    ensures ToldAlike(w, v, ArgsTold.Blanked(Args.Split(a)), ArgsTold.Blanked(Args.Split(b)))
    decreases |a|
  {
    if a != [] {
      assert AlikeWord(w, v, a[0], b[0]);
      KindStays(w, v, a[0], b[0]);
      var n := |Args.First(a).Words()|;
      assert n == |Args.First(b).Words()| <= |a|;
      forall k | 0 <= k < |a[n..]| ensures AlikeWord(w, v, a[n..][k], b[n..][k]) {
        assert AlikeWord(w, v, a[n + k], b[n + k]);
      }
      BlankedAlike(w, v, a[n..], b[n..]);
      assert n == 2 ==> AlikeWord(w, v, a[1], b[1]);
      IncludeWord(a[0]);
      IncludeWord(b[0]);
      BlankedOneAlike(w, v, Args.First(a), Args.First(b));
      BlankedFirst(a, n);
      BlankedFirst(b, n);
      ToldAlikeSum(w, v, ArgsTold.BlankedOne(Args.First(a)), ArgsTold.BlankedOne(Args.First(b)),
                   ArgsTold.Blanked(Args.Split(a[n..])), ArgsTold.Blanked(Args.Split(b[n..])));
    }
  }

  lemma BlankedFirst(argv: seq<string>, n: nat)
    requires argv != [] && n == |Args.First(argv).Words()| <= |argv|
    ensures ArgsTold.Blanked(Args.Split(argv)) ==
            ArgsTold.BlankedOne(Args.First(argv)) + ArgsTold.Blanked(Args.Split(argv[n..]))
  {
    assert Args.Split(argv)[1..] == Args.Split(argv[n..]);
  }

  /** What a line without a loose end tells is what its key words do. */
  lemma ToldByKey(w: World, r: Run)
    requires ArgsTold.LooseEnd(r.argv).None?
    ensures ArgsTold.AllTold(Args.Split(r.argv)) == ArgsTold.Blanked(Args.Split(Asked(w, r).hashable))
  {
    Args.KeyReadsBack(r.argv, Ids(w, r.files));
    ArgsTold.ToldIsBlanked(r.argv, Ids(w, r.files));
    assert ArgsTold.Ending(None) == [];
  }

  /** What moc is given in the two trees is alike. */
  ghost predicate GivenAlike(w: World, v: World, g: Given, h: Given) {
    && g.tool == h.tool && g.input == h.input && g.relpath == h.relpath && ToldAlike(w, v, g.told, h.told)
    && |g.forced| == |h.forced|
    && forall k {:trigger g.forced[k]} :: 0 <= k < |g.forced| ==> TextAlike(w, v, g.forced[k], h.forced[k])
  }

  ghost predicate TextAlike(w: World, v: World, s: Option<string>, t: Option<string>) {
    s.Some? == t.Some? && (s.Some? ==> Alike(w, v, s.value, t.value))
  }

  lemma SameKeySamePartsThere(w: World, v: World, r: Run, u: Run)
    requires Siblings(w, v) && GoodHash(w) && GoodHash(v) && Keyable(w, r) && Keyable(v, u) && Key(w, r) == Key(v, u)
    ensures KeyParts(w, r) == KeyParts(v, u)
  {
    PartsAreNulFree(w, r);
    PartsAreNulFree(v, u);
    assert KeyText(w, r) == KeyText(v, u);
    CacheKey.TerminatedIsInjective(KeyParts(w, r), KeyParts(v, u));
  }

  lemma WordsAlike(w: World, v: World, r: Run, u: Run)
    requires Siblings(w, v) && GoodHash(w) && GoodHash(v) && Keyable(w, r) && Keyable(v, u) && KeyParts(w, r) == KeyParts(v, u)
    ensures AllAlike(w, v, Asked(w, r).hashable, Asked(v, u).hashable)
  {
    var a, b := Asked(w, r).hashable, Asked(v, u).hashable;
    var n := |KeyParts(w, r)| - 2;
    assert Normals(w, a) == KeyParts(w, r)[1..n] && Normals(v, b) == KeyParts(v, u)[1..n];
    WordsArePassable(w, r);
    WordsArePassable(v, u);
    forall k | 0 <= k < |a| ensures AlikeWord(w, v, a[k], b[k]) {
      assert Normals(w, a)[k] == Normals(v, b)[k];
      assert Passable(w, a[k]) && Passable(v, b[k]);
    }
  }

  lemma DigestIsPlain(d: string)
    requires Manifest.IsDigest(d)
    ensures Plain(d)
  {
  }

  /** Force-included files with alike identities have alike texts. */
  lemma IdentitiesAlike(w: World, v: World, a: Files, b: Files, p: string, q: string)
    requires Siblings(w, v) && GoodHash(w) && Identifiable(w, a, p) && Identifiable(v, b, q)
    requires AlikeWord(w, v, ContentId(w, a, p), ContentId(v, b, q))
    ensures TextAlike(w, v, Found(w, a, p), Found(v, b, q))
  {
    if IsFile(w, a, p) {
      DigestIsPlain(ContentId(w, a, p));
      PlainStays(w, v, ContentId(w, a, p), ContentId(v, b, q));
    } else if IsFile(v, b, q) {
      DigestIsPlain(ContentId(v, b, q));
      PlainStays(v, w, ContentId(v, b, q), ContentId(w, a, p));
    }
  }

  /** Equal keys mean that moc is given alike in both trees. */
  lemma SameKeyGivenAlike(w: World, v: World, r: Run, u: Run)
    requires Siblings(w, v) && GoodHash(w) && GoodHash(v) && Keyable(w, r) && Keyable(v, u) && Key(w, r) == Key(v, u)
    ensures GivenAlike(w, v, GivenTo(w, r), GivenTo(v, u)) && Asked(w, r).wantsJson == Asked(v, u).wantsJson
  {
    SameKeySamePartsThere(w, v, r, u);
    WordsAlike(w, v, r, u);
    BlankedAlike(w, v, Asked(w, r).hashable, Asked(v, u).hashable);
    ToldByKey(w, r);
    ToldByKey(v, u);
    LastParts(w, r);
    LastParts(v, u);
    var idW, idV := Ids(w, r.files), Ids(v, u.files);
    Args.KeyReadsBack(r.argv, idW);
    Args.KeyReadsBack(u.argv, idV);
    ValuesAlike(w, v, Asked(w, r).hashable, Asked(v, u).hashable, Args.IncludeOption);
    ValuesAlike(w, v, Asked(w, r).hashable, Asked(v, u).hashable, Args.JsonFlag);
    Args.KeyedIdentities(Args.Split(r.argv), idW);
    Args.KeyedIdentities(Args.Split(u.argv), idV);
    Args.KeyedKeeps(Args.Split(r.argv), idW);
    Args.KeyedKeeps(Args.Split(u.argv), idV);
    var a, b := Asked(w, r).includes, Asked(v, u).includes;
    forall k | 0 <= k < |a| ensures TextAlike(w, v, Forced(w, r)[k], Forced(v, u)[k]) {
      assert Args.Identities(a, idW)[k] == ContentId(w, r.files, a[k]);
      assert Args.Identities(b, idV)[k] == ContentId(v, u.files, b[k]);
      IdentitiesAlike(w, v, r.files, u.files, a[k], b[k]);
    }
  }

  // ---- a hit on what the other tree stored ----

  /** In the other tree each look finds, at its place there, what it found here. */
  ghost predicate AnsweredThere(w: World, v: World, looks: seq<string>, a: Files, b: Files) {
    forall k :: 0 <= k < |looks| ==> Found(v, b, There(w, v, looks[k])) == Found(w, a, looks[k])
  }

  /** moc does not know which tree it runs in: given alike and answered alike it ends the same. */
  ghost predicate Relocatable(w: World, v: World) {
    forall g: Given, h: Given, a: Files, b: Files {:trigger AnsweredThere(w, v, w.moc(g, a).looks, a, b), v.moc(h, b)} ::
      GivenAlike(w, v, g, h) && AnsweredThere(w, v, w.moc(g, a).looks, a, b) ==> v.moc(h, b).end == w.moc(g, a).end
  }

  ghost predicate AsThenThere(w: World, v: World, now: Files, unwatched: map<string, Option<string>>) {
    forall path :: path in unwatched ==> Found(v, now, There(w, v, path)) == unwatched[path]
  }

  /** What is checked in the other tree is the same file there, with the same text. */
  lemma FoundThere(w: World, v: World, parts: Parts, c: Call, files: Files, u: Run, k: nat)
    requires Siblings(w, v) && GoodHash(w) && Usable(v, u) && Recorded(w, Key(v, u), parts, c, files)
    requires AllHashed(v, u.files) && Lookup(v, u, parts).Some?
    requires k < |Reported(w, CapturedRun(w, c, files))|
    requires Tracked(w, CapturedRun(w, c, files), Reported(w, CapturedRun(w, c, files))[k])
    ensures var dep := Reported(w, CapturedRun(w, c, files))[k]; Found(v, u.files, There(w, v, dep)) == Found(w, files, dep)
  {
    var r := CapturedRun(w, c, files);
    var deps := Reported(w, r);
    var entries := Entries(w, r, deps);
    forall j | 0 <= j < |deps| ensures deps[j] != "" && DepFile.Plain(deps[j]) {
      ReportedAreClean(w, r, j);
    }
    EntriesAreRecordable(w, r, deps);
    Manifest.ReadsBackOrNothing(entries);
    CheckedIsParsed(v, u.files, Manifest.SplitLines(parts.manifest.value));
    assert AllHold(v, u.files, entries);
    EntryOf(w, r, deps, k);
    var i :| 0 <= i < |entries| && entries[i] == EntryFor(w, r, deps[k])[0];
    assert Holds(v, u.files, There(w, v, deps[k]), entries[i].hash);
    assert OrderlyDep(w, c, files, deps[k]);
    TrackedIsUntouched(w, c, files, deps[k]);
    assert v.hashed(Read(v, u.files, There(w, v, deps[k])));
  }

  lemma LooksAnsweredThere(w: World, v: World, parts: Parts, c: Call, files: Files, u: Run)
    requires Siblings(w, v) && GoodHash(w) && Usable(v, u) && Recorded(w, Key(v, u), parts, c, files)
    requires AllHashed(v, u.files) && Lookup(v, u, parts).Some? && AsThenThere(w, v, u.files, Unwatched(w, c, files))
    ensures AnsweredThere(w, v, Traced(w, CapturedRun(w, c, files)).looks, files, u.files)
  {
    var r := CapturedRun(w, c, files);
    var looks, deps := Traced(w, r).looks, Reported(w, r);
    forall i | 0 <= i < |looks| ensures Found(v, u.files, There(w, v, looks[i])) == Found(w, files, looks[i]) {
      if Watched(w, c, files, looks[i]) {
        var k :| 0 <= k < |deps| && deps[k] == looks[i];
        WatchedIsTracked(w, c, files, looks[i]);
        FoundThere(w, v, parts, c, files, u, k);
      } else {
        assert looks[i] in Unwatched(w, c, files);
      }
    }
  }

  /**
   Sharing between trees. An entry that one build tree stored and another, with the same key, finds usable
   holds what moc would produce in that other tree from its own files, if moc does not know which tree it
   runs in and the unwatched paths hold there what they held here.
   */
  lemma SharedHitIsReal(w: World, v: World, parts: Parts, c: Call, files: Files, u: Run)
    requires Siblings(w, v) && Relocatable(w, v) && GoodHash(w) && GoodHash(v) && Keyable(v, u)
    requires Recorded(w, Key(v, u), parts, c, files)
    requires AllHashed(v, u.files) && OutputsApart(v, Asked(v, u)) && Lookup(v, u, parts).Some?
    requires AsThenThere(w, v, u.files, Unwatched(w, c, files))
    ensures EntryHolds(v, u, parts)
  {
    var r := CapturedRun(w, c, files);
    SameKeyGivenAlike(w, v, UserRun(c, files), u);
    CaptureKeepsKey(w, c, files);
    LooksAnsweredThere(w, v, parts, c, files, u);
    assert Traced(v, u).end == Traced(w, r).end;
    FinishLeaves(w, r);
    EndsAs(v, u, parts, Traced(w, r).end);
  }

  // ---- and they do share ----

  ghost predicate SameNormals(w: World, v: World, a: seq<string>, b: seq<string>) {
    |a| == |b| && forall k :: 0 <= k < |a| ==> Alike(w, v, a[k], b[k])
  }

  lemma SameNormalsSum(w: World, v: World, a: seq<string>, b: seq<string>, c: seq<string>, d: seq<string>)
    requires SameNormals(w, v, a, b) && SameNormals(w, v, c, d)
    ensures SameNormals(w, v, a + c, b + d)
  {
    forall k | 0 <= k < |a + c| ensures Alike(w, v, (a + c)[k], (b + d)[k]) {
      assert k >= |a| ==> Alike(w, v, c[k - |a|], d[k - |a|]);
    }
  }

  /** The force-included files of the two lines, one by one, are files with alike texts or no files at all. */
  ghost predicate IncludesAlike(w: World, v: World, a: Files, b: Files, p: seq<string>, q: seq<string>) {
    |p| == |q| && forall k :: 0 <= k < |p| ==> TextAlike(w, v, Found(w, a, p[k]), Found(v, b, q[k]))
  }

  lemma IdentityIsAlike(w: World, v: World, a: Files, b: Files, p: string, q: string)
    requires Siblings(w, v) && GoodHash(w) && Alike(w, v, p, q) && TextAlike(w, v, Found(w, a, p), Found(v, b, q))
    ensures Alike(w, v, ContentId(w, a, p), ContentId(v, b, q))
  {
    if IsFile(w, a, p) {
      assert w.sha(Normal(w, Read(w, a, p))) == v.sha(Normal(v, Read(v, b, q)));
      DigestIsPlain(ContentId(w, a, p));
      PlainIsNormal(w, ContentId(w, a, p));
      PlainIsNormal(v, ContentId(v, b, q));
    }
  }

  lemma HashedAlike(w: World, v: World, a: Files, b: Files, s: Args.Arg, t: Args.Arg)
    requires Siblings(w, v) && GoodHash(w) && s.kind == t.kind && s.value.Some? == t.value.Some?
    requires Alike(w, v, s.word, t.word) && (s.value.Some? ==> Alike(w, v, s.value.value, t.value.value))
    requires s.kind == Args.IncludeOption && s.value.Some? ==>
               TextAlike(w, v, Found(w, a, s.value.value), Found(v, b, t.value.value))
    ensures SameNormals(w, v, Args.Hashed(s, Ids(w, a)), Args.Hashed(t, Ids(v, b)))
  {
    if s.kind == Args.IncludeOption && s.value.Some? {
      IdentityIsAlike(w, v, a, b, s.value.value, t.value.value);
    }
  }

  lemma {:induction false} KeyWordsAlike(w: World, v: World, a: Files, b: Files, s: seq<string>, t: seq<string>)
    requires Siblings(w, v) && GoodHash(w) && AllAlike(w, v, s, t)
    requires IncludesAlike(w, v, a, b, Args.Values(Args.Split(s), Args.IncludeOption),
                           Args.Values(Args.Split(t), Args.IncludeOption))
    ensures SameNormals(w, v, Args.Flatten(Args.AllKeyed(Args.Split(s), Ids(w, a))),
                        Args.Flatten(Args.AllKeyed(Args.Split(t), Ids(v, b))))
    decreases |s|
  {
    if s != [] {
      assert AlikeWord(w, v, s[0], t[0]);
      KindStays(w, v, s[0], t[0]);
      var n := |Args.First(s).Words()|;
      assert n == |Args.First(t).Words()| <= |s|;
      forall k | 0 <= k < |s[n..]| ensures AlikeWord(w, v, s[n..][k], t[n..][k]) {
        assert AlikeWord(w, v, s[n + k], t[n + k]);
      }
      assert n == 2 ==> AlikeWord(w, v, s[1], t[1]);
      FirstIncludes(w, v, a, b, s, t, n);
      KeyWordsAlike(w, v, a, b, s[n..], t[n..]);
      HashedAlike(w, v, a, b, Args.First(s), Args.First(t));
      KeyedFirst(s, n, Ids(w, a));
      KeyedFirst(t, n, Ids(v, b));
      SameNormalsSum(w, v, Args.Hashed(Args.First(s), Ids(w, a)), Args.Hashed(Args.First(t), Ids(v, b)),
                     Args.Flatten(Args.AllKeyed(Args.Split(s[n..]), Ids(w, a))),
                     Args.Flatten(Args.AllKeyed(Args.Split(t[n..]), Ids(v, b))));
    }
  }

  lemma KeyedFirst(argv: seq<string>, n: nat, ids: string -> string)
    requires argv != [] && n == |Args.First(argv).Words()| <= |argv|
    ensures Args.Flatten(Args.AllKeyed(Args.Split(argv), ids)) ==
            Args.Hashed(Args.First(argv), ids) + Args.Flatten(Args.AllKeyed(Args.Split(argv[n..]), ids))
  {
    assert Args.Split(argv)[1..] == Args.Split(argv[n..]);
    Args.FlattenSum(Args.Keyed(Args.First(argv), ids), Args.AllKeyed(Args.Split(argv[n..]), ids));
    Args.HashedWords(Args.First(argv), ids);
  }

  lemma FirstIncludes(w: World, v: World, a: Files, b: Files, s: seq<string>, t: seq<string>, n: nat)
    requires s != [] && t != [] && n == |Args.First(s).Words()| == |Args.First(t).Words()| && n <= |s| && n <= |t|
    requires Args.KindOf(s[0]) == Args.KindOf(t[0])
    requires IncludesAlike(w, v, a, b, Args.Values(Args.Split(s), Args.IncludeOption),
                           Args.Values(Args.Split(t), Args.IncludeOption))
    ensures IncludesAlike(w, v, a, b, Args.Values(Args.Split(s[n..]), Args.IncludeOption),
                          Args.Values(Args.Split(t[n..]), Args.IncludeOption))
    ensures var x, y := Args.First(s), Args.First(t);
            x.kind == Args.IncludeOption && x.value.Some? && y.value.Some? ==>
              TextAlike(w, v, Found(w, a, x.value.value), Found(v, b, y.value.value))
  {
    FirstValue(s, n, Args.IncludeOption);
    FirstValue(t, n, Args.IncludeOption);
    var p, q := Args.Values(Args.Split(s), Args.IncludeOption), Args.Values(Args.Split(t), Args.IncludeOption);
    var m := |ValueOf(Args.First(s), Args.IncludeOption)|;
    var more, rest := Args.Values(Args.Split(s[n..]), Args.IncludeOption), Args.Values(Args.Split(t[n..]), Args.IncludeOption);
    assert p[m..] == more && q[m..] == rest;
    forall k | 0 <= k < |more| ensures TextAlike(w, v, Found(w, a, more[k]), Found(v, b, rest[k])) {
      assert TextAlike(w, v, Found(w, a, p[m + k]), Found(v, b, q[m + k]));
    }
    if m == 1 {
      assert TextAlike(w, v, Found(w, a, p[0]), Found(v, b, q[0]));
    }
  }

  /** The same call in the other tree, word by word but for the base directory, with the same input and alike
      force-included files, has the same key: so it finds what the first tree stored. */
  lemma SiblingsShareKey(w: World, v: World, r: Run, u: Run)
    requires Siblings(w, v) && GoodHash(w) && Usable(w, r) && Usable(v, u)
    requires r.tool == u.tool && AllAlike(w, v, r.argv, u.argv)
    requires Read(w, r.files, InPath(Asked(w, r))) == Read(v, u.files, InPath(Asked(v, u)))
    requires w.relpath(InPath(Asked(w, r)), OutPath(Asked(w, r))) == v.relpath(InPath(Asked(v, u)), OutPath(Asked(v, u)))
    requires IncludesAlike(w, v, r.files, u.files, Asked(w, r).includes, Asked(v, u).includes)
    ensures Key(w, r) == Key(v, u)
  {
    KeyWordsAlike(w, v, r.files, u.files, r.argv, u.argv);
    assert Normals(w, Asked(w, r).hashable) == Normals(v, Asked(v, u).hashable) by {
      var a, b := Asked(w, r).hashable, Asked(v, u).hashable;
      assert forall k :: 0 <= k < |a| ==> Alike(w, v, a[k], b[k]);
    }
    assert KeyParts(w, r) == KeyParts(v, u);
  }
}
