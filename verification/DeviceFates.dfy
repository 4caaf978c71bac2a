/** What comes of a setup's requests, reply by reply, and of its two halves. */
module DeviceFates {
  import opened Common
  import opened DeviceSetup

  /** The paths that are cameras, in order. */
  function WithSource(paths: seq<CameraPath>): seq<CameraPath> {
    if paths == [] then []
    else WithSource(paths[..|paths| - 1]) + if paths[|paths| - 1].source != "" then [paths[|paths| - 1]] else []
  }

  /** The camera of a path as the device at `host` serves it. */
  ghost predicate Serves(c: Camera, path: CameraPath, via: map<string, string>, host: string) {
    var bare := BareHost(host);
    && c.name == path.name + " (" + bare + ")"
    && if path.name in via && via[path.name] == "cloudflare"
       then c.transport == WebRtc && c.url == "http://" + host + "/whep/cloudflare/" + path.name
       else c.transport == Rtsp && c.url == "rtsp://" + bare + ":8554/" + path.name
  }

  ghost predicate AllServe(cameras: seq<Camera>, sources: seq<CameraPath>, via: map<string, string>, host: string) {
    |cameras| == |sources| && forall k :: 0 <= k < |sources| ==> Serves(cameras[k], sources[k], via, host)
  }

  lemma {:induction false} CamerasServe(paths: seq<CameraPath>, via: map<string, string>, host: string)
    ensures AllServe(DeviceCameras(paths, via, BareHost(host), host), WithSource(paths), via, host)
  {
    if paths != [] {
      var n := |paths| - 1;
      CamerasServe(paths[..n], via, host);
      CamerasOfMore(paths[..n], paths[n], via, host);
      assert paths[..n] + [paths[n]] == paths;
    }
  }

  lemma {:induction false} CamerasOfMore(paths: seq<CameraPath>, last: CameraPath, via: map<string, string>, host: string)
    ensures DeviceCameras(paths + [last], via, BareHost(host), host) ==
            DeviceCameras(paths, via, BareHost(host), host)
            + if last.source == "" then [] else [OneCamera(last.name, via, BareHost(host), host)]
  {
    var all := paths + [last];
    if paths == [] {
      assert all[1..] == [];
    } else {
      CamerasOfMore(paths[1..], last, via, host);
      assert all[1..] == paths[1..] + [last];
    }
  }

  // ---- reply by reply ----

  /** What is left to be answered, and what has ended, after a reply. */
  ghost predicate Leads(s: State, t: State, i: nat, asks: seq<Request>, ends: seq<Settled>)
    requires i < |s.pending|
  {
    t.pending == s.pending[..i] + s.pending[i + 1..] + asks && t.settled == s.settled + ends
  }

  lemma RunOne(ops: seq<Op>, op: Op)
    ensures Run(ops + [op]) == Step(Run(ops), op)
  {
    assert (ops + [op])[..|ops|] == ops;
  }

  /** A reply to a request of a setup that others have followed is dropped. */
  lemma LateReplyIsDropped(ops: seq<Op>, i: nat, outcome: Outcome)
    requires i < |Run(ops).pending| && Run(ops).pending[i].generation != |Hosts(ops)|
    ensures exists e: Settled :: e.fate == Superseded && Leads(Run(ops), Run(ops + [Reply(i, outcome)]), i, [], [e])
  {
    var s, r := Run(ops), Run(ops).pending[i];
    RunTracks(ops);
    RunOne(ops, Reply(i, outcome));
    var e := Settled(KindOf(r.purpose), r.generation, s.generation, s.host, Superseded);
    assert Leads(s, Run(ops + [Reply(i, outcome)]), i, [], [e]);
  }

  /** What a reply in time leads to: a failed stream configuration ends the camera half, one that arrives has the
      routes asked for at the device; a telemetry configuration that arrives is applied; and with the routes, or
      without them, the cameras of the configuration are applied, if it has any. */
  ghost predicate Counts(purpose: Purpose, outcome: Outcome, g: nat, host: string, asks: seq<Request>, ends: seq<Settled>) {
    match purpose
    case Stream =>
      if outcome.Answered? then ends == [] && asks == [Request(WatchVia(outcome.body), host, BareHost(host), g)]
      else asks == [] && ends == [Settled(Cameras, g, g, host, Unavailable)]
    case Telemetry =>
      && asks == []
      && ends == [Settled(TelemetryLink, g, g, host,
                          if outcome.Answered? then AppliedTelemetry(BareHost(host), outcome.body) else Unavailable)]
    case WatchVia(config) =>
      && asks == [] && |ends| == 1 && ends[0].kind == Cameras && ends[0].generation == g
      && var sources, via := WithSource(config.paths), if outcome.Answered? then outcome.body.via else map[];
      && (sources == [] ==> ends[0].fate == Unavailable)
      && (sources != [] ==>
            && ends[0].fate.AppliedCameras? && ends[0].fate.host == BareHost(host)
            && AllServe(ends[0].fate.cameras, sources, via, host))
  }

  lemma ReplyCounts(s: State, i: nat, outcome: Outcome) returns (asks: seq<Request>, ends: seq<Settled>)
    requires i < |s.pending| && s.pending[i].generation == s.generation && s.pending[i].bareHost == BareHost(s.host)
    ensures Leads(s, Replied(s, i, outcome), i, asks, ends)
    ensures Counts(s.pending[i].purpose, outcome, s.generation, s.host, asks, ends)
  {
    var r := s.pending[i];
    asks, ends := [], [];
    match r.purpose
    case Stream =>
      if outcome.Answered? {
        asks := [Request(WatchVia(outcome.body), s.host, r.bareHost, s.generation)];
      } else {
        ends := [Settled(Cameras, s.generation, s.generation, s.host, Unavailable)];
      }
    case Telemetry =>
      var fate := if outcome.Failed? then Unavailable else AppliedTelemetry(r.bareHost, outcome.body);
      ends := [Settled(TelemetryLink, s.generation, s.generation, s.host, fate)];
    case WatchVia(config) =>
      var via := if outcome.Failed? then map[] else outcome.body.via;
      var cameras := DeviceCameras(config.paths, via, r.bareHost, s.host);
      CamerasServe(config.paths, via, s.host);
      ends := [Settled(Cameras, s.generation, s.generation, s.host,
                       if cameras == [] then Unavailable else AppliedCameras(r.bareHost, cameras))];
  }

  lemma LatestIs(ops: seq<Op>, i: nat)
    requires i < |Run(ops).pending| && Run(ops).pending[i].generation == |Hosts(ops)|
    ensures var s := Run(ops);
            && s.generation == |Hosts(ops)| > 0 && s.host == Hosts(ops)[|Hosts(ops)| - 1]
            && s.pending[i].bareHost == BareHost(s.host)
  {
    RunTracks(ops);
    assert RequestOk(Run(ops).pending[i], Hosts(ops));
  }

  /** Every reply to the latest setup counts, at that setup's host. */
  lemma LatestReplyCounts(ops: seq<Op>, i: nat, outcome: Outcome) returns (asks: seq<Request>, ends: seq<Settled>)
    requires i < |Run(ops).pending| && Run(ops).pending[i].generation == |Hosts(ops)|
    ensures Hosts(ops) != [] && Leads(Run(ops), Run(ops + [Reply(i, outcome)]), i, asks, ends)
    ensures Counts(Run(ops).pending[i].purpose, outcome, |Hosts(ops)|, Hosts(ops)[|Hosts(ops)| - 1], asks, ends)
  {
    LatestIs(ops, i);
    RunOne(ops, Reply(i, outcome));
    asks, ends := ReplyCounts(Run(ops), i, outcome);
  }

  /** A setup begins with exactly two requests, at its own host. */
  lemma SetupAsksTwice(ops: seq<Op>, host: string)
    ensures var s, t, g := Run(ops), Run(ops + [Setup(host)]), |Hosts(ops)| + 1;
            && Hosts(ops + [Setup(host)]) == Hosts(ops) + [host] && t.settled == s.settled
            && t.pending == s.pending + [Request(Stream, host, BareHost(host), g), Request(Telemetry, host, BareHost(host), g)]
  {
    RunTracks(ops);
    RunOne(ops, Setup(host));
    assert (ops + [Setup(host)])[..|ops|] == ops;
  }

  // ---- halves ----

  ghost predicate DroppedLate(t: Settled) {
    t.fate.Superseded? ==> t.generation < t.current
  }

  ghost predicate AllDroppedLate(settled: seq<Settled>) {
    forall k :: 0 <= k < |settled| ==> DroppedLate(settled[k])
  }

  lemma StepDropsLate(ops: seq<Op>, op: Op)
    requires AllDroppedLate(Run(ops).settled)
    ensures AllDroppedLate(Step(Run(ops), op).settled)
  {
    var s := Run(ops);
    if op.Reply? && op.i < |s.pending| {
      RunTracks(ops);
      assert RequestOk(s.pending[op.i], Hosts(ops));
    }
  }

  lemma {:induction false} RunDropsLate(ops: seq<Op>)
    ensures AllDroppedLate(Run(ops).settled)
  {
    if ops != [] {
      RunDropsLate(ops[..|ops| - 1]);
      StepDropsLate(ops[..|ops| - 1], ops[|ops| - 1]);
    }
  }

  /** A half is dropped as superseded if and only if a newer setup had begun when its reply came. */
  lemma SupersededExactly(ops: seq<Op>, k: nat)
    requires k < |Run(ops).settled|
    ensures Run(ops).settled[k].fate.Superseded? <==> Run(ops).settled[k].generation < Run(ops).settled[k].current
  {
    RunTracks(ops);
    assert AppliedOk(Run(ops).settled[k], Hosts(ops));
    RunDropsLate(ops);
    assert DroppedLate(Run(ops).settled[k]);
  }
}
