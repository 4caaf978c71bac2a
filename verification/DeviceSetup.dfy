/**
 Setting the ground station up from a device: two requests go out at once, one of them leads to a
 third, and a newer setup may start at any time. A generation counter decides whose replies count.
 */
module DeviceSetup {
  import opened Common

  datatype CameraPath = CameraPath(name: string, source: string)

  /** A reply body: a device's stream configuration, the routes of its cameras, and whatever else it says. */
  datatype Document = Document(paths: seq<CameraPath>, via: map<string, string>, telemetry: string)

  const EMPTY := Document([], map[], "")

  datatype Transport = WebRtc | Rtsp

  datatype Camera = Camera(name: string, transport: Transport, url: string)

  /** What a request is for; the watch request carries the stream configuration it completes. */
  datatype Purpose = Stream | Telemetry | WatchVia(config: Document)

  datatype Request = Request(purpose: Purpose, askedHost: string, bareHost: string, generation: nat)

  datatype Outcome = Failed | Answered(body: Document)

  datatype Kind = Cameras | TelemetryLink

  /** How a setup's camera or telemetry half ended, and which host was current when it did. */
  datatype Fate =
    | AppliedCameras(host: string, cameras: seq<Camera>)
    | AppliedTelemetry(host: string, config: Document)
    | Superseded
    | Unavailable

  datatype Settled = Settled(kind: Kind, generation: nat, current: nat, setupHost: string, fate: Fate)

  function KindOf(p: Purpose): Kind {
    if p.Telemetry? then TelemetryLink else Cameras
  }

  /** The part of a host before its first colon. */
  function BareHost(host: string): (bare: string)
    ensures ':' !in bare && bare <= host
    ensures bare == host || host[|bare|] == ':'
  {
    if host == [] || host[0] == ':' then [] else [host[0]] + BareHost(host[1..])
  }

  /** Only paths with a source are cameras; one routed through the cloud is fetched from the device's
      own address, any other from its bare host. */
  function DeviceCameras(paths: seq<CameraPath>, via: map<string, string>, host: string, setupHost: string): seq<Camera> {
    if paths == [] then []
    else
      (if paths[0].source == "" then [] else [OneCamera(paths[0].name, via, host, setupHost)]) +
      DeviceCameras(paths[1..], via, host, setupHost)
  }

  function OneCamera(cam: string, via: map<string, string>, host: string, setupHost: string): Camera {
    var name := cam + " (" + host + ")";
    if cam in via && via[cam] == "cloudflare" then Camera(name, WebRtc, "http://" + setupHost + "/whep/cloudflare/" + cam)
    else Camera(name, Rtsp, "rtsp://" + host + ":8554/" + cam)
  }

  datatype State = State(generation: nat, host: string, pending: seq<Request>, settled: seq<Settled>)

  const START := State(0, "", [], [])

  function Started(s: State, host: string): State {
    var g, bare := s.generation + 1, BareHost(host);
    State(g, host, s.pending + [Request(Stream, host, bare, g), Request(Telemetry, host, bare, g)], s.settled)
  }

  /** The reply to one request: exactly one thing follows from it. */
  function Replied(s: State, i: nat, outcome: Outcome): State
    requires i < |s.pending|
  {
    var r := s.pending[i];
    var rest := s.pending[..i] + s.pending[i + 1..];
    var end := (fate: Fate) => s.settled + [Settled(KindOf(r.purpose), r.generation, s.generation, s.host, fate)];
    if r.generation != s.generation then s.(pending := rest, settled := end(Superseded))
    else match r.purpose
      case Stream =>
        if outcome.Failed? then s.(pending := rest, settled := end(Unavailable))
        else s.(pending := rest + [Request(WatchVia(outcome.body), s.host, r.bareHost, s.generation)])
      case Telemetry =>
        s.(pending := rest, settled := end(if outcome.Failed? then Unavailable else AppliedTelemetry(r.bareHost, outcome.body)))
      case WatchVia(config) =>
        var via := if outcome.Failed? then map[] else outcome.body.via;
        var cameras := DeviceCameras(config.paths, via, r.bareHost, s.host);
        s.(pending := rest, settled := end(if cameras == [] then Unavailable else AppliedCameras(r.bareHost, cameras)))
  }

  lemma NextCamera(paths: seq<CameraPath>, k: nat, via: map<string, string>, bareHost: string, host: string)
    requires k < |paths|
    ensures DeviceCameras(paths[k..], via, bareHost, host) ==
            (if paths[k].source != "" then [OneCamera(paths[k].name, via, bareHost, host)] else [])
            + DeviceCameras(paths[k + 1..], via, bareHost, host)
  {
    assert paths[k..][1..] == paths[k + 1..];
  }

  class Application {
    var generation: nat
    var host: string
    var pending: seq<Request>
    var settled: seq<Settled>

    function Snapshot(): State
      reads this
    {
      State(generation, host, pending, settled)
    }

    constructor ()
      ensures Snapshot() == START
    {
      generation, host, pending, settled := 0, "", [], [];
    }

    method Fetch(purpose: Purpose, address: string, bareHost: string)
      modifies this`pending
      ensures pending == old(pending) + [Request(purpose, address, bareHost, generation)]
    {
      pending := pending + [Request(purpose, address, bareHost, generation)];
    }

    method SetupFromDevice(address: string)
      modifies this
      ensures Snapshot() == Started(old(Snapshot()), address)
    {
      var bareHost := BareHost(address);
      generation := generation + 1;
      host := address;
      Fetch(Stream, address, bareHost);
      Fetch(Telemetry, address, bareHost);
    }

    method Settle(r: Request, fate: Fate)
      modifies this`settled
      ensures settled == old(settled) + [Settled(KindOf(r.purpose), r.generation, generation, host, fate)]
    {
      settled := settled + [Settled(KindOf(r.purpose), r.generation, generation, host, fate)];
    }

    /** A request finished, in whatever order the network chose. */
    method Finished(i: nat, outcome: Outcome)
      requires i < |pending|
      modifies this
      ensures Snapshot() == Replied(old(Snapshot()), i, outcome)
    {
      var r := pending[i];
      pending := pending[..i] + pending[i + 1..];
      if r.generation != generation {
        Settle(r, Superseded);
        return;
      }
      match r.purpose
      case Stream =>
        if outcome.Failed? {
          Settle(r, Unavailable);
        } else {
          Fetch(WatchVia(outcome.body), host, r.bareHost);
        }
      case Telemetry =>
        if outcome.Failed? {
          Settle(r, Unavailable);
        } else {
          Settle(r, AppliedTelemetry(r.bareHost, outcome.body));
        }
      case WatchVia(config) =>
        var via: map<string, string> := map[];
        if outcome.Answered? {
          via := outcome.body.via;
        }
        ApplyCameras(r, config, via);
    }

    method ApplyCameras(r: Request, config: Document, via: map<string, string>)
      modifies this`settled
      ensures var cameras := DeviceCameras(config.paths, via, r.bareHost, host);
              settled == old(settled) + [Settled(KindOf(r.purpose), r.generation, generation, host,
                                                 if cameras == [] then Unavailable else AppliedCameras(r.bareHost, cameras))]
    {
      var device := CollectCameras(config.paths, via, r.bareHost);
      if device == [] {
        Settle(r, Unavailable);
      } else {
        Settle(r, AppliedCameras(r.bareHost, device));
      }
    }

    method CollectCameras(paths: seq<CameraPath>, via: map<string, string>, bareHost: string) returns (device: seq<Camera>)
      ensures device == DeviceCameras(paths, via, bareHost, host)
    {
      device := [];
      for k := 0 to |paths|
        invariant device + DeviceCameras(paths[k..], via, bareHost, host) == DeviceCameras(paths, via, bareHost, host)
      {
        var cam := OneCamera(paths[k].name, via, bareHost, host);
        NextCamera(paths, k, via, bareHost, host);
        if paths[k].source != "" {
          device := device + [cam];
        }
      }
      assert paths[|paths|..] == [];
    }
  }

  // ---- runs ----

  datatype Op = Setup(host: string) | Reply(i: nat, outcome: Outcome)

  function Step(s: State, op: Op): State {
    match op
    case Setup(host) => Started(s, host)
    case Reply(i, outcome) => if i < |s.pending| then Replied(s, i, outcome) else s
  }

  function Run(ops: seq<Op>): State {
    if ops == [] then START else Step(Run(ops[..|ops| - 1]), ops[|ops| - 1])
  }

  /** The host each setup was started for, in order. */
  function Hosts(ops: seq<Op>): seq<string> {
    if ops == [] then []
    else Hosts(ops[..|ops| - 1]) + match ops[|ops| - 1] case Setup(host) => [host] case Reply(_, _) => []
  }

  predicate RequestOk(r: Request, hosts: seq<string>) {
    1 <= r.generation <= |hosts| && r.bareHost == BareHost(hosts[r.generation - 1]) && r.askedHost == hosts[r.generation - 1]
  }

  /** Applied only while its setup is the latest, to the host that setup was for. */
  predicate AppliedOk(t: Settled, hosts: seq<string>) {
    && 1 <= t.generation <= t.current <= |hosts|
    && t.setupHost == hosts[t.current - 1]
    && (!t.fate.Superseded? ==> t.generation == t.current)
    && (t.fate.AppliedCameras? ==> t.kind == Cameras && t.fate.host == BareHost(t.setupHost))
    && (t.fate.AppliedTelemetry? ==> t.kind == TelemetryLink && t.fate.host == BareHost(t.setupHost))
  }

  ghost predicate Tracks(s: State, hosts: seq<string>) {
    && s.generation == |hosts| && (hosts != [] ==> s.host == hosts[|hosts| - 1])
    && (forall i :: 0 <= i < |s.pending| ==> RequestOk(s.pending[i], hosts))
    && (forall i :: 0 <= i < |s.settled| ==> AppliedOk(s.settled[i], hosts))
  }

  lemma {:induction false} RunTracks(ops: seq<Op>)
    ensures Tracks(Run(ops), Hosts(ops))
  {
    if ops != [] {
      var n := |ops| - 1;
      RunTracks(ops[..n]);
      StepTracks(Run(ops[..n]), Hosts(ops[..n]), ops[n]);
    }
  }

  lemma StepTracks(s: State, hosts: seq<string>, op: Op)
    requires Tracks(s, hosts)
    ensures Tracks(Step(s, op), hosts + match op case Setup(host) => [host] case Reply(_, _) => [])
  {
    if op.Reply? {
      assert hosts + [] == hosts;
      if op.i < |s.pending| {
        assert RequestOk(s.pending[op.i], hosts);
      }
    }
  }

  /** Superseded setups never apply: whatever is applied belongs to the setup that is latest at that
      moment, and the captured host is the current one's. */
  lemma OnlyLatestIsApplied(ops: seq<Op>, k: nat)
    requires k < |Run(ops).settled|
    requires Run(ops).settled[k].fate.AppliedCameras? || Run(ops).settled[k].fate.AppliedTelemetry?
    ensures var t := Run(ops).settled[k];
            && t.generation == t.current && 1 <= t.current <= |Hosts(ops)|
            && t.setupHost == Hosts(ops)[t.current - 1]
            && t.fate.host == BareHost(t.setupHost)
  {
    RunTracks(ops);
    assert AppliedOk(Run(ops).settled[k], Hosts(ops));
  }

  // ---- every setup ends each half exactly once ----

  function Outstanding(pending: seq<Request>, kind: Kind, g: nat): nat {
    if pending == [] then 0
    else Outstanding(pending[..|pending| - 1], kind, g) +
         if KindOf(pending[|pending| - 1].purpose) == kind && pending[|pending| - 1].generation == g then 1 else 0
  }

  function Ended(settled: seq<Settled>, kind: Kind, g: nat): nat {
    if settled == [] then 0
    else Ended(settled[..|settled| - 1], kind, g) +
         if settled[|settled| - 1].kind == kind && settled[|settled| - 1].generation == g then 1 else 0
  }

  lemma OneMoreOutstanding(pending: seq<Request>, r: Request, kind: Kind, g: nat)
    ensures Outstanding(pending + [r], kind, g) ==
            Outstanding(pending, kind, g) + if KindOf(r.purpose) == kind && r.generation == g then 1 else 0
  {
    assert (pending + [r])[..|pending|] == pending;
  }

  lemma TwoMoreOutstanding(pending: seq<Request>, a: Request, b: Request, kind: Kind, g: nat)
    ensures Outstanding(pending + [a, b], kind, g) ==
            Outstanding(pending, kind, g) + (if KindOf(a.purpose) == kind && a.generation == g then 1 else 0)
            + if KindOf(b.purpose) == kind && b.generation == g then 1 else 0
  {
    OneMoreOutstanding(pending, a, kind, g);
    OneMoreOutstanding(pending + [a], b, kind, g);
    assert pending + [a, b] == pending + [a] + [b];
  }

  lemma OneMoreEnded(settled: seq<Settled>, t: Settled, kind: Kind, g: nat)
    ensures Ended(settled + [t], kind, g) ==
            Ended(settled, kind, g) + if t.kind == kind && t.generation == g then 1 else 0
  {
    assert (settled + [t])[..|settled|] == settled;
  }

  lemma {:induction false} OneLessOutstanding(pending: seq<Request>, i: nat, kind: Kind, g: nat)
    requires i < |pending|
    ensures Outstanding(pending, kind, g) ==
            Outstanding(pending[..i] + pending[i + 1..], kind, g) +
            if KindOf(pending[i].purpose) == kind && pending[i].generation == g then 1 else 0
  {
    var n := |pending| - 1;
    if i == n {
      assert pending[..i] + pending[i + 1..] == pending[..n];
    } else {
      OneLessOutstanding(pending[..n], i, kind, g);
      assert pending[..n][..i] == pending[..i];
      assert pending[..i] + pending[i + 1..] == (pending[..n][..i] + pending[..n][i + 1..]) + [pending[n]];
      OneMoreOutstanding(pending[..n][..i] + pending[..n][i + 1..], pending[n], kind, g);
    }
  }

  /** Conservation: each half of each setup is either still being asked for or has ended, once. */
  lemma {:induction false} EachHalfEndsOnce(ops: seq<Op>, kind: Kind, g: nat)
    ensures var s := Run(ops);
            Outstanding(s.pending, kind, g) + Ended(s.settled, kind, g) == if 1 <= g <= s.generation then 1 else 0
  {
    if ops != [] {
      var n := |ops| - 1;
      EachHalfEndsOnce(ops[..n], kind, g);
      RunTracks(ops[..n]);
      StepConserves(Run(ops[..n]), ops[n], kind, g);
    }
  }

  lemma StepConserves(s: State, op: Op, kind: Kind, g: nat)
    requires Outstanding(s.pending, kind, g) + Ended(s.settled, kind, g) == if 1 <= g <= s.generation then 1 else 0
    ensures var t := Step(s, op);
            Outstanding(t.pending, kind, g) + Ended(t.settled, kind, g) == if 1 <= g <= t.generation then 1 else 0
  {
    match op
    case Setup(host) =>
      var g', bare := s.generation + 1, BareHost(host);
      TwoMoreOutstanding(s.pending, Request(Stream, host, bare, g'), Request(Telemetry, host, bare, g'), kind, g);
    case Reply(i, outcome) =>
      if i < |s.pending| {
        ReplyConserves(s, i, outcome, kind, g);
      }
  }

  /** A reply turns one outstanding request into one ending or one follow-up of the same half. */
  lemma ReplyShape(s: State, i: nat, outcome: Outcome)
    requires i < |s.pending|
    ensures var t, r, rest := Replied(s, i, outcome), s.pending[i], s.pending[..i] + s.pending[i + 1..];
            || (t.pending == rest && exists e: Settled ::
                  t.settled == s.settled + [e] && e.kind == KindOf(r.purpose) && e.generation == r.generation)
            || (t.settled == s.settled && exists f: Request ::
                  t.pending == rest + [f] && KindOf(f.purpose) == KindOf(r.purpose) && f.generation == r.generation)
  {
    var t, rest := Replied(s, i, outcome), s.pending[..i] + s.pending[i + 1..];
    if t.pending == rest {
      assert t.settled == s.settled + [t.settled[|s.settled|]];
    } else {
      assert t.pending == rest + [t.pending[|rest|]];
    }
  }

  lemma ReplyConserves(s: State, i: nat, outcome: Outcome, kind: Kind, g: nat)
    requires i < |s.pending|
    ensures var t := Replied(s, i, outcome);
            Outstanding(t.pending, kind, g) + Ended(t.settled, kind, g) ==
            Outstanding(s.pending, kind, g) + Ended(s.settled, kind, g)
  {
    ReplyShape(s, i, outcome);
    OneLessOutstanding(s.pending, i, kind, g);
    var t, r, rest := Replied(s, i, outcome), s.pending[i], s.pending[..i] + s.pending[i + 1..];
    if e: Settled :| t.settled == s.settled + [e] && e.kind == KindOf(r.purpose) && e.generation == r.generation {
      OneMoreEnded(s.settled, e, kind, g);
    } else {
      var f: Request :| t.pending == rest + [f] && KindOf(f.purpose) == KindOf(r.purpose) && f.generation == r.generation;
      OneMoreOutstanding(rest, f, kind, g);
    }
  }

  /** Each setup applies its cameras and its telemetry at most once. */
  lemma AppliedAtMostOnce(ops: seq<Op>, i: nat, j: nat)
    requires i < |Run(ops).settled| && j < |Run(ops).settled|
    requires Run(ops).settled[i].kind == Run(ops).settled[j].kind
    requires Run(ops).settled[i].generation == Run(ops).settled[j].generation
    ensures i == j
  {
    var t := Run(ops).settled[i];
    EachHalfEndsOnce(ops, t.kind, t.generation);
    if i < j {
      EndedTwice(Run(ops).settled, i, j);
    } else if j < i {
      EndedTwice(Run(ops).settled, j, i);
    }
  }

  lemma {:induction false} EndedTwice(settled: seq<Settled>, i: nat, j: nat)
    requires i < j < |settled|
    requires settled[i].kind == settled[j].kind && settled[i].generation == settled[j].generation
    ensures Ended(settled, settled[i].kind, settled[i].generation) >= 2
  {
    var n := |settled| - 1;
    if j < n {
      EndedTwice(settled[..n], i, j);
    } else {
      EndedOnce(settled[..n], i);
    }
  }

  lemma {:induction false} EndedOnce(settled: seq<Settled>, i: nat)
    requires i < |settled|
    ensures Ended(settled, settled[i].kind, settled[i].generation) >= 1
  {
    var n := |settled| - 1;
    if i < n {
      EndedOnce(settled[..n], i);
    }
  }
}
