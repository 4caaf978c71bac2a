/** A poll throttle shared by any number of threads: a relaxed load, then one compare-exchange. */
module PollThrottle {
  import opened Common

  const HEADLESS_POLL_MS: nat := 250

  type Thread = nat

  /** Where a thread is inside `poll_due`. `from` is the store its relaxed load happened to read. */
  datatype Progress = Idle | Clocked(now: nat) | Loaded(now: nat, last: nat, from: nat)

  /** `stored` is the modification order of the shared word, its current value last. */
  datatype State = State(stored: seq<nat>, threads: map<Thread, Progress>, stale: bool)

  const START := State([0], map[], false)

  function At(s: State, t: Thread): Progress {
    if t in s.threads then s.threads[t] else Idle
  }

  function Since(now: nat, last: nat): nat {
    if now < last then 0 else now - last
  }

  /** Does the compare-exchange of a thread that has loaded succeed? */
  predicate Due(s: State, t: Thread)
    requires s.stored != []
  {
    At(s, t).Loaded? && Since(At(s, t).now, At(s, t).last) >= HEADLESS_POLL_MS && s.stored[|s.stored| - 1] == At(s, t).last
  }

  datatype Move =
    | ReadClock(t: Thread, now: nat)
    | Load(t: Thread, from: nat)      // a relaxed load may return any value the word has held
    | CompareExchange(t: Thread)

  /** `stale` records a compare-exchange that succeeded although another had come after its load. */
  function Step(s: State, m: Move): State
    requires s.stored != []
  {
    match m
    case ReadClock(t, now) => if At(s, t).Idle? then s.(threads := s.threads[t := Clocked(now)]) else s
    case Load(t, from) =>
      if At(s, t).Clocked? && from < |s.stored| then
        s.(threads := s.threads[t := Loaded(At(s, t).now, s.stored[from], from)])
      else s
    case CompareExchange(t) =>
      if !At(s, t).Loaded? then s
      else if Due(s, t) then
        State(s.stored + [At(s, t).now], s.threads[t := Idle], s.stale || At(s, t).from != |s.stored| - 1)
      else s.(threads := s.threads[t := Idle])
  }

  class Throttle {
    var stored: seq<nat>
    var threads: map<Thread, Progress>
    var stale: bool

    function Snapshot(): State
      reads this
    {
      State(stored, threads, stale)
    }

    constructor ()
      ensures Snapshot() == START
    {
      stored, threads, stale := [0], map[], false;
    }

    /** `let now = now_ms()` */
    method ReadClock(t: Thread, now: nat)
      requires stored != [] && At(Snapshot(), t).Idle?
      modifies this
      ensures Snapshot() == Step(old(Snapshot()), Move.ReadClock(t, now))
    {
      threads := threads[t := Clocked(now)];
    }

    /** `let last = LAST_POLL_MS.load(Relaxed)` */
    method LoadLast(t: Thread, from: nat)
      requires stored != [] && from < |stored| && At(Snapshot(), t).Clocked?
      modifies this
      ensures Snapshot() == Step(old(Snapshot()), Load(t, from))
    {
      threads := threads[t := Loaded(threads[t].now, stored[from], from)];
    }

    /** The interval test and the compare-exchange; the answer is `poll_due`'s. */
    method CompareExchange(t: Thread) returns (due: bool)
      requires stored != [] && At(Snapshot(), t).Loaded?
      modifies this
      ensures due <==> Due(old(Snapshot()), t)
      ensures Snapshot() == Step(old(Snapshot()), Move.CompareExchange(t))
      ensures stored == if due then old(stored) + [old(threads)[t].now] else old(stored)
    {
      var (now, last, from) := (threads[t].now, threads[t].last, threads[t].from);
      threads := threads[t := Idle];
      var elapsed := if now < last then 0 else now - last;
      due := false;
      if elapsed >= HEADLESS_POLL_MS {
        if stored[|stored| - 1] == last {
          due := true;
          stale := stale || from != |stored| - 1;
          stored := stored + [now];
        }
      }
    }
  }

  // ---- runs of any interleaving ----

  /** Every stored timestamp is at least one period past every earlier one. */
  ghost predicate Spaced(stored: seq<nat>) {
    forall i, j :: 0 <= i < j < |stored| ==> stored[j] >= stored[i] + HEADLESS_POLL_MS
  }

  ghost predicate Inv(s: State) {
    && s.stored != [] && Spaced(s.stored) && !s.stale
    && forall t :: t in s.threads && s.threads[t].Loaded? ==>
         s.threads[t].from < |s.stored| && s.threads[t].last == s.stored[s.threads[t].from]
  }

  lemma LastIsLargest(stored: seq<nat>)
    requires Spaced(stored)
    ensures forall i :: 0 <= i < |stored| - 1 ==> stored[i] < stored[|stored| - 1]
  {
  }

  lemma StepKeepsInv(s: State, m: Move)
    requires Inv(s)
    ensures Inv(Step(s, m))
  {
    if m.CompareExchange? && Due(s, m.t) {
      var p, n := At(s, m.t), |s.stored|;
      LastIsLargest(s.stored);
      var stored := s.stored + [p.now];
      forall i, j | 0 <= i < j < |stored| ensures stored[j] >= stored[i] + HEADLESS_POLL_MS {
        assert i < n - 1 ==> s.stored[i] < s.stored[n - 1];
      }
    }
  }

  ghost function Run(moves: seq<Move>): (s: State)
    ensures s.stored != []
  {
    if moves == [] then START else Step(Run(moves[..|moves| - 1]), moves[|moves| - 1])
  }

  lemma {:induction false} RunKeepsInv(moves: seq<Move>)
    ensures Inv(Run(moves))
  {
    if moves != [] {
      RunKeepsInv(moves[..|moves| - 1]);
      StepKeepsInv(Run(moves[..|moves| - 1]), moves[|moves| - 1]);
    }
  }

  /** However the threads interleave, the timestamps of successful polls, in the order they were
      committed, are at least 250 ms apart, so no value is ever stored twice. */
  lemma SuccessesAreSpaced(moves: seq<Move>, i: nat, j: nat)
    requires i < j < |Run(moves).stored|
    ensures Run(moves).stored[j] >= Run(moves).stored[i] + 250
    ensures Run(moves).stored[j] != Run(moves).stored[i]
  {
    RunKeepsInv(moves);
  }

  /** A compare-exchange succeeds only if nothing was stored since its own load. */
  lemma NoStaleSuccess(moves: seq<Move>, t: Thread)
    requires Due(Run(moves), t)
    ensures At(Run(moves), t).from == |Run(moves).stored| - 1
    ensures !Run(moves + [CompareExchange(t)]).stale
  {
    RunKeepsInv(moves);
    LastIsLargest(Run(moves).stored);
    assert (moves + [CompareExchange(t)])[..|moves|] == moves;
  }

  /** However the threads interleave, a compare-exchange succeeds if and only if nothing was stored since its
      own load and a period has passed since the value it loaded; then its own clock reading is stored. */
  lemma DueExactly(moves: seq<Move>, t: Thread)
    requires At(Run(moves), t).Loaded?
    ensures var s, u := Run(moves), Run(moves + [CompareExchange(t)]);
            var due := At(s, t).from == |s.stored| - 1 && At(s, t).now >= s.stored[|s.stored| - 1] + 250;
            && (Due(s, t) <==> due) && u.stored == (if due then s.stored + [At(s, t).now] else s.stored)
            && At(u, t).Idle?
  {
    RunKeepsInv(moves);
    LastIsLargest(Run(moves).stored);
    assert (moves + [CompareExchange(t)])[..|moves|] == moves;
  }

  /** Over any run, the number of successful polls is bounded by the latest timestamp. */
  lemma {:induction false} SuccessesAreFew(stored: seq<nat>)
    requires stored != [] && Spaced(stored)
    ensures (|stored| - 1) * HEADLESS_POLL_MS <= stored[|stored| - 1] - stored[0]
  {
    if |stored| > 1 {
      var n := |stored| - 1;
      SuccessesAreFew(stored[..n]);
      assert stored[n] >= stored[n - 1] + HEADLESS_POLL_MS;
    }
  }

  lemma SuccessRate(moves: seq<Move>)
    ensures var s := Run(moves).stored; (|s| - 1) * 250 <= s[|s| - 1]
  {
    var s := Run(moves).stored;
    RunKeepsInv(moves);
    SuccessesAreFew(s);
  }

  /** A thread left alone is answered exactly by the clock: due if and only if a period has passed
      since the current value. */
  lemma AloneIsDueOnTime(s: State, t: Thread, now: nat)
    requires Inv(s) && At(s, t).Idle?
    ensures var loaded := Step(Step(s, ReadClock(t, now)), Load(t, |s.stored| - 1));
            Due(loaded, t) <==> now >= s.stored[|s.stored| - 1] + 250
  {
  }
}
