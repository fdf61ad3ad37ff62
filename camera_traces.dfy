/**
 * Runs of the camera module: the locked sections of app/camera.py
 * interleaved in any order, as the request threads, stream generators and
 * timer threads of the server may run them. Each operation is atomic, as
 * `camera_lock` makes it.
 */
module CameraTraces {
  import opened CameraSpec

  /** One atomic step of some thread. */
  datatype Op =
    | Ensure(now: real, openOk: bool)                 // _ensure_camera()
    | Capture(now: real, openOk: bool, between: Between, readOk: bool)  // capture_image()
    | Reopen                                          // reopen_camera()
    | Shutdown                                        // shutdown_camera()
    | Reset(now: real, openOk: bool)                  // _force_camera_reset()
    | Enter(session: nat)                             // entry of generate_frames()
    | ReadFrame(now: real, readOk: bool)              // the locked read of the stream loop
    | Exit(session: nat)                              // the finally block of generate_frames()
    | TimerFires                                      // a deferred-shutdown timer runs out
    | Unplug                                          // the hardware goes away

  datatype Reply = Done | Answer(b: bool) | Outcome(o: ReadOutcome) | Captured(c: CaptureReply)

  /** One atomic step. Only stream entry and exit move `active_streams`, and
      only `reopen_camera` and stream entry can clear `shutdown_flag`. */
  function Apply(g: Globals, op: Op): (r: Step<Reply>)
    ensures r.next.activeStreams == g.activeStreams + (if op.Enter? then 1 else if op.Exit? then -1 else 0)
    ensures g.shutdownFlag && !op.Reopen? && !op.Enter? ==> r.next.shutdownFlag
  {
    match op
    case Ensure(now, openOk) =>
      var r := EnsureCamera(g, now, openOk); Step(r.next, Answer(r.out))
    case Capture(now, openOk, between, readOk) =>
      var r := CaptureImage(g, now, openOk, between, readOk); Step(r.next, Captured(r.out))
    case Reopen => Step(ReopenCamera(g), Done)
    case Shutdown =>
      var r := ShutdownCamera(g); Step(r.next, Answer(r.out))
    case Reset(now, openOk) => Step(ForceCameraReset(g, now, openOk), Done)
    case Enter(_) => Step(BeginStream(g), Done)
    case ReadFrame(now, readOk) =>
      var r := StreamRead(g, now, readOk); Step(r.next, Outcome(r.out))
    case Exit(_) => Step(EndStream(g), Done)
    // with no timer started there is nothing to fire
    case TimerFires => Step(if g.pendingTimers > 0 then DeferredShutdown(g) else g, Done)
    case Unplug => Step(DeviceLost(g), Done)
  }

  /** The globals after running `ops` in order, and each operation's reply. */
  function Run(g: Globals, ops: seq<Op>): (r: Step<seq<Reply>>)
    ensures |r.out| == |ops|
    decreases |ops|
  {
    if ops == [] then Step(g, [])
    else
      var a := Apply(g, ops[0]);
      var rest := Run(a.next, ops[1..]);
      Step(rest.next, [a.out] + rest.out)
  }

  lemma RunCons(g: Globals, op: Op, ops: seq<Op>)
    ensures Run(g, [op] + ops) ==
      var a := Apply(g, op); var rest := Run(a.next, ops); Step(rest.next, [a.out] + rest.out)
  {
    assert ([op] + ops)[1..] == ops;
  }

  // ---------------------------------------------------------------------
  // The device invariant holds in every reachable state
  // ---------------------------------------------------------------------

  lemma ApplyKeepsInv(g: Globals, op: Op)
    requires Inv(g)
    ensures Inv(Apply(g, op).next)
  {
    match op
    case Ensure(now, openOk) => EnsureCameraKeepsInv(g, now, openOk);
    case Capture(now, openOk, between, readOk) =>
      CaptureImageKeepsInv(g, now, openOk, between, readOk);
    case Reopen =>
    case Shutdown => ShutdownCameraKeepsInv(g);
    case Reset(now, openOk) => ForceCameraResetKeepsInv(g, now, openOk);
    case Enter(_) =>
    case ReadFrame(now, readOk) => StreamReadKeepsInv(g, now, readOk);
    case Exit(_) =>
    case TimerFires =>
      if g.pendingTimers > 0 {
        SafeCameraShutdownKeepsInv(g.(pendingTimers := g.pendingTimers - 1));
      }
    case Unplug => DeviceLostKeepsInv(g);
  }

  /** From the import-time globals, whatever the threads do, at most one
      opened capture object is held and it is `camera`; none is held while
      shutdown is requested. */
  lemma {:induction false} RunKeepsInv(g: Globals, ops: seq<Op>)
    requires Inv(g)
    ensures Inv(Run(g, ops).next)
    ensures |Outstanding(Run(g, ops).next.events)| <= 1
    decreases |ops|
  {
    if ops != [] {
      ApplyKeepsInv(g, ops[0]);
      RunKeepsInv(Apply(g, ops[0]).next, ops[1..]);
    } else {
      AtMostOneHandleHeld(g);
    }
  }

  // ---------------------------------------------------------------------
  // Shutdown is sticky
  // ---------------------------------------------------------------------

  predicate Clears(op: Op)
  {
    op.Reopen? || op.Enter?
  }

  /** Events that do not use the device: nothing opened, nothing read. */
  predicate Idle(es: seq<DeviceEvent>)
  {
    forall i :: 0 <= i < |es| ==> es[i].Release? || es[i].Lost?
  }

  /** Every `_ensure_camera` and `capture_image` answers false and every
      stream read stops. */
  predicate Refused(ops: seq<Op>, replies: seq<Reply>)
    requires |replies| == |ops|
  {
    forall i :: 0 <= i < |ops| ==>
      && (ops[i].Ensure? ==> replies[i] == Answer(false))
      && (ops[i].Capture? ==> replies[i] == Captured(Returned(false)))
      && (ops[i].ReadFrame? ==> replies[i] == Outcome(Stopped))
  }

  lemma ApplyUnderShutdown(g: Globals, op: Op)
    requires g.shutdownFlag && !Clears(op)
    ensures var a := Apply(g, op);
      && a.next.shutdownFlag
      && Refused([op], [a.out])
      && |g.events| <= |a.next.events| && a.next.events[..|g.events|] == g.events
      && Idle(a.next.events[|g.events|..])
  {
    var a := Apply(g, op);
    if op.Reset? && g.camera.Some? {
      assert a.next.events[|g.events|..] == [Release(g.camera.value.id)];
    }
  }

  /** After `shutdown_camera`, until `reopen_camera` or a new stream clears the
      flag: the flag stays set, every ensure and capture answers false, every
      stream read stops, and the device is never opened or read. */
  lemma {:induction false} ShutdownIsSticky(g: Globals, ops: seq<Op>)
    requires g.shutdownFlag
    requires forall op :: op in ops ==> !Clears(op)
    ensures var r := Run(g, ops);
      && r.next.shutdownFlag
      && Refused(ops, r.out)
      && |g.events| <= |r.next.events| && r.next.events[..|g.events|] == g.events
      && Idle(r.next.events[|g.events|..])
    decreases |ops|
  {
    if ops != [] {
      var a := Apply(g, ops[0]);
      ApplyUnderShutdown(g, ops[0]);
      assert forall op :: op in ops[1..] ==> op in ops;
      ShutdownIsSticky(a.next, ops[1..]);
      var r := Run(g, ops);
      var rest := Run(a.next, ops[1..]);
      assert r.out == [a.out] + rest.out;
      forall i | 0 <= i < |ops|
        ensures ops[i].Ensure? ==> r.out[i] == Answer(false)
        ensures ops[i].Capture? ==> r.out[i] == Captured(Returned(false))
        ensures ops[i].ReadFrame? ==> r.out[i] == Outcome(Stopped)
      {
        if i > 0 {
          assert ops[i] == ops[1..][i - 1] && r.out[i] == rest.out[i - 1];
        }
      }
      var n, m := |g.events|, |a.next.events|;
      assert r.next.events[..n] == g.events by {
        assert r.next.events[..m][..n] == r.next.events[..n];
      }
      forall i | 0 <= i < |r.next.events| - n
        ensures r.next.events[n..][i].Release? || r.next.events[n..][i].Lost?
      {
        if n + i < m {
          assert r.next.events[n + i] == a.next.events[n + i] == a.next.events[n..][i];
        } else {
          assert r.next.events[n + i] == r.next.events[m..][n + i - m];
        }
      }
    }
  }

  /** `shutdown_camera` then `_ensure_camera`: the ensure answers false and
      opens nothing. */
  lemma ShutdownThenEnsure(g: Globals, now: real, openOk: bool)
    ensures var r := Run(g, [Shutdown, Ensure(now, openOk)]);
      r.out == [Answer(true), Answer(false)] && r.next == ShutdownCamera(g).next
  {
    RunCons(ShutdownCamera(g).next, Ensure(now, openOk), []);
    RunCons(g, Shutdown, [Ensure(now, openOk)]);
  }

  /** `reopen_camera` changes only the flag, and re-enables ensure. */
  lemma ReopenReenables(g: Globals, now: real)
    requires g.shutdownFlag && !IsOpened(g.camera)
    ensures var r := Run(g, [Reopen, Ensure(now, true)]);
      r.out == [Done, Answer(true)] && IsOpened(r.next.camera) && !r.next.shutdownFlag
  {
    RunCons(ReopenCamera(g), Ensure(now, true), []);
    RunCons(g, Reopen, [Ensure(now, true)]);
  }

  /** A stream entering after `shutdown_camera` clears the flag, and its
      `_ensure_camera` opens the device again. */
  lemma StreamReenables(g: Globals, now: real)
    ensures var r := Run(g, [Shutdown, Enter(0), Ensure(now, true)]);
      && r.out == [Answer(true), Done, Answer(true)]
      && IsOpened(r.next.camera) && !r.next.shutdownFlag
  {
    var s1 := ShutdownCamera(g).next;
    RunCons(BeginStream(s1), Ensure(now, true), []);
    RunCons(s1, Enter(0), [Ensure(now, true)]);
    RunCons(g, Shutdown, [Enter(0), Ensure(now, true)]);
  }

  /** A stream's read can raise: its `_ensure_camera` succeeds, then the
      hardware goes away and another request's `_ensure_camera` fails to
      reopen, so the stream's locked read finds no `camera`. */
  lemma ReadFaultReachable(g: Globals)
    requires !g.shutdownFlag
    ensures var a0 := Apply(g, Ensure(0.0, true));
      var a1 := Apply(a0.next, Unplug);
      var a2 := Apply(a1.next, Ensure(1.0, false));
      var a3 := Apply(a2.next, ReadFrame(1.0, true));
      && a0.out == Answer(true) && a2.out == Answer(false) && a3.out == Outcome(Faulted)
      && a3.next.camera.None?
  {
    var s1 := EnsureCamera(g, 0.0, true).next;
    assert IsOpened(s1.camera) && !s1.shutdownFlag;
    var s3 := EnsureCamera(DeviceLost(s1), 1.0, false).next;
    assert s3.camera.None? && !s3.shutdownFlag;
  }

  // ---------------------------------------------------------------------
  // The stream counter
  // ---------------------------------------------------------------------

  function Entries(ops: seq<Op>): nat
  {
    if ops == [] then 0 else (if ops[0].Enter? then 1 else 0) + Entries(ops[1..])
  }

  function Exits(ops: seq<Op>): nat
  {
    if ops == [] then 0 else (if ops[0].Exit? then 1 else 0) + Exits(ops[1..])
  }

  /** `active_streams` moves only on stream entry and exit, by one each. */
  lemma {:induction false} RunTracksStreams(g: Globals, ops: seq<Op>)
    ensures Run(g, ops).next.activeStreams == g.activeStreams + Entries(ops) - Exits(ops)
    decreases |ops|
  {
    if ops != [] {
      RunTracksStreams(Apply(g, ops[0]).next, ops[1..]);
    }
  }

  /** The streams of a run are sessions: each entry starts a session that is
      not running, and each exit ends one that is, as the `try`/`finally` of
      `generate_frames()` pairs them. `open` are the sessions running at the
      start. */
  predicate Sessions(open: set<nat>, ops: seq<Op>)
    decreases |ops|
  {
    if ops == [] then true
    else match ops[0]
      case Enter(sid) => sid !in open && Sessions(open + {sid}, ops[1..])
      case Exit(sid) => sid in open && Sessions(open - {sid}, ops[1..])
      case _ => Sessions(open, ops[1..])
  }

  /** The sessions still running after `ops`. */
  function OpenAfter(open: set<nat>, ops: seq<Op>): set<nat>
    decreases |ops|
  {
    if ops == [] then open
    else match ops[0]
      case Enter(sid) => OpenAfter(open + {sid}, ops[1..])
      case Exit(sid) => OpenAfter(open - {sid}, ops[1..])
      case _ => OpenAfter(open, ops[1..])
  }

  lemma {:induction false} SessionsPrefix(open: set<nat>, ops: seq<Op>, k: nat)
    requires Sessions(open, ops) && k <= |ops|
    ensures Sessions(open, ops[..k])
    decreases |ops|
  {
    if k > 0 {
      assert ops[..k][0] == ops[0] && ops[..k][1..] == ops[1..][..k - 1];
      match ops[0]
      case Enter(sid) => SessionsPrefix(open + {sid}, ops[1..], k - 1);
      case Exit(sid) => SessionsPrefix(open - {sid}, ops[1..], k - 1);
      case _ => SessionsPrefix(open, ops[1..], k - 1);
    }
  }

  /** When the counter starts at the number of running sessions, it is the
      number of running sessions after any run of sessions. */
  lemma {:induction false} CounterIsOpenSessions(g: Globals, open: set<nat>, ops: seq<Op>)
    requires g.activeStreams == |open| && Sessions(open, ops)
    ensures Run(g, ops).next.activeStreams == |OpenAfter(open, ops)|
    decreases |ops|
  {
    if ops != [] {
      var next := Apply(g, ops[0]).next;
      match ops[0]
      case Enter(sid) => CounterIsOpenSessions(next, open + {sid}, ops[1..]);
      case Exit(sid) => CounterIsOpenSessions(next, open - {sid}, ops[1..]);
      case _ => CounterIsOpenSessions(next, open, ops[1..]);
    }
  }

  /** Over any run in which streams enter and exit as sessions, the counter is
      never negative. */
  lemma StreamsNeverNegative(g: Globals, open: set<nat>, ops: seq<Op>)
    requires g.activeStreams == |open| && Sessions(open, ops)
    ensures forall k :: 0 <= k <= |ops| ==> Run(g, ops[..k]).next.activeStreams >= 0
  {
    forall k | 0 <= k <= |ops|
      ensures Run(g, ops[..k]).next.activeStreams >= 0
    {
      SessionsPrefix(open, ops, k);
      CounterIsOpenSessions(g, open, ops[..k]);
    }
  }

  /** Three streams enter and two leave: one is still active and no timer has
      started. The third leaves: the counter is zero, one timer starts, and when
      it fires the camera is released. */
  lemma ThreeStreamsScenario(g: Globals)
    requires g.activeStreams == 0 && IsOpened(g.camera)
    ensures var two := EndStream(EndStream(BeginStream(BeginStream(BeginStream(g)))));
      && two.activeStreams == 1 && two.pendingTimers == g.pendingTimers
      && var three := EndStream(two);
      && three.activeStreams == 0 && three.pendingTimers == g.pendingTimers + 1 && IsOpened(three.camera)
      && var fired := DeferredShutdown(three);
      && fired.camera.None?
      && fired.events == g.events + [Release(g.camera.value.id)]
      && fired.pendingTimers == g.pendingTimers
  {
    var h := g.(shutdownFlag := false);
    var two := EndStream(EndStream(BeginStream(BeginStream(BeginStream(g)))));
    assert two == h.(activeStreams := 1);
    assert EndStream(two) == h.(pendingTimers := g.pendingTimers + 1);
  }

  /** A timer that fires after a new stream entered changes nothing but the
      timer count, and firing twice closes no more than firing once. */
  lemma DeferredShutdownHarmless(g: Globals)
    requires g.pendingTimers >= 2
    ensures g.activeStreams != 0 ==> DeferredShutdown(g) == g.(pendingTimers := g.pendingTimers - 1)
    ensures var once := DeferredShutdown(g);
      DeferredShutdown(once) == once.(pendingTimers := once.pendingTimers - 1)
  {
  }

  // ---------------------------------------------------------------------
  // The idle timeout
  // ---------------------------------------------------------------------

  predicate EnsuresWithin(g: Globals, ops: seq<Op>)
  {
    forall op :: op in ops ==>
      op.Ensure? && op.now - g.lastCameraUse <= CameraIdleTimeout
  }

  /** Repeated `_ensure_camera` calls within the idle window of an opened
      camera change nothing and all answer true: no redundant reopen. */
  lemma {:induction false} NoReopenWithinWindow(g: Globals, ops: seq<Op>)
    requires !g.shutdownFlag && IsOpened(g.camera)
    requires EnsuresWithin(g, ops)
    ensures Run(g, ops).next == g
    ensures forall i :: 0 <= i < |ops| ==> Run(g, ops).out[i] == Answer(true)
    decreases |ops|
  {
    if ops != [] {
      assert forall op :: op in ops[1..] ==> op in ops;
      NoReopenWithinWindow(g, ops[1..]);
    }
  }

  /** Opened at 0, a stream reads at 30: at 90 (exactly 60 idle) nothing is
      recycled, at 95 (65 idle) the camera is released and opened again. */
  lemma IdleTimeoutScenario(g: Globals)
    requires !g.shutdownFlag && g.camera.None?
    ensures var n := g.nextId;
      var first := EnsureCamera(g, 0.0, true);
      var read := StreamRead(first.next, 30.0, true);
      var at90 := EnsureCamera(read.next, 90.0, true);
      var at95 := EnsureCamera(read.next, 95.0, true);
      && first.out && read.out == Yielded
      && at90 == Step(read.next, true)
      && at95.out
      && at95.next.events == g.events + [Open(n, true), Read(n, true), Release(n), Open(n + 1, true)]
      && at95.next.camera == Some(Handle(n + 1, true))
      && at95.next.lastCameraUse == 95.0
  {
    var n := g.nextId;
    var s1 := EnsureCamera(g, 0.0, true).next;
    assert s1 == g.(camera := Some(Handle(n, true)), lastCameraUse := 0.0, nextId := n + 1,
                    events := g.events + [Open(n, true)]);
    var s2 := StreamRead(s1, 30.0, true).next;
    assert s2 == s1.(lastCameraUse := 30.0, events := s1.events + [Read(n, true)]);
  }

  /** A capture does not refresh the idle clock: opened at 0 and captured at
      50, the camera is still recycled at 100. */
  lemma CaptureIdleScenario(g: Globals)
    requires !g.shutdownFlag && g.camera.None? && g.activeStreams == 1
    ensures var n := g.nextId;
      var first := EnsureCamera(g, 0.0, true);
      var captured := CaptureImage(first.next, 50.0, true, Undisturbed, true);
      var at100 := EnsureCamera(captured.next, 100.0, true);
      && first.out && captured.out == Returned(true) && at100.out
      && at100.next.events == g.events + [Open(n, true), Read(n, true), Release(n), Open(n + 1, true)]
  {
    var n := g.nextId;
    var s1 := EnsureCamera(g, 0.0, true).next;
    assert s1 == g.(camera := Some(Handle(n, true)), lastCameraUse := 0.0, nextId := n + 1,
                    events := g.events + [Open(n, true)]);
    var c := CaptureImage(s1, 50.0, true, Undisturbed, true);
    assert c == Step(s1.(events := s1.events + [Read(n, true)]), Returned(true));
  }
}
