/**
 * app/camera.py as an object: the module globals are fields, and each
 * function that takes `camera_lock` is a method that runs atomically. Each
 * method is proved to leave the state, and return the result, that its
 * CameraSpec function gives; all but `InitCamera`, which runs inside a locked
 * section that then assigns `camera`, keep the device invariant.
 */
module Camera {
  import opened CameraSpec

  class CameraModule {
    var camera: Option<Handle>
    var shutdownFlag: bool
    var lastCameraUse: real
    var activeStreams: int
    var pendingTimers: nat
    var nextId: nat
    var events: seq<DeviceEvent>

    function State(): Globals
      reads this
    {
      Globals(camera, shutdownFlag, lastCameraUse, activeStreams, pendingTimers, nextId, events)
    }

    ghost predicate Valid()
      reads this
    {
      Inv(State()) && activeStreams >= 0
    }

    /** The globals at import time. */
    constructor ()
      ensures Valid() && State() == Initial()
    {
      camera, shutdownFlag, lastCameraUse := None, false, 0.0;
      activeStreams, pendingTimers, nextId, events := 0, 0, 0, [];
    }

    /** `init_camera()`; it leaves `camera` to its caller. */
    method InitCamera(now: real, openOk: bool) returns (cap: Option<Handle>)
      modifies this
      ensures State() == CameraSpec.InitCamera(old(State()), now, openOk).next
      ensures cap == CameraSpec.InitCamera(old(State()), now, openOk).out
    {
      if shutdownFlag {
        return None;
      }
      var id := nextId;
      nextId := nextId + 1;
      events := events + [Open(id, openOk)];
      if openOk {
        lastCameraUse := now;
        cap := Some(Handle(id, true));
      } else {
        events := events + [Release(id)];
        cap := None;
      }
    }

    /** `_ensure_camera()` */
    method EnsureCamera(now: real, openOk: bool) returns (ok: bool)
      requires Valid()
      modifies this
      ensures Valid()
      ensures State() == CameraSpec.EnsureCamera(old(State()), now, openOk).next
      ensures ok == CameraSpec.EnsureCamera(old(State()), now, openOk).out
    {
      EnsureCameraKeepsInv(State(), now, openOk);
      if shutdownFlag {
        return false;
      }
      if camera.None? || !camera.value.isOpen {
        camera := InitCamera(now, openOk);
      } else if now - lastCameraUse > CameraIdleTimeout {
        events := events + [Release(camera.value.id)];
        camera := InitCamera(now, openOk);
      }
      ok := camera.Some?;
    }

    /** `reopen_camera()` */
    method ReopenCamera()
      requires Valid()
      modifies this
      ensures Valid()
      ensures State() == CameraSpec.ReopenCamera(old(State()))
    {
      shutdownFlag := false;
    }

    /** `shutdown_camera()` */
    method ShutdownCamera() returns (ok: bool)
      requires Valid()
      modifies this
      ensures Valid()
      ensures State() == CameraSpec.ShutdownCamera(old(State())).next
      ensures ok
    {
      ShutdownCameraKeepsInv(State());
      shutdownFlag := true;
      if camera.Some? && camera.value.isOpen {
        events := events + [Release(camera.value.id)];
        camera := None;
      }
      ok := true;
    }

    /** `_schedule_camera_shutdown()`: one more timer thread started. */
    method ScheduleCameraShutdown()
      requires Valid()
      modifies this
      ensures Valid()
      ensures State() == CameraSpec.ScheduleShutdown(old(State()))
    {
      pendingTimers := pendingTimers + 1;
    }

    /** `_safe_camera_shutdown()` */
    method SafeCameraShutdown()
      requires Valid()
      modifies this
      ensures Valid()
      ensures State() == CameraSpec.SafeCameraShutdown(old(State()))
    {
      SafeCameraShutdownKeepsInv(State());
      if activeStreams == 0 && camera.Some? && camera.value.isOpen {
        events := events + [Release(camera.value.id)];
        camera := None;
      }
    }

    /** A started timer thread wakes after its delay and runs
        `_safe_camera_shutdown()`. */
    method DeferredShutdown()
      requires Valid() && pendingTimers > 0
      modifies this
      ensures Valid()
      ensures State() == CameraSpec.DeferredShutdown(old(State()))
    {
      pendingTimers := pendingTimers - 1;
      SafeCameraShutdown();
    }

    /** `_force_camera_reset()` */
    method ForceCameraReset(now: real, openOk: bool)
      requires Valid()
      modifies this
      ensures Valid()
      ensures State() == CameraSpec.ForceCameraReset(old(State()), now, openOk)
    {
      ForceCameraResetKeepsInv(State(), now, openOk);
      if camera.Some? {
        events := events + [Release(camera.value.id)];
        camera := None;
      }
      camera := InitCamera(now, openOk);
      lastCameraUse := now;
    }

    /** `camera.read()` on the present capture object. */
    method ReadCamera(readOk: bool) returns (ok: bool)
      requires Valid() && camera.Some?
      modifies this
      ensures Valid()
      ensures State() == CameraSpec.ReadCamera(old(State()), readOk).next
      ensures ok == CameraSpec.ReadCamera(old(State()), readOk).out
    {
      ReadCameraKeepsInv(State(), readOk);
      ok := readOk && camera.value.isOpen;
      events := events + [Read(camera.value.id, ok)];
    }

    /** Other requests run between two locked sections: a `shutdown_camera`,
        or the hardware going away and a `_ensure_camera` whose open fails. */
    method Interpose(b: Between, now: real)
      requires Valid()
      modifies this
      ensures Valid()
      ensures State() == CameraSpec.Interpose(old(State()), b, now)
    {
      match b
      case Undisturbed =>
      case ShutdownLands =>
        var _ := ShutdownCamera();
      case ReopenFails =>
        DeviceLost();
        var _ := EnsureCamera(now, false);
    }

    /** `capture_image()`: `_ensure_camera`, then the locked read; in between
        other requests may run. The timestamp the read block writes is a local
        name, so the field is not touched here. */
    method CaptureImage(now: real, openOk: bool, between: Between, readOk: bool)
      returns (reply: CaptureReply)
      requires Valid()
      modifies this
      ensures Valid()
      ensures State() == CameraSpec.CaptureImage(old(State()), now, openOk, between, readOk).next
      ensures reply == CameraSpec.CaptureImage(old(State()), now, openOk, between, readOk).out
    {
      var ok := EnsureCamera(now, openOk);
      if !ok {
        return Returned(false);
      }
      Interpose(between, now);
      // try: the read raises when there is no camera
      if camera.None? {
        reply := Raised;
      } else {
        var success := ReadCamera(readOk);
        reply := Returned(success);
      }
      // finally
      if activeStreams == 0 {
        ScheduleCameraShutdown();
      }
    }

    /** The locked read block of the stream loop. */
    method StreamRead(now: real, readOk: bool) returns (outcome: ReadOutcome)
      requires Valid()
      modifies this
      ensures Valid()
      ensures State() == CameraSpec.StreamRead(old(State()), now, readOk).next
      ensures outcome == CameraSpec.StreamRead(old(State()), now, readOk).out
    {
      StreamReadKeepsInv(State(), now, readOk);
      if shutdownFlag {
        return Stopped;
      }
      if camera.None? {
        return Faulted;
      }
      var ok := ReadCamera(readOk);
      lastCameraUse := now;
      outcome := if ok then Yielded else Skipped;
    }

    /** One pass of the `while True` loop of `generate_frames()`. Between
        `_ensure_camera` and the locked read other requests may run;
        `p.beforeRead` says what they do; `p.beforeEnsure` says what they did
        since the previous pass released the lock. */
    method StreamPass(p: Pull) returns (result: PassResult)
      requires Valid()
      modifies this
      ensures Valid()
      ensures State() == CameraSpec.StreamPass(old(State()), p).next
      ensures result == CameraSpec.StreamPass(old(State()), p).out
    {
      Interpose(p.beforeEnsure, p.now);
      var ok := EnsureCamera(p.now, p.openOk);
      if !ok {
        return Unavailable;
      }
      Interpose(p.beforeRead, p.now);
      var outcome := StreamRead(p.now, p.readOk);
      result := Reached(outcome);
    }

    /** One turn of the `while True` loop of `generate_frames()`: pass `i`,
        then whether the loop goes on. With `frames` yielded before the turn,
        the session that remains from pass `i` and the one that remains from
        pass `i + 1` (or the ended session) agree. */
    method StreamTurn(pulls: seq<Pull>, i: nat, frames: nat) returns (framesOut: nat, exit: StreamExit)
      requires Valid()
      requires i < |pulls|
      modifies this
      ensures Valid()
      ensures var s := CameraSpec.StreamLoop(old(State()), pulls[i..]);
        var before := s.(frames := frames + s.frames);
        if exit == Running then
          var t := CameraSpec.StreamLoop(State(), pulls[i + 1..]);
          before == t.(frames := framesOut + t.frames)
        else before == Session(State(), exit, framesOut)
    {
      ghost var s := CameraSpec.StreamLoop(State(), pulls[i..]);
      StreamLoopStep(State(), pulls, i, frames, s.(frames := frames + s.frames));
      var result := StreamPass(pulls[i]);
      framesOut, exit := frames, Running;
      if result == Unavailable {
        exit := CameraUnavailable;
      } else if result == Reached(Stopped) {
        exit := ShutdownObserved;
      } else if result == Reached(Faulted) {
        exit := ReadFault;
      } else if result == Reached(Yielded) {
        framesOut := frames + 1;
        if pulls[i].closeAtYield {
          exit := ClientClosed;
        }
      }
    }

    /** The `while True` loop of `generate_frames()` over the passes in
        `pulls`; the consumer may close the generator at a `yield`. When the
        passes run out first, the session is still `Running`. */
    method StreamLoop(pulls: seq<Pull>) returns (frames: nat, exit: StreamExit)
      requires Valid()
      modifies this
      ensures Valid()
      ensures State() == CameraSpec.StreamLoop(old(State()), pulls).next
      ensures frames == CameraSpec.StreamLoop(old(State()), pulls).frames
      ensures exit == CameraSpec.StreamLoop(old(State()), pulls).exit
    {
      ghost var start := State();
      frames, exit := 0, Running;
      var i := 0;
      while i < |pulls|
        invariant 0 <= i <= |pulls|
        invariant Valid()
        invariant exit == Running
        invariant var s := CameraSpec.StreamLoop(State(), pulls[i..]);
          CameraSpec.StreamLoop(start, pulls) == s.(frames := frames + s.frames)
      {
        frames, exit := StreamTurn(pulls, i, frames);
        if exit != Running {
          break;
        }
        i := i + 1;
      }
    }

    /** `generate_frames()`: counted in `active_streams` from entry to its
        `finally` block, which runs once the session has ended; returns how
        many frames it yielded and how it stands. */
    method GenerateFrames(pulls: seq<Pull>) returns (frames: nat, exit: StreamExit)
      requires Valid()
      modifies this
      ensures Valid()
      ensures State() == CameraSpec.GenerateFrames(old(State()), pulls).next
      ensures frames == CameraSpec.GenerateFrames(old(State()), pulls).frames
      ensures exit == CameraSpec.GenerateFrames(old(State()), pulls).exit
    {
      activeStreams := activeStreams + 1;
      shutdownFlag := false;
      assert State() == BeginStream(old(State()));
      frames, exit := StreamLoop(pulls);
      if exit != Running {
        // the finally block
        activeStreams := activeStreams - 1;
        if activeStreams == 0 {
          ScheduleCameraShutdown();
        }
      }
    }

    /** The hardware goes away under the current handle. */
    method DeviceLost()
      requires Valid()
      modifies this
      ensures Valid()
      ensures State() == CameraSpec.DeviceLost(old(State()))
    {
      DeviceLostKeepsInv(State());
      if camera.Some? {
        var h := camera.value;
        events := events + [Lost(h.id)];
        camera := Some(Handle(h.id, false));
      }
    }
  }
}
