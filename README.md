# Camera lifecycle of the camera server, in Dafny

This project models the part of the camera server that decides when the one
physical capture device is open (`app/camera.py`). The module keeps four
globals under `camera_lock`:

- `camera`: the device handle, which is absent, present but not opened, or opened;
- `shutdown_flag`: a sticky request to keep the device closed;
- `last_camera_use`: the idle clock;
- `active_streams`: the number of live video streams.

Each function that takes the lock is one atomic transition over these globals:

- `_ensure_camera` opens the device, or recycles it when it has been idle for
  more than 60 seconds.
- `shutdown_camera` forces the device off. `reopen_camera` clears the flag.
- `generate_frames` is a counted streaming session with a read loop.
- `capture_image` is a one-shot read.
- `_safe_camera_shutdown` runs from a timer thread two seconds after the last
  stream or capture, and closes the device if it is still unused.
- `_force_camera_reset` closes and reinitialises the device.

Three modules:

- `CameraSpec` (camera_spec.dfy) holds the globals as a value (`Globals`) and
  one pure function per locked section. The clock reading and the outcomes of
  the capture-library calls are parameters. Handles have identities, and every
  open, release, read and loss of the device is recorded in `events`. From that
  log, `Inv` states that the opened `camera` is the only handle holding the
  device, and that no handle holds it while shutdown is requested. Each
  transition is proved to keep `Inv`.
- `CameraTraces` (camera_traces.dfy) runs these transitions interleaved in any
  order, as request threads, stream generators and timer threads do. It proves:
  - shutdown is sticky;
  - the stream counter is exact, and it is never negative over any run in
    which every stream exit ends a session that entered earlier;
  - no redundant reopen happens within the idle window;
  - three concrete scenarios (idle timeout, capture, three streams).
- `Camera` (camera.dfy) holds the class `CameraModule`. Its fields are the
  module globals, and its methods are the locked sections, written
  imperatively. `generate_frames`'s loop is a `while` loop over the consumer's
  pulls. Each method is proved to produce the state and result of its
  `CameraSpec` function. Every method except `InitCamera` keeps `Valid()`. `InitCamera` runs inside a locked section
  whose caller then assigns `camera`, so the invariant holds again only after
  that assignment.

The hardware can make an open handle stop reporting `isOpened()`.
`DeviceLost` is that step of the environment. It is what makes the "present
but not opened" handle reachable.

Four behaviours of the code that the model keeps as written:

- `shutdown_camera` releases only an opened handle. A handle that is present
  but not opened stays in `camera` after a shutdown.
- `shutdown_flag` is cleared by `reopen_camera` and also by every
  `generate_frames` on entry, so a new stream opens the device again after a
  shutdown.
- `capture_image` has no `global` declaration, so its assignment to
  `last_camera_use` binds a local name. A capture does not refresh the idle
  clock. Only a successful open, a stream read and `_force_camera_reset` do;
  the forced reset stamps the clock even when nothing opens.
- Nothing in the module calls `_force_camera_reset`. A failed stream read
  just continues the loop.

## Model

| member | source | states |
|---|---|---|
| `CameraSpec.InitCamera` | app/camera.py:176-193 | refuses without touching anything while shutdown is requested; otherwise constructs a capture object with a fresh identity (`nextId` moves on by one); on success returns it opened and stamps `last_camera_use`; on failure releases it and returns None; never assigns `camera` |
| `CameraSpec.EnsureCamera` | app/camera.py:195-208 | returns false and changes nothing while shutdown is requested; otherwise returns true exactly when a handle exists afterwards, which is then opened; opens when there is no opened camera, without releasing a present-but-unopened handle; releases and reopens an opened camera only when more than 60 s have passed (strict), else changes nothing; when it opens, `camera` becomes the new capture object (identity `nextId`, which moves on by one) or None if it did not open; stamps the clock only when it opened something |
| `CameraSpec.EnsureCameraKeepsInv` | app/camera.py:195-208 | `_ensure_camera` keeps the device invariant |
| `CameraSpec.Initial` | app/camera.py:166-171 | the import-time globals: no camera, no shutdown request, no streams, no timers, nothing holding the device |
| `CameraSpec.InitialInv` | app/camera.py:166-171 | the import-time globals satisfy the device invariant |
| `CameraSpec.AtMostOneHandleHeld` | app/camera.py:166-171 | under the invariant, at most one handle holds the device, and none while shutdown is requested |
| `CameraSpec.ShutdownCamera` | app/camera.py:289-297 | always returns true, sets the flag and leaves no opened camera; releases the camera only if it is opened; keeps a present-but-unopened handle |
| `CameraSpec.ShutdownCameraIdempotent` | app/camera.py:289-297 | a second `shutdown_camera` returns true and changes nothing |
| `CameraSpec.ShutdownCameraKeepsInv` | app/camera.py:289-297 | `shutdown_camera` keeps the device invariant |
| `CameraSpec.ReopenCamera` | app/camera.py:210-214 | clears `shutdown_flag` and changes nothing else |
| `CameraSpec.ScheduleShutdown` | app/camera.py:275-279 | one more started timer, nothing else changes |
| `CameraSpec.SafeCameraShutdown` | app/camera.py:281-287 | releases and clears the camera exactly when no stream is active and the camera is opened; otherwise changes nothing |
| `CameraSpec.SafeCameraShutdownIdempotent` | app/camera.py:281-287 | running the deferred close twice equals running it once |
| `CameraSpec.SafeCameraShutdownKeepsInv` | app/camera.py:281-287 | the deferred close keeps the device invariant |
| `CameraSpec.DeferredShutdown` | app/camera.py:275-287 | a started timer that runs out consumes itself and then behaves as `_safe_camera_shutdown` |
| `CameraSpec.ForceCameraReset` | app/camera.py:266-273 | releases any present handle, opened or not; reopens unless shutdown is requested, taking a fresh identity; `camera` is the new opened object or None; always stamps the clock, even when nothing opens |
| `CameraSpec.ForceCameraResetKeepsInv` | app/camera.py:266-273 | the forced reset keeps the device invariant |
| `CameraSpec.Interpose` | app/camera.py:203-207 | what other requests do between two locked sections: nothing; a `shutdown_camera`; or the device lost and a failed reopen, which leaves no `camera`, the flag as it was and the lost handle, the new capture object and its release logged; never moves the clock, the counter or the timers |
| `CameraSpec.InterposeKeepsInv` | app/camera.py:203-207 | other requests between two sections keep the device invariant |
| `CameraSpec.CaptureImage` | app/camera.py:249-264 | returns false with nothing changed while shutdown is requested, and returns false without scheduling a timer whenever `_ensure_camera` fails; raises exactly when the ensure succeeded and another request ran between the two locked sections (a shutdown leaves the flag set, a failed reopen leaves it clear; either way no `camera`); returns true exactly when the ensure succeeded, nothing intervened and the read returns a frame, reading the ensured camera once; never moves the clock past where `_ensure_camera` left it; once the read was reached, returned or raised, schedules a deferred shutdown exactly when no stream is active |
| `CameraSpec.CaptureDoesNotRefreshTimestamp` | app/camera.py:254-257 | a capture on a fresh opened camera does not move `last_camera_use` |
| `CameraSpec.CaptureImageKeepsInv` | app/camera.py:249-264 | `capture_image` keeps the device invariant |
| `CameraSpec.ReadCamera` | app/camera.py:236 | `camera.read()` on a present capture object returns a frame exactly when the object is opened and the device delivers one, and records the read |
| `CameraSpec.BeginStream` | app/camera.py:219-224 | entry of a stream: one more active stream, `shutdown_flag` cleared, nothing else changes |
| `CameraSpec.StreamRead` | app/camera.py:231-240 | stops exactly when the flag is set, changing nothing; faults exactly when there is no `camera`; otherwise reads the camera and stamps the clock whether or not a frame came back; yields exactly when the camera is opened and the read succeeds |
| `CameraSpec.StreamReadKeepsInv` | app/camera.py:231-240 | the locked read keeps the device invariant |
| `CameraSpec.EndStream` | app/camera.py:244-247 | decrements `active_streams` by one and schedules one deferred shutdown exactly when that leaves zero; nothing else changes |
| `CameraSpec.StreamPass` | app/camera.py:226-243 | one loop pass never changes the counter or the timers; after what other requests did since the last pass, the pass breaks as unavailable exactly when its `_ensure_camera` fails, so a shutdown landing at the `yield` ends it unavailable; once the ensure succeeded it stops exactly when a shutdown landed before the read, faults exactly when a failed reopen emptied `camera`, and yields exactly when nothing intervened and the read returns a frame; a stop leaves the flag set; a read that ran stamps the clock with the pass's time |
| `CameraSpec.StreamPassKeepsInv` | app/camera.py:226-240 | one loop pass keeps the device invariant |
| `CameraSpec.StreamLoop` | app/camera.py:226-243 | the read loop leaves the counter and timers as they were; a break on shutdown leaves the flag set; a break on ensure failure means shutdown or no handle; a fault leaves no `camera`; the consumer can close only at a `yield`, so a closed session yielded at least one frame; at most one frame per pass |
| `CameraSpec.StreamLoopUnfold` | app/camera.py:226-243 | how one pass drives the loop: a failed `_ensure_camera` breaks as unavailable, a flag seen before the read breaks as shutdown, a read that finds no `camera` ends by fault, a failed read continues with the next pass, and a yielded frame is counted and continues unless the consumer closes there |
| `CameraSpec.GenerateFrames` | app/camera.py:216-247 | while the session runs, it counts as one more active stream and no timer is started; once it has ended, by a break, a fault or the consumer closing, `active_streams` is back to its prior value and one deferred shutdown is scheduled exactly when that value is zero; a fault leaves no `camera` |
| `CameraSpec.FailedReadsKeepStreaming` | app/camera.py:226-243 | while the device opens, no shutdown lands and the consumer keeps pulling, failed reads never end the session: it is still running with the flag clear and the camera opened, and has yielded exactly the frames that were read |
| `CameraSpec.StreamAfterShutdown` | app/camera.py:219-243 | a stream started after `shutdown_camera` clears the request and opens the device again: with the device opening and no further shutdown, it keeps running and yields every frame that is read |
| `CameraSpec.DeviceLostKeepsInv` | app/camera.py:203-204 | a handle going away under the camera keeps the device invariant |
| `CameraSpec.StreamFaultRunsFinally` | app/camera.py:227-247 | a stream whose read finds no `camera` ends by the exception with no frame, and its `finally` block still restores the counter and schedules a timer at zero |
| `CameraSpec.ShutdownAtYieldEndsSession` | app/camera.py:226-247 | a `shutdown_camera` landing while the generator is suspended at its `yield` ends the session at the next `_ensure_camera` as unavailable, with one frame yielded, the flag set, no opened camera and the counter back to its prior value |
| `CameraSpec.DeviceLost` | app/camera.py:203 | the hardware goes away under the current handle: it stays in `camera` but no longer reports `isOpened()`, the loss is logged, and nothing else changes; with no handle nothing changes |
| `CameraTraces.Apply` | app/camera.py:195-297 | one atomic step of some thread; only stream entry and exit move `active_streams`, by one each, and only `reopen_camera` and stream entry clear `shutdown_flag` |
| `CameraTraces.Run` | app/camera.py:195-297 | an interleaving of atomic steps, with one reply per step |
| `CameraTraces.ApplyKeepsInv` | app/camera.py:195-297 | every locked section, stream step, timer and device loss keeps the device invariant |
| `CameraTraces.RunKeepsInv` | app/camera.py:166-297 | over any interleaving of the sections, the invariant holds and at most one handle holds the device |
| `CameraTraces.ApplyUnderShutdown` | app/camera.py:199-201 | one step that does not clear the flag leaves it set, is refused, and neither opens nor reads the device |
| `CameraTraces.ShutdownIsSticky` | app/camera.py:199-201 | after a shutdown, until `reopen_camera` or a new stream: the flag stays set, every ensure and capture returns false, every stream read stops, and the device is never opened or read |
| `CameraTraces.ShutdownThenEnsure` | app/camera.py:289-297 | `shutdown_camera` then `_ensure_camera` returns true then false, and the ensure changes nothing |
| `CameraTraces.ReopenReenables` | app/camera.py:210-214 | after `reopen_camera`, `_ensure_camera` opens the device again |
| `CameraTraces.StreamReenables` | app/camera.py:219-224 | after `shutdown_camera`, a stream entering and its `_ensure_camera` open the device again, with the flag clear |
| `CameraTraces.ReadFaultReachable` | app/camera.py:203-236 | a stream's ensure succeeds, the device is lost, another request's ensure fails to reopen, and the stream's locked read then finds no `camera` |
| `CameraTraces.RunTracksStreams` | app/camera.py:219-245 | over any interleaving, `active_streams` equals its start value plus stream entries minus exits |
| `CameraTraces.CounterIsOpenSessions` | app/camera.py:219-247 | over any run of sessions, `active_streams` equals the number of sessions running, when it did at the start |
| `CameraTraces.StreamsNeverNegative` | app/camera.py:219-245 | over any run in which each stream entry starts a session that is not running and each exit ends one that is (the `try`/`finally` pairing), starting from as many streams as running sessions, `active_streams` is never negative at any point |
| `CameraTraces.ThreeStreamsScenario` | app/camera.py:244-287 | three streams enter and two leave: one is active and no timer started; the third leaves: zero, one timer; the timer fires and releases the camera |
| `CameraTraces.DeferredShutdownHarmless` | app/camera.py:281-287 | a timer that fires while a stream is active changes only the timer count; a second timer after the first closes nothing more |
| `CameraTraces.NoReopenWithinWindow` | app/camera.py:203-208 | any number of `_ensure_camera` calls within 60 s of the last use of an opened camera change nothing and all return true |
| `CameraTraces.IdleTimeoutScenario` | app/camera.py:174-237 | opened at 0 and read at 30: at 90 (exactly 60 s idle) nothing is recycled; at 95 the camera is released and reopened |
| `CameraTraces.CaptureIdleScenario` | app/camera.py:249-257 | opened at 0 and captured at 50: the camera is still recycled at 100, because capture does not refresh the clock |
| `Camera.CameraModule.constructor` | app/camera.py:166-171 | the globals at import time: no camera, no flag, clock 0, no streams |
| `Camera.CameraModule.InitCamera` | app/camera.py:176-193 | the new state and returned handle are those of `CameraSpec.InitCamera` |
| `Camera.CameraModule.EnsureCamera` | app/camera.py:195-208 | the new state and result are those of `CameraSpec.EnsureCamera`; keeps `Valid()` |
| `Camera.CameraModule.ReopenCamera` | app/camera.py:210-214 | the new state is that of `CameraSpec.ReopenCamera` |
| `Camera.CameraModule.ShutdownCamera` | app/camera.py:289-297 | returns true; the new state is that of `CameraSpec.ShutdownCamera` |
| `Camera.CameraModule.ScheduleCameraShutdown` | app/camera.py:275-279 | the new state is that of `CameraSpec.ScheduleShutdown` |
| `Camera.CameraModule.SafeCameraShutdown` | app/camera.py:281-287 | the new state is that of `CameraSpec.SafeCameraShutdown` |
| `Camera.CameraModule.DeferredShutdown` | app/camera.py:275-287 | a pending timer fires: the new state is that of `CameraSpec.DeferredShutdown` |
| `Camera.CameraModule.ForceCameraReset` | app/camera.py:266-273 | the new state is that of `CameraSpec.ForceCameraReset` |
| `Camera.CameraModule.ReadCamera` | app/camera.py:236 | the new state and result are those of `CameraSpec.ReadCamera`; keeps `Valid()` |
| `Camera.CameraModule.Interpose` | app/camera.py:203-207 | the new state is that of `CameraSpec.Interpose` |
| `Camera.CameraModule.CaptureImage` | app/camera.py:249-264 | `_ensure_camera`, what other requests do between the sections, the read that raises without a `camera`, and the `finally` scheduling; the new state and reply are those of `CameraSpec.CaptureImage` |
| `Camera.CameraModule.StreamRead` | app/camera.py:231-240 | the new state and outcome are those of `CameraSpec.StreamRead` |
| `Camera.CameraModule.StreamPass` | app/camera.py:227-240 | the new state and result are those of `CameraSpec.StreamPass` |
| `Camera.CameraModule.StreamTurn` | app/camera.py:226-243 | one turn of the loop: the session left from this pass, with the frames already yielded, equals the session left from the next pass when the loop goes on, or the ended session when it breaks or the consumer closes |
| `Camera.CameraModule.StreamLoop` | app/camera.py:226-243 | the `while` loop with `break`, `continue` and the consumer closing at a `yield`; the new state, frame count and exit are those of `CameraSpec.StreamLoop` |
| `Camera.CameraModule.GenerateFrames` | app/camera.py:216-247 | increment and flag clear, the loop, then, once the session has ended, the `finally` decrement and scheduling; the new state, frame count and exit are those of `CameraSpec.GenerateFrames` |
| `Camera.CameraModule.DeviceLost` | app/camera.py:203 | the new state is that of `CameraSpec.DeviceLost`; keeps `Valid()` |

## Left out

- The capture library: constructing a capture object, `isOpened`, `read`,
  `imencode` and `imwrite`. They become boolean outcome parameters and
  entries in the device-event log. Frame contents, JPEG encoding and the saved
  image file are not modelled.
- The one-second warm-up sleep in `init_camera`, and separate clock
  readings within one step. A locked section takes one clock reading, so the
  timestamp `init_camera` writes is that reading. A whole stream pass
  (`Pull.now`) and a whole `capture_image` also take one reading: the idle
  test and open stamp of their `_ensure_camera` (app/camera.py:188, :205) and
  the read's stamp (:237) use the same time. In the source these are separate
  `time.time()` calls, with the one-second warm-up between a reopen and the
  read.
- Floating-point time. `time.time()` is modelled as an exact `real`.
- Threads, and the two-second delay of the timer thread. Every locked section
  is atomic. A started timer may fire at any later step (`DeferredShutdown`,
  the `TimerFires` operation). Some accesses to `active_streams` are not
  under the lock in the source and are treated as atomic here: its increment
  on entry to `generate_frames`, the decrement in `generate_frames`'s
  `finally` block together with the test `active_streams == 0` that follows
  it, and the same test in `capture_image`'s `finally` block. Lost updates
  and stale readings from racing on them are not modelled.
- Inside one stream pass and inside one `capture_image`, the interleavings
  modelled between `_ensure_camera` and the locked read are the cases of
  `Between`: no other request, a `shutdown_camera`, or the hardware going
  away followed by another request's `_ensure_camera` whose open fails. The
  same cases are modelled before each stream pass's `_ensure_camera`
  (`Pull.beforeEnsure`), which covers the generator suspended at its `yield`
  and the lock released between passes. Other requests at these points (a
  deferred shutdown, a forced reset, a `reopen_camera`, several requests in
  a row) are not modelled inside these steps; in `CameraTraces` each
  stream step is a separate operation, but a capture is one. A stream read
  that finds no `camera` ends the session as `ReadFault` and its `finally`
  block runs; a capture read that finds none returns `Raised`. How the
  exception then propagates (the error reply of the route) is not modelled.
- `CameraSpec.EnsureCamera`: reads `camera` for its result inside the atomic
  step. In the source, `return camera is not None` (app/camera.py:208) runs
  after the lock is released, so another request (a `shutdown_camera`, say)
  can change `camera` between the recycle and that read. The model does not
  capture a result taken after such a change, e.g. a `capture_image` that
  returns False with no timer after the device was opened and released.
- A stream session is observed over a finite number of passes. A session
  whose passes run out is `Running`: its `finally` block has not run. A
  generator closed before its first pass runs no code and is not modelled.
- `reopen_camera`'s JSON reply: the model returns nothing.
- `shutdown_server`, the signal handlers, the `atexit` registration and
  `os._exit`. These are process exit.
- The temp-file cleanup thread. It is a filesystem sweep.
- Logging.
- The single-instance lock and the parent-process watchdog (`run.py`,
  `app/utils.py`). They are thin wrappers over OS file locking and process
  queries, and are not part of this model.
- The unassigned `init_camera()` call made when the application is created
  (`app/__init__.py`) is not part of this model.
- The HTTP routes (`app/routes.py`). They only map requests to these
  functions.
