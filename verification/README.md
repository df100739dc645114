# Camera session manager, modelled in Dafny

This project models the camera session manager of a webcam object-recognition
server: the component that owns the one camera handle, moves between the
Inactive and Active states on `start_cam`/`stop_cam`, captures frames one at a
time with a frame counter and a throttled cache of detection results, and
serves a pull-based `multipart/x-mixed-replace` stream whose chunks each wrap
one JPEG.

Two versions of the manager are modelled:

- `Manager` (`manager.dfy`, with `manager_lemmas.dfy`) is the current
  `back/webcam_manager.py`;
- `EarlyManager` (`early_manager.dfy`) is the earlier `webcam_manager.py`,
  with the same lifecycle and stream but no counter, no detection cache and no
  stored frame;
- `Versions` (`versions.dfy`) proves that the current version refines the
  earlier one on the fields they share, as long as the detection interval is
  not zero;
- `Camera` (`camera.dfy`) holds the shared types: the capture slot with the
  set of capture objects created and not yet released, the exceptions, and
  the scripts of device behaviour;
- `Framing` (`framing.dfy`) is the chunk format.

The model is a pure state-transition system. A session is an immutable record;
every operation returns the new session with the value returned or the
exception raised. OpenCV, the JPEG encoder and the detection model are oracle
parameters: whether `cv.VideoCapture(0)` opened, what `cap.read()` returned,
what `cv.imencode` returned (a `Tick`), and a total function `detect` for the
detector. A capture that did not open reads no frame, as OpenCV behaves.
`generate_frames` is a function over a finite script of events: another
client's call completing before a loop check (`Between`), a pull from the
consumer (`Pull`), or a pull during which another call lands between the
loop's `is_active` check and `get_frame`'s own guard (`RacedPull`). Its result lists the chunks
yielded and how the generator ended: `Clean`, `StreamError(cause)` for the
`WebcamStreamError` raised from the error `cause`, or `Pending` when the script
ran out with the generator suspended after a yield. The source builds that
error from the message of `cause` alone (back/webcam_manager.py:137,
webcam_manager.py:75) and so tells the endings apart only by their distinct
messages; `End` keeps the kind of `cause` instead.

Where the intended behaviour of a session manager and the code differ, the
model follows the code:

- A failed `start_cam` does not make the session inactive, although an active
  session should hold an opened capture. The flag keeps its
  old value, and the slot holds the unopened capture. So an active session can
  hold a capture that never opened, and its next read fails. See
  `ManagerLemmas.FailedRestartKeepsActive`.
- A failed encode makes `get_frame` return None rather than raise.
  `generate_frames` turns that None into `WebcamFrameError("No frame.")`, and
  then into `WebcamStreamError`.
- A zero `detection_interval` is not rejected at construction. Each
  successful read then raises `ZeroDivisionError` at the throttling test,
  after the counter has been incremented.

## Model

| member | source | states |
|---|---|---|
| Camera.Reacquire | back/webcam_manager.py:46-49 | start releases the capture it held before creating a fresh one; the fresh one is live and in the slot, whether or not it opened |
| Camera.Release | back/webcam_manager.py:65-67 | stop releases the held capture and clears the slot; with no capture held it changes nothing |
| Camera.ReacquireOwned | back/webcam_manager.py:46-49 | from a slot that owns every live capture, a restart leaves exactly the new capture live |
| Camera.ReleaseOwned | back/webcam_manager.py:65-67 | from a slot that owns every live capture, a stop leaves no capture live |
| Camera.OwnedAtMostOne | back/webcam_manager.py:27 | a session whose slot owns every live capture has at most one live capture |
| Framing.UnframeChunk | back/webcam_manager.py:129-130 | removing the fixed boundary-and-header prefix and the CRLF suffix from a chunk gives back the JPEG bytes |
| Framing.UnframeExactlyChunks | back/webcam_manager.py:129-130 | a byte string unframes to a JPEG exactly when it is that JPEG's chunk |
| Framing.ChunkInjective | back/webcam_manager.py:129-130 | different JPEGs are sent as different chunks |
| Framing.ChunkLength | back/webcam_manager.py:129-130 | the framing adds 39 bytes to each JPEG |
| Manager.New | back/webcam_manager.py:26-35 | a new manager is inactive, holds no capture, and keeps the given detection interval |
| Manager.StartCam | back/webcam_manager.py:44-61 | the slot always ends up holding a fresh capture. On success: returns True, active, counter 0, cache cleared. On failure: raises WebcamNotAvailableError('Unable to access the camera.'), and the flag, counter and cache keep their values. At most the new capture is live |
| Manager.StopCam | back/webcam_manager.py:63-71 | returns True, inactive, no capture held, no capture live; counter, cache and last frame unchanged |
| Manager.GetFrame | back/webcam_manager.py:73-116 | the guard raises before any read and changes nothing. A read always overwrites the current frame. A failed read raises WebcamError and leaves the counter alone. A successful read adds exactly 1 to the counter. A zero interval raises. The cache is replaced by the detector's answer exactly when the refresh rule fires. The encoder's answer is returned, and a failed encode gives None. The lifecycle is never touched |
| Manager.Apply | back/webcam_manager.py:44-116 | any single start, stop or get_frame call keeps the slot owning every live capture |
| Manager.Scoped | back/webcam_manager.py:37-42 | if `__enter__` fails, the block and `__exit__` do not run and the error is raised; otherwise the block is left inactive with no capture held, and an exception raised in the block is re-raised after the stop while a block that finishes raises nothing |
| Manager.Stream | back/webcam_manager.py:124-137 | yields at most one chunk per event, and each chunk unframes. The stream ends cleanly only at a loop check that finds the session inactive. Every run keeps the slot owning every live capture |
| ManagerLemmas.StopIdempotent | back/webcam_manager.py:63-71 | stopping twice equals stopping once; stopping an inactive session that holds no capture changes nothing |
| ManagerLemmas.StatusFollowsLifecycle | back/webcam_manager.py:139-140 | get_status is true after a successful start, false after a stop, unchanged by a failed start |
| ManagerLemmas.RunKeepsOneHandle | back/webcam_manager.py:44-71 | over every sequence of start, stop and get_frame calls, the slot keeps owning every live capture, so at most one is live |
| ManagerLemmas.OneHandleFromNew | back/webcam_manager.py:26-71 | starting from a new manager, no sequence of calls ever has two live captures |
| ManagerLemmas.FailedRestartKeepsActive | back/webcam_manager.py:52-57 | a failed restart of an active session leaves it active with an unopened capture, and its next get_frame fails its read |
| ManagerLemmas.ActiveMeansOpenPreserved | back/webcam_manager.py:44-88 | every call except a failed start keeps "active implies an opened capture" |
| ManagerLemmas.ScheduleMembers | back/webcam_manager.py:96 | the reference schedule after frame c holds exactly the frame numbers n in c+1..c+len with n = 1 or n divisible by the interval, each once, in increasing order |
| ManagerLemmas.RefreshSchedule | back/webcam_manager.py:96-97 | from an active, opened session whose cache is empty exactly before frame 1, successive successful reads call the detector on exactly the reference schedule, in order |
| ManagerLemmas.RefreshAfterStart | back/webcam_manager.py:57-59 | after a successful start, the detector runs exactly on the schedule counted from frame 1: frame 1, then every frame whose number the interval divides |
| ManagerLemmas.RefreshEveryThird | back/webcam_manager.py:26 | with the default interval 3, ten captures after a start call the detector on frames 1, 3, 6 and 9, in that order, once each |
| ManagerLemmas.StreamCleanNeedsStop | back/webcam_manager.py:126 | with no stop anywhere in the script, a stream over an active session never ends cleanly |
| ManagerLemmas.StreamSmooth | back/webcam_manager.py:126-130 | while reads and encodes succeed, the stream yields each pull's JPEG framed, in order. It keeps running, and the counter grows by the number of pulls |
| ManagerLemmas.StreamStopEndsCleanly | back/webcam_manager.py:124-130 | a stop between pulls ends the stream cleanly. The chunks already yielded unframe to the JPEGs in order, and no capture is held afterwards |
| ManagerLemmas.StreamEnds | back/webcam_manager.py:124-137 | the four endings are told apart. A stop before the check ends cleanly with nothing yielded. A failed read gives StreamError(WebcamError). A failed encode gives StreamError(WebcamFrameError('No frame.')). A stop between the loop check and get_frame's guard gives StreamError(WebcamNotAvailableError) |
| ManagerLemmas.StreamInactive | back/webcam_manager.py:126 | a stream over an inactive session ends cleanly at its first check, having yielded nothing |
| ManagerLemmas.BlockKeepsValid | back/webcam_manager.py:37-42 | the calls made inside a `with` block keep the slot owning every live capture |
| ManagerLemmas.ScopedReleases | back/webcam_manager.py:37-42 | leaving a `with` block leaves no capture live. A failed `__enter__` leaves its unopened capture live in the slot |
| EarlyManager.New | webcam_manager.py:21-24 | a new manager is inactive and holds no capture |
| EarlyManager.StartCam | webcam_manager.py:26-37 | start releases the old capture and holds a fresh one. On success it returns True and is active. On failure it raises WebcamNotAvailableError, and the flag is unchanged. At most the new capture is live |
| EarlyManager.StopCam | webcam_manager.py:39-46 | returns True, inactive, no capture held or live; a stopped session is unchanged |
| EarlyManager.GetFrame | webcam_manager.py:48-62 | the state never changes. The guard raises WebcamNotAvailableError. A failed read raises WebcamError. Otherwise the encoder's answer is returned, None on failure |
| EarlyManager.Apply | webcam_manager.py:26-62 | any single call keeps the slot owning every live capture |
| EarlyManager.Stream | webcam_manager.py:64-75 | at most one chunk per event; every chunk unframes; a clean end only at a check that finds the session inactive |
| EarlyManager.RunKeepsOneHandle | webcam_manager.py:26-46 | over every sequence of calls, at most one capture is live |
| EarlyManager.StopIdempotent | webcam_manager.py:39-46 | stopping twice equals stopping once |
| EarlyManager.StreamCleanNeedsStop | webcam_manager.py:66 | with no stop in the script, a stream over an active session never ends cleanly |
| EarlyManager.StreamSmooth | webcam_manager.py:66-71 | while reads and encodes succeed, the stream yields each pull's JPEG framed, in order, and leaves the session unchanged |
| EarlyManager.StreamEnds | webcam_manager.py:64-75 | a clean stop, a failed read, a failed encode and a stop between the loop check and get_frame's guard give four different endings |
| Versions.StartAgrees | webcam_manager.py:26-37 | the current start_cam acts on the slot and flag as the earlier one does, with the same outcome |
| Versions.StopAgrees | webcam_manager.py:39-46 | the current stop_cam acts on the slot and flag as the earlier one does |
| Versions.GetFrameAgrees | webcam_manager.py:48-62 | with a non-zero interval, given the same encoder answer for both versions, the current get_frame acts on the slot and flag and returns as the earlier one did |
| Versions.ZeroIntervalDiverges | back/webcam_manager.py:96 | with interval 0, the current version raises after a successful read where the earlier one returned the JPEG |
| Versions.ApplyAgrees | webcam_manager.py:26-62 | with a non-zero interval, every call acts on the shared fields as in the earlier version |
| Versions.StreamAgrees | webcam_manager.py:64-75 | with a non-zero interval, given the same device and encoder answers for both versions, on every script the current generate_frames yields the same chunks and ends the same way as the earlier one |

## Left out

- The `threading.Lock` and the check of `is_active` made outside it in `get_frame`: calls are modelled as a sequential interleaving. A call landing between the loop check and `get_frame`'s guard is the explicit `RacedPull` event. A stop landing after that unlocked guard and before the lock is taken (back/webcam_manager.py:74-80, webcam_manager.py:49-53) is not modelled: there `self.cap.read()` runs on `None`, and the stream ends with a `WebcamStreamError` carrying an `AttributeError` message rather than the `WebcamNotAvailableError` ending the model gives.
- `get_snapshot` (back/webcam_manager.py:118-122): it only forwards the stored frame to the captioning collaborator, and it has no guard against a missing frame. No "no frame yet" error exists in the code, so there is nothing to state about one.
- OpenCV, torch and PIL calls: `VideoCapture`/`isOpened`, `read` and `imencode` become oracle answers; `set`, `cvtColor`, `get`, `torch.tensor`, `rectangle` and `putText` are dropped (see Manager.GetFrame below). The requested 5 fps (back/webcam_manager.py:50) and the JPEG qualities 70 and 85 (back/webcam_manager.py:112, webcam_manager.py:58) act only inside those calls and do not appear in the model. Drawing, colour conversion and JPEG content are not modelled. So no round trip from JPEG bytes back to image dimensions is stated.
- The detection and description collaborators: the detector is an arbitrary total function from frames to detections, and its real output format is not modelled.
- Logging through `loguru`: it has no effect on state.
- The text of the runtime's `ZeroDivisionError`: it comes from the Python runtime, not from this code. `ModuloByZero` carries no message.
- Manager.Stream: states per chunk that each chunk unframes to some JPEG. The exact JPEG each chunk carries is stated by ManagerLemmas.StreamSmooth and ManagerLemmas.StreamStopEndsCleanly for runs whose pulls all succeed. The HTTP body as one byte string is not parsed back, because JPEG bytes may contain the boundary.
- Manager.GetFrame: assumes the steps between the read and the encode (back/webcam_manager.py:90-110) do not raise: `cvtColor`, `cap.get`, `torch.tensor`, the detector, and the drawing loop over `{box, label, score}` records. In the source, an exception there escapes `get_frame` after `frame_count += 1`, and possibly after `last_results` was replaced. The detection service (detection_service.py:13-16) actually returns one dict keyed `scores`/`labels`/`boxes`. The loop at back/webcam_manager.py:100-102 then iterates its string keys, and `result['box']` would raise a TypeError from the first annotated frame. This follows from detection_service.py:13-16 and back/webcam_manager.py:100-102; the model does not represent it.
- Versions.GetFrameAgrees: the two sources encode different images: a grey frame with boxes drawn on it at quality 70 (back/webcam_manager.py:90,112) against the colour frame at quality 85 (webcam_manager.py:58). The agreement is stated for one shared encoder answer, and under the Manager.GetFrame assumption above.
- Versions.StreamAgrees: the same chunks only under one shared device and encoder answer per pull, and under the Manager.GetFrame assumption above, as for Versions.GetFrameAgrees.
- EarlyManager.Stream: states per chunk only that it unframes to some JPEG. The exact JPEG each chunk carries is stated by EarlyManager.StreamSmooth for runs whose pulls all succeed.
- The HTTP routes, the blocking capture loop in `main.py`, the Streamlit front ends and the HTTP tests: they are outside the session manager.
