/** The current camera session manager (`back/webcam_manager.py`): the
    start/stop lifecycle over one capture slot, the per-frame capture step with
    its frame counter and throttled detection cache, and the pull-based stream
    of multipart chunks. Device, encoder and detector are oracle parameters. */
module Manager {
  import opened Camera
  import opened Framing

  /** Constructor default for `detection_interval`. */
  const DefaultInterval: int := 3

  /** The fields of a `WebcamManager`. `device` holds `cap` plus the capture
      objects not yet released; `interval` is `detection_interval`. */
  datatype Session = Session(
    device: Device,
    isActive: bool,
    frameCount: nat,
    lastResults: Option<Detections>,
    currentFrame: Option<Frame>,
    interval: int)

  /** The representation invariant every reachable session keeps. */
  predicate Valid(s: Session)
  {
    Owned(s.device)
  }

  /** What an active session should satisfy and the code does not keep: it
      holds an opened capture. */
  predicate ActiveMeansOpen(s: Session)
  {
    s.isActive ==> s.device.cap.Handle? && s.device.cap.isOpen
  }

  /** `WebcamManager(detection_interval=3)`. */
  function New(interval: int := DefaultInterval): (s: Session)
    ensures Valid(s) && ActiveMeansOpen(s)
    ensures !s.isActive && s.device.live == {}
    ensures s.interval == interval
  {
    Session(NoDevice, false, 0, None, None, interval)
  }

  /** `start_cam`: release the held capture, create a new one; if it did not
      open raise `WebcamNotAvailableError` leaving the flags and the cache
      alone, otherwise activate and reset the counter and the cache. */
  function StartCam(s: Session, opens: bool): (r: (Session, Result<bool>))
    ensures r.0.device.cap == Handle(s.device.nextId, opens)
    ensures opens ==> r.1 == Ok(true) && r.0.isActive && r.0.frameCount == 0 && r.0.lastResults.None?
    ensures !opens ==> && r.1 == Err(NotAvailable(UnableToAccess))
                       && r.0.isActive == s.isActive
                       && r.0.frameCount == s.frameCount
                       && r.0.lastResults == s.lastResults
    ensures r.0.currentFrame == s.currentFrame && r.0.interval == s.interval
    ensures Valid(s) ==> Valid(r.0) && r.0.device.live == {s.device.nextId}
  {
    var d := Reacquire(s.device, opens);
    if !opens then
      (s.(device := d), Err(NotAvailable(UnableToAccess)))
    else
      (s.(device := d, isActive := true, frameCount := 0, lastResults := None), Ok(true))
  }

  /** `stop_cam`: release and clear the slot if it holds a capture, deactivate,
      return True. */
  function StopCam(s: Session): (r: (Session, bool))
    ensures r.1
    ensures !r.0.isActive && r.0.device.cap.NoHandle?
    ensures r.0.frameCount == s.frameCount && r.0.lastResults == s.lastResults
    ensures r.0.currentFrame == s.currentFrame && r.0.interval == s.interval
    ensures Valid(s) ==> Valid(r.0) && r.0.device.live == {}
  {
    (s.(device := Release(s.device), isActive := false), true)
  }

  /** `get_status`. */
  function Status(s: Session): bool
  {
    s.isActive
  }

  /** `get_frame` gets past its guard and `cap.read()` reports a frame. */
  predicate Captures(s: Session, t: Tick)
  {
    s.isActive && s.device.cap.Handle? && Read(s.device.cap, t.read).Some?
  }

  /** The throttling rule, for the counter value after the increment. The
      source evaluates Python's floor `%`; only its comparison with zero is
      used, and floor and Euclidean remainders are zero for the same operands. */
  predicate Refreshes(count: nat, interval: int, last: Option<Detections>)
    requires interval != 0
  {
    count % interval == 0 || last.None?
  }

  /** `get_frame` calls the detection collaborator. */
  predicate DetectorCalled(s: Session, t: Tick)
  {
    Captures(s, t) && s.interval != 0 && Refreshes(s.frameCount + 1, s.interval, s.lastResults)
  }

  /** `get_frame`: returns the JPEG bytes, None when encoding fails, or the
      exception it raises, with the session as the call leaves it. */
  function GetFrame(s: Session, t: Tick, detect: Frame -> Detections): (r: (Session, Result<Option<Bytes>>))
    // the lifecycle is never touched
    ensures r.0.device == s.device && r.0.isActive == s.isActive && r.0.interval == s.interval
    // the guard: no read, nothing changes
    ensures !s.isActive || s.device.cap.NoHandle? ==> r == (s, Err(NotAvailable(SeemsInactive)))
    // every read overwrites the current frame, even a failed one
    ensures s.isActive && s.device.cap.Handle? ==> r.0.currentFrame == Read(s.device.cap, t.read)
    // a failed read raises and counts nothing
    ensures s.isActive && s.device.cap.Handle? && !Captures(s, t) ==>
              && r.1 == Err(CaptureFailed(CannotReceive))
              && r.0.frameCount == s.frameCount
              && r.0.lastResults == s.lastResults
    // a successful read counts exactly one frame
    ensures Captures(s, t) ==> r.0.frameCount == s.frameCount + 1
    ensures !Captures(s, t) ==> r.0.frameCount == s.frameCount
    // a zero interval makes the throttling test raise
    ensures Captures(s, t) && s.interval == 0 ==> r.1 == Err(ModuloByZero) && r.0.lastResults == s.lastResults
    // the cache is replaced by the detector's answer exactly when the rule fires
    ensures r.0.lastResults == (if DetectorCalled(s, t) then Some(detect(t.read.value)) else s.lastResults)
    // the encoder's answer is returned as is, a failure as None
    ensures Captures(s, t) && s.interval != 0 ==> r.1 == Ok(t.jpeg)
  {
    if !s.isActive || s.device.cap.NoHandle? then
      (s, Err(NotAvailable(SeemsInactive)))
    else
      var frame := Read(s.device.cap, t.read);
      var s1 := s.(currentFrame := frame);
      if frame.None? then
        (s1, Err(CaptureFailed(CannotReceive)))
      else
        var s2 := s1.(frameCount := s.frameCount + 1);
        if s.interval == 0 then
          (s2, Err(ModuloByZero))
        else
          var s3 := if Refreshes(s2.frameCount, s.interval, s.lastResults)
                    then s2.(lastResults := Some(detect(frame.value)))
                    else s2;
          (s3, Ok(t.jpeg))
  }

  /** The state after another client's call; what it returned goes to that client. */
  function Apply(s: Session, call: Call, detect: Frame -> Detections): (r: Session)
    ensures Valid(s) ==> Valid(r)
  {
    match call
    case StartCall(opens) => StartCam(s, opens).0
    case StopCall => StopCam(s).0
    case FrameCall(t) => GetFrame(s, t, detect).0
  }

  /** A sequence of calls, each failure reported to its own caller. */
  function Run(s: Session, calls: seq<Call>, detect: Frame -> Detections): Session
    decreases |calls|
  {
    if calls == [] then s else Run(Apply(s, calls[0], detect), calls[1..], detect)
  }

  /** The body of a `with` block: calls run until one raises. */
  function Block(s: Session, calls: seq<Call>, detect: Frame -> Detections): (Session, Option<Error>)
    decreases |calls|
  {
    if calls == [] then (s, None)
    else
      match calls[0]
      case StartCall(opens) =>
        var (s', res) := StartCam(s, opens);
        if res.Err? then (s', Some(res.error)) else Block(s', calls[1..], detect)
      case StopCall => Block(StopCam(s).0, calls[1..], detect)
      case FrameCall(t) =>
        var (s', res) := GetFrame(s, t, detect);
        if res.Err? then (s', Some(res.error)) else Block(s', calls[1..], detect)
  }

  /** `with manager:`: `__enter__` starts the camera; if that raises, the
      block and `__exit__` do not run. Otherwise the block runs, `__exit__`
      stops the camera on the way out, and an exception from the block
      propagates. */
  function Scoped(s: Session, opens: bool, body: seq<Call>, detect: Frame -> Detections): (r: (Session, Option<Error>))
    ensures !opens ==> r == (StartCam(s, false).0, Some(NotAvailable(UnableToAccess)))
    ensures opens ==> !r.0.isActive && r.0.device.cap.NoHandle?
    // `__exit__` returns None: the block's exception, if any, is re-raised
    ensures opens ==> r.1 == Block(StartCam(s, true).0, body, detect).1
  {
    var (entered, res) := StartCam(s, opens);
    if res.Err? then
      (entered, Some(res.error))
    else
      var (inside, raised) := Block(entered, body, detect);
      (StopCam(inside).0, raised)
  }

  /** `generate_frames` driven by a finite script of events. Every exception
      inside the loop, including the `WebcamFrameError` for a None frame,
      leaves it as a `WebcamStreamError` built from the original's message;
      `End` records the original's kind. */
  function Stream(s: Session, script: seq<Event>, detect: Frame -> Detections): (r: StreamRun<Session>)
    ensures |r.chunks| <= |script|
    ensures forall i | 0 <= i < |r.chunks| :: Unframe(r.chunks[i]).Some?
    ensures r.end.Clean? ==> !r.final.isActive
    ensures Valid(s) ==> Valid(r.final)
    decreases |script|
  {
    if script == [] then
      StreamRun([], Pending, s)
    else if script[0].Between? then
      Stream(Apply(s, script[0].call, detect), script[1..], detect)
    else if !s.isActive then
      StreamRun([], Clean, s)
    else
      var ready := if script[0].RacedPull? then Apply(s, script[0].call, detect) else s;
      var (next, res) := GetFrame(ready, script[0].tick, detect);
      match res
      case Err(e) => StreamRun([], StreamError(e), next)
      case Ok(None) => StreamRun([], StreamError(NoFrame(NoFrameMessage)), next)
      case Ok(Some(jpeg)) =>
        var rest := Stream(next, script[1..], detect);
        UnframeChunk(jpeg);
        StreamRun([Chunk(jpeg)] + rest.chunks, rest.end, rest.final)
  }
}
