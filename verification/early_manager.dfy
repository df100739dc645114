/** The earlier camera session manager (`webcam_manager.py` at the top of the
    repository): the same lifecycle and stream as the current one, with no
    frame counter, no detection cache and no record of the last frame. */
module EarlyManager {
  import opened Camera
  import opened Framing

  /** The fields of the earlier `WebcamManager`. */
  datatype Session = Session(device: Device, isActive: bool)

  predicate Valid(s: Session)
  {
    Owned(s.device)
  }

  /** `WebcamManager()`. */
  function New(): (s: Session)
    ensures Valid(s) && !s.isActive && s.device.live == {}
  {
    Session(NoDevice, false)
  }

  /** `start_cam`: release the held capture and create a new one; raise
      `WebcamNotAvailableError` with the flag untouched if it did not open,
      otherwise activate. */
  function StartCam(s: Session, opens: bool): (r: (Session, Result<bool>))
    ensures r.0.device.cap == Handle(s.device.nextId, opens)
    ensures opens ==> r.1 == Ok(true) && r.0.isActive
    ensures !opens ==> r.1 == Err(NotAvailable(UnableToAccess)) && r.0.isActive == s.isActive
    ensures Valid(s) ==> Valid(r.0) && r.0.device.live == {s.device.nextId}
  {
    var d := Reacquire(s.device, opens);
    if opens then (Session(d, true), Ok(true)) else (s.(device := d), Err(NotAvailable(UnableToAccess)))
  }

  /** `stop_cam`: release and clear the slot if it holds a capture, deactivate,
      return True. */
  function StopCam(s: Session): (r: (Session, bool))
    ensures r.1 && !r.0.isActive && r.0.device.cap.NoHandle?
    ensures Valid(s) ==> Valid(r.0) && r.0.device.live == {}
    ensures !s.isActive && s.device.cap.NoHandle? ==> r.0 == s
  {
    (Session(Release(s.device), false), true)
  }

  /** `get_frame`: the state is never changed; the answer is the JPEG bytes,
      None when encoding fails, or the exception raised. */
  function GetFrame(s: Session, t: Tick): (r: (Session, Result<Option<Bytes>>))
    ensures r.0 == s
    ensures !s.isActive || s.device.cap.NoHandle? ==> r.1 == Err(NotAvailable(SeemsInactive))
    ensures s.isActive && s.device.cap.Handle? ==>
              r.1 == (if Read(s.device.cap, t.read).None? then Err(CaptureFailed(CannotReceive)) else Ok(t.jpeg))
  {
    if !s.isActive || s.device.cap.NoHandle? then
      (s, Err(NotAvailable(SeemsInactive)))
    else if Read(s.device.cap, t.read).None? then
      (s, Err(CaptureFailed(CannotReceive)))
    else
      (s, Ok(t.jpeg))
  }

  /** The state after another client's call. */
  function Apply(s: Session, call: Call): (r: Session)
    ensures Valid(s) ==> Valid(r)
  {
    match call
    case StartCall(opens) => StartCam(s, opens).0
    case StopCall => StopCam(s).0
    case FrameCall(t) => GetFrame(s, t).0
  }

  /** A sequence of calls, each failure reported to its own caller. */
  function Run(s: Session, calls: seq<Call>): Session
    decreases |calls|
  {
    if calls == [] then s else Run(Apply(s, calls[0]), calls[1..])
  }

  /** `generate_frames` driven by a finite script of events; every exception
      inside the loop leaves it as a `WebcamStreamError` built from the
      original's message; `End` records the original's kind. */
  function Stream(s: Session, script: seq<Event>): (r: StreamRun<Session>)
    ensures |r.chunks| <= |script|
    ensures forall i | 0 <= i < |r.chunks| :: Unframe(r.chunks[i]).Some?
    ensures r.end.Clean? ==> !r.final.isActive
    ensures Valid(s) ==> Valid(r.final)
    decreases |script|
  {
    if script == [] then
      StreamRun([], Pending, s)
    else if script[0].Between? then
      Stream(Apply(s, script[0].call), script[1..])
    else if !s.isActive then
      StreamRun([], Clean, s)
    else
      var ready := if script[0].RacedPull? then Apply(s, script[0].call) else s;
      var (next, res) := GetFrame(ready, script[0].tick);
      match res
      case Err(e) => StreamRun([], StreamError(e), next)
      case Ok(None) => StreamRun([], StreamError(NoFrame(NoFrameMessage)), next)
      case Ok(Some(jpeg)) =>
        var rest := Stream(next, script[1..]);
        UnframeChunk(jpeg);
        StreamRun([Chunk(jpeg)] + rest.chunks, rest.end, rest.final)
  }

  /** Whatever sequence of calls is made, no more than one capture is live. */
  lemma {:induction false} RunKeepsOneHandle(s: Session, calls: seq<Call>)
    requires Valid(s)
    ensures Valid(Run(s, calls))
    ensures |Run(s, calls).device.live| <= 1
    decreases |calls|
  {
    if calls == [] {
      OwnedAtMostOne(s.device);
    } else {
      RunKeepsOneHandle(Apply(s, calls[0]), calls[1..]);
    }
  }

  /** Stopping twice is stopping once. */
  lemma StopIdempotent(s: Session)
    ensures StopCam(StopCam(s).0).0 == StopCam(s).0
  {
  }

  /** Without a stop anywhere in the script, a stream over an active session
      never ends cleanly. */
  lemma {:induction false} StreamCleanNeedsStop(s: Session, script: seq<Event>)
    requires s.isActive && NoStop(script)
    ensures Stream(s, script).end != Clean
    decreases |script|
  {
    if script != [] {
      assert NoStop(script[1..]) by {
        forall i | 0 <= i < |script[1..]|
          ensures script[1..][i] == script[i + 1]
        {
        }
      }
      assert !(script[0].Between? && script[0].call.StopCall?);
      assert !(script[0].RacedPull? && script[0].call.StopCall?);
      if script[0].Between? {
        StreamCleanNeedsStop(Apply(s, script[0].call), script[1..]);
      } else {
        var ready := if script[0].RacedPull? then Apply(s, script[0].call) else s;
        StreamCleanNeedsStop(ready, script[1..]);
      }
    }
  }

  /** While every pull reads and encodes a frame, the stream yields one chunk
      per pull, framing that pull's JPEG bytes, and keeps running. */
  lemma {:induction false} StreamSmooth(s: Session, script: seq<Event>)
    requires s.isActive && s.device.cap.Handle? && s.device.cap.isOpen
    requires SmoothPulls(script)
    ensures var r := Stream(s, script);
      && r.end == Pending
      && r.chunks == seq(|script|, i requires 0 <= i < |script| => Chunk(Jpegs(script)[i]))
      && r.final == s
    decreases |script|
  {
    if script != [] {
      assert SmoothPulls(script[1..]) by {
        forall i | 0 <= i < |script[1..]|
          ensures script[1..][i] == script[i + 1]
        {
        }
      }
      StreamSmooth(s, script[1..]);
      assert Jpegs(script) == [script[0].tick.jpeg.value] + Jpegs(script[1..]);
    }
  }

  /** A clean stop, a failed read, a failed encode and a stop landing before
      the guard of `get_frame` end a stream in four distinguishable ways. */
  lemma StreamEnds(s: Session, t: Tick)
    requires s.isActive && s.device.cap.Handle? && s.device.cap.isOpen
    ensures Stream(s, [Between(StopCall), Pull(t)]) == StreamRun([], Clean, StopCam(s).0)
    ensures t.read.None? ==> Stream(s, [Pull(t)]).end == StreamError(CaptureFailed(CannotReceive))
    ensures t.read.Some? && t.jpeg.None? ==> Stream(s, [Pull(t)]).end == StreamError(NoFrame(NoFrameMessage))
    ensures Stream(s, [RacedPull(StopCall, t)]).end == StreamError(NotAvailable(SeemsInactive))
  {
  }
}
