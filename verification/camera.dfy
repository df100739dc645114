/** Types shared by both versions of the webcam manager: bytes and frames, the
    camera slot with its bookkeeping of live capture objects, the exception
    taxonomy, and the device behaviour a caller scripts for each operation. */
module Camera {

  newtype byte = x: int | 0 <= x < 256
  type Bytes = seq<byte>

  datatype Option<T> = None | Some(value: T)

  /** A raw frame as returned by `cap.read()`; its pixels are never inspected. */
  datatype Frame = Frame(width: nat, height: nat, pixels: Bytes)

  /** One entry of the detection collaborator's answer. */
  datatype Detection = Detection(name: string, score: real, box: seq<int>)
  type Detections = seq<Detection>

  /** The `cap` field: `None`, or a `cv.VideoCapture` object. `id` tells the
      objects created over a run apart; `isOpen` is what `isOpened()` said. */
  datatype Cap = NoHandle | Handle(id: nat, isOpen: bool)

  /** The camera slot together with the set of capture objects that have been
      created and not yet released, and the id the next one will get. */
  datatype Device = Device(cap: Cap, live: set<nat>, nextId: nat)

  const NoDevice := Device(NoHandle, {}, 0)

  /** The slot owns every live capture and nothing else is live. */
  predicate Owned(d: Device)
  {
    && d.live == (if d.cap.Handle? then {d.cap.id} else {})
    && (d.cap.Handle? ==> d.cap.id < d.nextId)
  }

  /** The acquisition step of `start_cam`: release the capture in the slot if
      there is one, then put a fresh `cv.VideoCapture(0)` in the slot, whether
      or not it opened. */
  function Reacquire(d: Device, opens: bool): (r: Device)
    ensures r.cap == Handle(d.nextId, opens)
    ensures r.nextId == d.nextId + 1
    ensures d.nextId in r.live
    ensures d.cap.Handle? && d.cap.id != d.nextId ==> d.cap.id !in r.live
    ensures r.live <= d.live + {d.nextId}
  {
    var kept := if d.cap.Handle? then d.live - {d.cap.id} else d.live;
    Device(Handle(d.nextId, opens), kept + {d.nextId}, d.nextId + 1)
  }

  /** The release step of `stop_cam`: release and clear the slot if it holds a capture. */
  function Release(d: Device): (r: Device)
    ensures r.cap == NoHandle
    ensures r.nextId == d.nextId
    ensures d.cap.Handle? ==> r.live == d.live - {d.cap.id}
    ensures d.cap.NoHandle? ==> r == d
  {
    if d.cap.Handle? then Device(NoHandle, d.live - {d.cap.id}, d.nextId) else d
  }

  /** Reacquiring from an owned slot leaves exactly the new capture live. */
  lemma ReacquireOwned(d: Device, opens: bool)
    requires Owned(d)
    ensures Owned(Reacquire(d, opens))
    ensures Reacquire(d, opens).live == {d.nextId}
  {
  }

  /** Releasing an owned slot leaves nothing live. */
  lemma ReleaseOwned(d: Device)
    requires Owned(d)
    ensures Owned(Release(d))
    ensures Release(d).live == {}
  {
  }

  /** An owned slot never has more than one live capture. */
  lemma OwnedAtMostOne(d: Device)
    requires Owned(d)
    ensures |d.live| <= 1
  {
  }

  /** What `cap.read()` yields: a capture that never opened yields no frame,
      otherwise the scripted device answer. */
  function Read(cap: Cap, answer: Option<Frame>): (r: Option<Frame>)
    requires cap.Handle?
    ensures !cap.isOpen ==> r.None?
    ensures cap.isOpen ==> r == answer
  {
    if cap.isOpen then answer else None
  }

  /** The device and encoder behaviour for one `get_frame` call: the frame
      `cap.read()` returns (None when it reports failure) and the bytes
      `cv.imencode` returns (None when it reports failure). */
  datatype Tick = Tick(read: Option<Frame>, jpeg: Option<Bytes>)

  /** The exceptions the managers raise. `CaptureFailed` is the plain
      `WebcamError`; `ModuloByZero` is the `ZeroDivisionError` a zero
      detection interval provokes. */
  datatype Error =
    | NotAvailable(msg: string)
    | CaptureFailed(msg: string)
    | NoFrame(msg: string)
    | ModuloByZero

  const UnableToAccess := "Unable to access the camera."
  const SeemsInactive := "The camera seems inactive. Exiting ..."
  const CannotReceive := "Can't receive frame (stream end?). Exiting ..."
  const NoFrameMessage := "No frame."

  /** A value, or the exception raised instead. */
  datatype Result<T> = Ok(value: T) | Err(error: Error)

  /** A call on the manager made by another client. */
  datatype Call = StartCall(opens: bool) | StopCall | FrameCall(tick: Tick)

  /** One step of the world around a running `generate_frames` loop:
      - `Between(call)`: another client's call completes before the next loop check;
      - `Pull(tick)`: the consumer asks for the next chunk: the loop checks
        `is_active` and, if it holds, calls `get_frame` with `tick`;
      - `RacedPull(call, tick)`: as `Pull`, but `call` completes after the loop
        check and before `get_frame` looks at the state. */
  datatype Event = Between(call: Call) | Pull(tick: Tick) | RacedPull(call: Call, tick: Tick)

  /** How a stream run ended: the loop saw `is_active` false, the loop raised
      `WebcamStreamError`, or the script ran out while the generator was
      suspended after a yield. The source keeps only the message of the error
      it wraps; `cause` keeps its kind, so endings the source tells apart by
      message are told apart here by constructor. */
  datatype End = Clean | StreamError(cause: Error) | Pending

  /** What a consumer of `generate_frames` observed: the chunks yielded, how
      the generator ended, and the session `S` at that point. */
  datatype StreamRun<S> = StreamRun(chunks: seq<Bytes>, end: End, final: S)

  /** No stop call appears anywhere in a script. */
  predicate NoStop(script: seq<Event>)
  {
    forall i | 0 <= i < |script| ::
      && !(script[i].Between? && script[i].call.StopCall?)
      && !(script[i].RacedPull? && script[i].call.StopCall?)
  }

  /** Every pull of a script is undisturbed and its tick reads a frame and encodes it. */
  predicate SmoothPulls(script: seq<Event>)
  {
    forall i | 0 <= i < |script| :: script[i].Pull? && script[i].tick.read.Some? && script[i].tick.jpeg.Some?
  }

  /** The JPEG bytes of a script of smooth pulls, in order. */
  function Jpegs(script: seq<Event>): (r: seq<Bytes>)
    requires SmoothPulls(script)
    ensures |r| == |script|
    ensures forall i | 0 <= i < |script| :: r[i] == script[i].tick.jpeg.value
  {
    if script == [] then [] else [script[0].tick.jpeg.value] + Jpegs(script[1..])
  }
}
