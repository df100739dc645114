/** Properties of the current camera session manager that relate several
    calls: idempotent stop, at most one live capture, the detection schedule,
    and how a stream ends. */
module ManagerLemmas {
  import opened Camera
  import opened Framing
  import opened Manager

  /** Stopping twice is stopping once; stopping a stopped session changes nothing. */
  lemma StopIdempotent(s: Session)
    ensures StopCam(StopCam(s).0).0 == StopCam(s).0
    ensures !s.isActive && s.device.cap.NoHandle? ==> StopCam(s).0 == s
  {
  }

  /** `get_status` reports active after a successful start, inactive after a
      stop, and is not changed by a failed start. */
  lemma StatusFollowsLifecycle(s: Session)
    ensures Status(StartCam(s, true).0)
    ensures !Status(StopCam(s).0)
    ensures Status(StartCam(s, false).0) == Status(s)
  {
  }

  /** Whatever sequence of calls is made, the session stays valid and no more
      than one capture object is ever live. */
  lemma {:induction false} RunKeepsOneHandle(s: Session, calls: seq<Call>, detect: Frame -> Detections)
    requires Valid(s)
    ensures Valid(Run(s, calls, detect))
    ensures |Run(s, calls, detect).device.live| <= 1
    decreases |calls|
  {
    if calls == [] {
      OwnedAtMostOne(s.device);
    } else {
      RunKeepsOneHandle(Apply(s, calls[0], detect), calls[1..], detect);
    }
  }

  /** A freshly constructed manager never holds two live captures. */
  lemma OneHandleFromNew(interval: int, calls: seq<Call>, detect: Frame -> Detections)
    ensures |Run(New(interval), calls, detect).device.live| <= 1
  {
    RunKeepsOneHandle(New(interval), calls, detect);
  }

  /** A failed restart of an active session leaves it flagged active with an
      unopened capture, so the next `get_frame` fails its read. */
  lemma FailedRestartKeepsActive(s: Session, t: Tick, detect: Frame -> Detections)
    requires s.isActive
    ensures var s' := StartCam(s, false).0;
      && s'.isActive
      && s'.device.cap.Handle? && !s'.device.cap.isOpen
      && !ActiveMeansOpen(s')
      && GetFrame(s', t, detect).1 == Err(CaptureFailed(CannotReceive))
  {
  }

  /** Every call except a failed start keeps active sessions on opened captures. */
  lemma ActiveMeansOpenPreserved(s: Session, call: Call, detect: Frame -> Detections)
    requires ActiveMeansOpen(s)
    requires call != StartCall(false) || !s.isActive
    ensures ActiveMeansOpen(Apply(s, call, detect))
  {
  }

  /** The frame numbers at which successive `get_frame` calls invoke the
      detection collaborator, in call order. */
  ghost function RefreshPoints(s: Session, ticks: seq<Tick>, detect: Frame -> Detections): seq<nat>
    decreases |ticks|
  {
    if ticks == [] then []
    else
      (if DetectorCalled(s, ticks[0]) then [s.frameCount + 1] else [])
      + RefreshPoints(GetFrame(s, ticks[0], detect).0, ticks[1..], detect)
  }

  /** Every tick of a run reads a frame. */
  predicate AllRead(ticks: seq<Tick>)
  {
    forall i | 0 <= i < |ticks| :: ticks[i].read.Some?
  }

  /** The reference schedule: among the frames numbered after `count`, up to
      `count + len`, those on which detection is due: frame 1, and every frame
      whose number the interval divides. */
  function Schedule(count: nat, len: nat, interval: int): seq<nat>
    requires interval != 0
    decreases len
  {
    if len == 0 then []
    else
      (if count + 1 == 1 || (count + 1) % interval == 0 then [count + 1] else [])
      + Schedule(count + 1, len - 1, interval)
  }

  /** The schedule holds exactly the due frame numbers, each once, in increasing order. */
  lemma {:induction false} ScheduleMembers(count: nat, len: nat, interval: int)
    requires interval != 0
    ensures forall n :: n in Schedule(count, len, interval) <==>
              count < n <= count + len && (n == 1 || n % interval == 0)
    ensures forall i, j | 0 <= i < j < |Schedule(count, len, interval)| ::
              Schedule(count, len, interval)[i] < Schedule(count, len, interval)[j]
    decreases len
  {
    if len != 0 {
      ScheduleMembers(count + 1, len - 1, interval);
      var rest := Schedule(count + 1, len - 1, interval);
      forall k | 0 <= k < |rest|
        ensures rest[k] > count + 1
      {
        assert rest[k] in rest;
      }
    }
  }

  /** On an active, opened session whose cache is empty exactly before the
      first frame, successive captures call the detector on the scheduled
      frames and on no others. */
  lemma {:induction false} RefreshSchedule(s: Session, ticks: seq<Tick>, detect: Frame -> Detections)
    requires s.isActive && s.device.cap.Handle? && s.device.cap.isOpen && s.interval != 0
    requires s.lastResults.None? <==> s.frameCount == 0
    requires AllRead(ticks)
    ensures RefreshPoints(s, ticks, detect) == Schedule(s.frameCount, |ticks|, s.interval)
    decreases |ticks|
  {
    if ticks != [] {
      var next := GetFrame(s, ticks[0], detect).0;
      assert Captures(s, ticks[0]);
      RefreshSchedule(next, ticks[1..], detect);
    }
  }

  /** After a successful start the detector runs on the schedule counted from frame 1. */
  lemma {:induction false} RefreshAfterStart(s: Session, ticks: seq<Tick>, detect: Frame -> Detections)
    requires s.interval != 0
    requires AllRead(ticks)
    ensures RefreshPoints(StartCam(s, true).0, ticks, detect) == Schedule(0, |ticks|, s.interval)
  {
    RefreshSchedule(StartCam(s, true).0, ticks, detect);
  }

  /** With the default interval of three, ten captures after a start call the
      detector on frames 1, 3, 6 and 9, in that order, once each. */
  lemma RefreshEveryThird(s: Session, ticks: seq<Tick>, detect: Frame -> Detections)
    requires s.interval == DefaultInterval
    requires |ticks| == 10 && AllRead(ticks)
    ensures RefreshPoints(StartCam(s, true).0, ticks, detect) == [1, 3, 6, 9]
  {
    RefreshAfterStart(s, ticks, detect);
    // counted down from frame 10, one frame per step
    assert Schedule(9, 1, 3) == [];
    assert Schedule(8, 2, 3) == [9];
    assert Schedule(7, 3, 3) == [9];
    assert Schedule(6, 4, 3) == [9];
    assert Schedule(5, 5, 3) == [6, 9];
    assert Schedule(4, 6, 3) == [6, 9];
    assert Schedule(3, 7, 3) == [6, 9];
    assert Schedule(2, 8, 3) == [3, 6, 9];
    assert Schedule(1, 9, 3) == [3, 6, 9];
  }

  /** Without a stop anywhere in the script, a stream over an active session
      never ends cleanly: it fails, or is still running. */
  lemma {:induction false} StreamCleanNeedsStop(s: Session, script: seq<Event>, detect: Frame -> Detections)
    requires s.isActive && NoStop(script)
    ensures Stream(s, script, detect).end != Clean
    decreases |script|
  {
    if script != [] {
      assert NoStop(script[1..]) by {
        forall i | 0 <= i < |script[1..]|
          ensures script[1..][i] == script[i + 1]
        {
        }
      }
      assert !(script[0].Between? && script[0].call.StopCall?);
      assert !(script[0].RacedPull? && script[0].call.StopCall?);
      if script[0].Between? {
        StreamCleanNeedsStop(Apply(s, script[0].call, detect), script[1..], detect);
      } else {
        var ready := if script[0].RacedPull? then Apply(s, script[0].call, detect) else s;
        var next := GetFrame(ready, script[0].tick, detect).0;
        assert next.isActive;
        StreamCleanNeedsStop(next, script[1..], detect);
      }
    }
  }

  /** While every pull reads and encodes a frame, the stream yields one chunk
      per pull, framing that pull's JPEG bytes, and keeps running. */
  lemma {:induction false} StreamSmooth(s: Session, script: seq<Event>, detect: Frame -> Detections)
    requires s.isActive && s.device.cap.Handle? && s.device.cap.isOpen && s.interval != 0
    requires SmoothPulls(script)
    ensures var r := Stream(s, script, detect);
      && r.end == Pending
      && r.chunks == seq(|script|, i requires 0 <= i < |script| => Chunk(Jpegs(script)[i]))
      && r.final.isActive
      && r.final.frameCount == s.frameCount + |script|
    decreases |script|
  {
    if script != [] {
      var next := GetFrame(s, script[0].tick, detect).0;
      assert SmoothPulls(script[1..]) by {
        forall i | 0 <= i < |script[1..]|
          ensures script[1..][i] == script[i + 1]
        {
        }
      }
      StreamSmooth(next, script[1..], detect);
      assert Jpegs(script) == [script[0].tick.jpeg.value] + Jpegs(script[1..]);
    }
  }

  /** A stop between two pulls ends the stream cleanly after the chunks
      already yielded. */
  lemma {:induction false} StreamStopEndsCleanly(s: Session, script: seq<Event>, t: Tick, detect: Frame -> Detections)
    requires s.isActive && s.device.cap.Handle? && s.device.cap.isOpen && s.interval != 0
    requires SmoothPulls(script)
    ensures var r := Stream(s, script + [Between(StopCall), Pull(t)], detect);
      && r.end == Clean
      && |r.chunks| == |script|
      && (forall i | 0 <= i < |script| :: Unframe(r.chunks[i]) == Some(script[i].tick.jpeg.value))
      && !r.final.isActive
      && r.final.device.cap.NoHandle?
    decreases |script|
  {
    var tail := [Between(StopCall), Pull(t)];
    if script != [] {
      var next := GetFrame(s, script[0].tick, detect).0;
      assert (script + tail)[0] == script[0];
      assert (script + tail)[1..] == script[1..] + tail;
      assert SmoothPulls(script[1..]) by {
        forall i | 0 <= i < |script[1..]|
          ensures script[1..][i] == script[i + 1]
        {
        }
      }
      StreamStopEndsCleanly(next, script[1..], t, detect);
      UnframeChunk(script[0].tick.jpeg.value);
    }
  }

  /** The four ways a stream over an active, opened session can stop after its
      first check, told apart by their ends. */
  lemma StreamEnds(s: Session, t: Tick, detect: Frame -> Detections)
    requires s.isActive && s.device.cap.Handle? && s.device.cap.isOpen && s.interval != 0
    ensures Stream(s, [Between(StopCall), Pull(t)], detect) == StreamRun([], Clean, StopCam(s).0)
    ensures t.read.None? ==> Stream(s, [Pull(t)], detect).end == StreamError(CaptureFailed(CannotReceive))
    ensures t.read.Some? && t.jpeg.None? ==> Stream(s, [Pull(t)], detect).end == StreamError(NoFrame(NoFrameMessage))
    ensures Stream(s, [RacedPull(StopCall, t)], detect).end == StreamError(NotAvailable(SeemsInactive))
  {
  }

  /** A stream over an inactive session ends cleanly at its first check, yielding nothing. */
  lemma StreamInactive(s: Session, t: Tick, rest: seq<Event>, detect: Frame -> Detections)
    requires !s.isActive
    ensures Stream(s, [Pull(t)] + rest, detect) == StreamRun([], Clean, s)
  {
  }

  /** The calls of a `with` block keep the session valid. */
  lemma {:induction false} BlockKeepsValid(s: Session, calls: seq<Call>, detect: Frame -> Detections)
    requires Valid(s)
    ensures Valid(Block(s, calls, detect).0)
    decreases |calls|
  {
    if calls != [] {
      match calls[0]
      case StartCall(opens) =>
        BlockKeepsValid(StartCam(s, opens).0, calls[1..], detect);
      case StopCall =>
        BlockKeepsValid(StopCam(s).0, calls[1..], detect);
      case FrameCall(t) =>
        BlockKeepsValid(GetFrame(s, t, detect).0, calls[1..], detect);
    }
  }

  /** Leaving a `with` block releases every capture; when `__enter__` fails,
      the unopened capture it created stays in the slot. */
  lemma ScopedReleases(s: Session, opens: bool, body: seq<Call>, detect: Frame -> Detections)
    requires Valid(s)
    ensures opens ==> Scoped(s, true, body, detect).0.device.live == {}
    ensures !opens ==> Scoped(s, false, body, detect).0.device.live == {s.device.nextId}
  {
    if opens {
      BlockKeepsValid(StartCam(s, true).0, body, detect);
    }
  }
}
