/** The current manager refines the earlier one: forgetting the counter, the
    detection cache and the last frame, every operation and every stream run
    of the current version is one of the earlier version, as long as the
    detection interval is not zero. */
module Versions {
  import opened Camera
  import Manager
  import EarlyManager

  /** The part of a current session the earlier version also has. */
  function Forget(s: Manager.Session): (e: EarlyManager.Session)
    ensures e.device == s.device && e.isActive == s.isActive
  {
    EarlyManager.Session(s.device, s.isActive)
  }

  lemma StartAgrees(s: Manager.Session, opens: bool)
    ensures Forget(Manager.StartCam(s, opens).0) == EarlyManager.StartCam(Forget(s), opens).0
    ensures Manager.StartCam(s, opens).1 == EarlyManager.StartCam(Forget(s), opens).1
  {
  }

  lemma StopAgrees(s: Manager.Session)
    ensures Forget(Manager.StopCam(s).0) == EarlyManager.StopCam(Forget(s)).0
  {
  }

  /** With a non-zero interval `get_frame` answers as the earlier version did. */
  lemma GetFrameAgrees(s: Manager.Session, t: Tick, detect: Frame -> Detections)
    requires s.interval != 0
    ensures Forget(Manager.GetFrame(s, t, detect).0) == EarlyManager.GetFrame(Forget(s), t).0
    ensures Manager.GetFrame(s, t, detect).1 == EarlyManager.GetFrame(Forget(s), t).1
  {
  }

  /** With a zero interval the two versions part: the current one raises where
      the earlier one returned the JPEG bytes. */
  lemma ZeroIntervalDiverges(s: Manager.Session, t: Tick, detect: Frame -> Detections)
    requires s.interval == 0 && Manager.Captures(s, t)
    ensures Manager.GetFrame(s, t, detect).1 == Err(ModuloByZero)
    ensures EarlyManager.GetFrame(Forget(s), t).1 == Ok(t.jpeg)
  {
  }

  lemma ApplyAgrees(s: Manager.Session, call: Call, detect: Frame -> Detections)
    requires s.interval != 0
    ensures Forget(Manager.Apply(s, call, detect)) == EarlyManager.Apply(Forget(s), call)
    ensures Manager.Apply(s, call, detect).interval == s.interval
  {
    match call
    case StartCall(opens) => StartAgrees(s, opens);
    case StopCall => StopAgrees(s);
    case FrameCall(t) => GetFrameAgrees(s, t, detect);
  }

  /** Both versions' streams yield the same chunks and end the same way on
      every script. */
  lemma {:induction false} StreamAgrees(s: Manager.Session, script: seq<Event>, detect: Frame -> Detections)
    requires s.interval != 0
    ensures var r := Manager.Stream(s, script, detect);
            var e := EarlyManager.Stream(Forget(s), script);
      && r.chunks == e.chunks
      && r.end == e.end
      && Forget(r.final) == e.final
    decreases |script|
  {
    if script != [] {
      if script[0].Between? {
        ApplyAgrees(s, script[0].call, detect);
        StreamAgrees(Manager.Apply(s, script[0].call, detect), script[1..], detect);
      } else if s.isActive {
        var ready := if script[0].RacedPull? then Manager.Apply(s, script[0].call, detect) else s;
        if script[0].RacedPull? {
          ApplyAgrees(s, script[0].call, detect);
        }
        GetFrameAgrees(ready, script[0].tick, detect);
        StreamAgrees(Manager.GetFrame(ready, script[0].tick, detect).0, script[1..], detect);
      }
    }
  }
}
