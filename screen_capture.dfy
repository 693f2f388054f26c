/** Capture resource bookkeeping of ScreenCaptureService.java: the four
    nullable platform handles (projection, virtual display, encoder, encoder
    input surface), the video sink frames are handed to, and the frame
    counter. Platform calls are recorded in an effect log; their outcomes
    (a projection granted or refused, an encoder created or not, a frame
    hand-off or release that throws) are parameters. */
module ScreenCapture {

  import opened Base

  /** `Activity.RESULT_OK`. */
  const RESULT_OK: int := -1
  /** The default `getIntExtra("resultCode", -1)` answers when the extra is absent. */
  const RESULT_CODE_DEFAULT: int := -1
  /** Frame timestamps are in nanoseconds: one frame per millisecond tick. */
  const NS_PER_FRAME: int := 1_000_000

  /** The start intent's extras: the permission result code and data. */
  datatype Intent = Intent(resultCode: Option<Int32>, data: Option<Handle>)

  /** `onStartCommand`'s gate: an intent whose result code (defaulting to -1)
      is RESULT_OK and whose data is non-null. Because the default equals
      RESULT_OK, an intent that carries data but no result code passes the
      gate too; any explicit code other than -1 fails it. */
  predicate StartGate(intent: Option<Intent>): (b: bool)
    ensures intent.None? ==> !b
    ensures intent.Some? && intent.value.data.None? ==> !b
    ensures intent.Some? && intent.value.data.Some? && intent.value.resultCode.None? ==> b
    ensures intent.Some? && intent.value.resultCode.Some? ==>
      (b <==> intent.value.resultCode.value == RESULT_OK && intent.value.data.Some?)
  {
    intent.Some? && intent.value.resultCode.GetOr(RESULT_CODE_DEFAULT) == RESULT_OK && intent.value.data.Some?
  }

  datatype CaptureEffect =
    | ProjectionObtained(projection: Handle)
    | EncoderStarted(encoder: Handle, surface: Handle)
    | VirtualDisplayCreated(display: Handle)
    | DisplayReleased(display: Handle)
    | EncoderStopped(encoder: Handle)
    | EncoderReleased(encoder: Handle)
    | SurfaceReleased(surface: Handle)
    | ProjectionStopped(projection: Handle)
    | FrameDelivered(sink: Handle, timestampNs: int)
    | FrameReleased
    | OutputBufferReleased(index: int)

  predicate IsRelease(e: CaptureEffect) {
    e.DisplayReleased? || e.EncoderStopped? || e.EncoderReleased? || e.SurfaceReleased? || e.ProjectionStopped?
  }

  predicate IsDelivery(e: CaptureEffect) {
    e.FrameDelivered?
  }

  function Opt(h: Option<Handle>, e: CaptureEffect): (r: seq<CaptureEffect>)
    ensures forall x :: x in r <==> h.Some? && x == e
  {
    if h.Some? then [e] else []
  }

  /** Ordinal of each release kind, in the order `stopScreenCapture` issues them. */
  function ReleaseRank(e: CaptureEffect): int {
    match e
    case DisplayReleased(_) => 0
    case EncoderStopped(_) => 1
    case EncoderReleased(_) => 2
    case SurfaceReleased(_) => 3
    case ProjectionStopped(_) => 4
    case _ => 5
  }

  /** The parts of a stop: release the display, stop and release the encoder
      (when `stop` throws, `release` is skipped), release the surface and stop
      the projection, each only if its handle is non-null. */
  function DisplayPart(display: Option<Handle>): (r: seq<CaptureEffect>)
    ensures |r| <= 1 && forall i :: 0 <= i < |r| ==> IsRelease(r[i]) && ReleaseRank(r[i]) == 0
  {
    Opt(display, DisplayReleased(display.GetOr(Handle(0))))
  }
  function EncoderStopPart(encoder: Option<Handle>): (r: seq<CaptureEffect>)
    ensures |r| <= 1 && forall i :: 0 <= i < |r| ==> IsRelease(r[i]) && ReleaseRank(r[i]) == 1
  {
    Opt(encoder, EncoderStopped(encoder.GetOr(Handle(0))))
  }
  function EncoderReleasePart(encoder: Option<Handle>, encoderStopThrows: bool): (r: seq<CaptureEffect>)
    ensures |r| <= 1 && forall i :: 0 <= i < |r| ==> IsRelease(r[i]) && ReleaseRank(r[i]) == 2
  {
    if encoderStopThrows then [] else Opt(encoder, EncoderReleased(encoder.GetOr(Handle(0))))
  }
  function SurfacePart(surface: Option<Handle>): (r: seq<CaptureEffect>)
    ensures |r| <= 1 && forall i :: 0 <= i < |r| ==> IsRelease(r[i]) && ReleaseRank(r[i]) == 3
  {
    Opt(surface, SurfaceReleased(surface.GetOr(Handle(0))))
  }
  function ProjectionPart(projection: Option<Handle>): (r: seq<CaptureEffect>)
    ensures |r| <= 1 && forall i :: 0 <= i < |r| ==> IsRelease(r[i]) && ReleaseRank(r[i]) == 4
  {
    Opt(projection, ProjectionStopped(projection.GetOr(Handle(0))))
  }

  /** What `stopScreenCapture` does to the platform. */
  function StopEffects(display: Option<Handle>, encoder: Option<Handle>, surface: Option<Handle>,
                       projection: Option<Handle>, encoderStopThrows: bool): (r: seq<CaptureEffect>)
    ensures |r| <= 5
    ensures display.None? && encoder.None? && surface.None? && projection.None? ==> r == []
  {
    DisplayPart(display) + EncoderStopPart(encoder) + EncoderReleasePart(encoder, encoderStopThrows)
    + SurfacePart(surface) + ProjectionPart(projection)
  }

  /** A stop releases exactly the handles that are held: each kind of release
      names the held handle, and happens only if that handle is non-null. */
  lemma StopReleasesExactlyHeld(display: Option<Handle>, encoder: Option<Handle>, surface: Option<Handle>,
                                projection: Option<Handle>, encoderStopThrows: bool)
    ensures var r := StopEffects(display, encoder, surface, projection, encoderStopThrows);
      && (forall h :: DisplayReleased(h) in r <==> display == Some(h))
      && (forall h :: EncoderStopped(h) in r <==> encoder == Some(h))
      && (forall h :: EncoderReleased(h) in r <==> encoder == Some(h) && !encoderStopThrows)
      && (forall h :: SurfaceReleased(h) in r <==> surface == Some(h))
      && (forall h :: ProjectionStopped(h) in r <==> projection == Some(h))
  {
    var a, b, c, d, e := DisplayPart(display), EncoderStopPart(encoder), EncoderReleasePart(encoder, encoderStopThrows),
                         SurfacePart(surface), ProjectionPart(projection);
    forall h ensures DisplayReleased(h) in a + b + c + d + e <==> display == Some(h) {
      InParts(DisplayReleased(h), a, b, c, d, e);
    }
    forall h ensures EncoderStopped(h) in a + b + c + d + e <==> encoder == Some(h) {
      InParts(EncoderStopped(h), a, b, c, d, e);
    }
    forall h ensures EncoderReleased(h) in a + b + c + d + e <==> encoder == Some(h) && !encoderStopThrows {
      InParts(EncoderReleased(h), a, b, c, d, e);
    }
    forall h ensures SurfaceReleased(h) in a + b + c + d + e <==> surface == Some(h) {
      InParts(SurfaceReleased(h), a, b, c, d, e);
    }
    forall h ensures ProjectionStopped(h) in a + b + c + d + e <==> projection == Some(h) {
      InParts(ProjectionStopped(h), a, b, c, d, e);
    }
  }

  lemma InParts(x: CaptureEffect, a: seq<CaptureEffect>, b: seq<CaptureEffect>, c: seq<CaptureEffect>,
                d: seq<CaptureEffect>, e: seq<CaptureEffect>)
    ensures x in a + b + c + d + e <==> x in a || x in b || x in c || x in d || x in e
  {
  }

  /** Ranks strictly increase along a sequence. */
  ghost predicate RanksIncrease(r: seq<CaptureEffect>) {
    forall i, j :: 0 <= i < j < |r| ==> ReleaseRank(r[i]) < ReleaseRank(r[j])
  }

  /** `x` holds releases ranked below `k` in increasing order. */
  ghost predicate ReleasesBelow(x: seq<CaptureEffect>, k: int) {
    RanksIncrease(x) && forall i :: 0 <= i < |x| ==> IsRelease(x[i]) && ReleaseRank(x[i]) < k
  }

  lemma AppendPart(x: seq<CaptureEffect>, y: seq<CaptureEffect>, k: int)
    requires ReleasesBelow(x, k)
    requires |y| <= 1 && forall i :: 0 <= i < |y| ==> IsRelease(y[i]) && ReleaseRank(y[i]) == k
    ensures ReleasesBelow(x + y, k + 1)
  {
    var xy := x + y;
    forall i | 0 <= i < |xy| ensures IsRelease(xy[i]) && ReleaseRank(xy[i]) < k + 1 {
      if i < |x| { assert xy[i] == x[i]; } else { assert xy[i] == y[i - |x|]; }
    }
    forall i, j | 0 <= i < j < |xy| ensures ReleaseRank(xy[i]) < ReleaseRank(xy[j]) {
      if j < |x| { assert xy[i] == x[i] && xy[j] == x[j]; }
      else { assert xy[i] == x[i] && xy[j] == y[0]; }
    }
  }

  /** Stopping issues only releases, each kind at most once and in a fixed
      order, so no handle is released twice by one stop. */
  lemma StopReleasesInOrder(display: Option<Handle>, encoder: Option<Handle>, surface: Option<Handle>,
                            projection: Option<Handle>, encoderStopThrows: bool)
    ensures var r := StopEffects(display, encoder, surface, projection, encoderStopThrows);
      && (forall i :: 0 <= i < |r| ==> IsRelease(r[i]))
      && RanksIncrease(r)
  {
    FiveParts(DisplayPart(display), EncoderStopPart(encoder), EncoderReleasePart(encoder, encoderStopThrows),
              SurfacePart(surface), ProjectionPart(projection));
  }

  /** Parts of at most one release each, ranked 0 to 4, concatenate in rank order. */
  lemma FiveParts(a: seq<CaptureEffect>, b: seq<CaptureEffect>, c: seq<CaptureEffect>, d: seq<CaptureEffect>, e: seq<CaptureEffect>)
    requires |a| <= 1 && forall i :: 0 <= i < |a| ==> IsRelease(a[i]) && ReleaseRank(a[i]) == 0
    requires |b| <= 1 && forall i :: 0 <= i < |b| ==> IsRelease(b[i]) && ReleaseRank(b[i]) == 1
    requires |c| <= 1 && forall i :: 0 <= i < |c| ==> IsRelease(c[i]) && ReleaseRank(c[i]) == 2
    requires |d| <= 1 && forall i :: 0 <= i < |d| ==> IsRelease(d[i]) && ReleaseRank(d[i]) == 3
    requires |e| <= 1 && forall i :: 0 <= i < |e| ==> IsRelease(e[i]) && ReleaseRank(e[i]) == 4
    ensures ReleasesBelow(a + b + c + d + e, 5)
  {
    AppendPart([], a, 0);
    assert [] + a == a;
    AppendPart(a, b, 1);
    AppendPart(a + b, c, 2);
    AppendPart(a + b + c, d, 3);
    AppendPart(a + b + c + d, e, 4);
  }

  /** A stop neither hands a frame to the sink nor releases one. */
  lemma StopDeliversNothing(display: Option<Handle>, encoder: Option<Handle>, surface: Option<Handle>,
                            projection: Option<Handle>, encoderStopThrows: bool)
    ensures var r := StopEffects(display, encoder, surface, projection, encoderStopThrows);
      FrameFree(r)
  {
    StopReleasesInOrder(display, encoder, surface, projection, encoderStopThrows);
  }

  /** What `startScreenCapture` does to the platform, with fresh handles
      numbered from `base`: obtain the projection (null when refused), start
      the encoder and its input surface, and create the virtual display, which
      needs both. A failure stops the sequence. Nothing is released. */
  function StartEffects(base: nat, projectionGranted: bool, encoderCreated: bool): (r: seq<CaptureEffect>)
    ensures forall i :: 0 <= i < |r| ==> !IsRelease(r[i])
    ensures FrameFree(r)
    ensures (VirtualDisplayCreated(Handle(base + 3)) in r) <==> projectionGranted && encoderCreated
  {
    (if projectionGranted then [ProjectionObtained(Handle(base))] else [])
    + (if encoderCreated then [EncoderStarted(Handle(base + 1), Handle(base + 2))] else [])
    + (if projectionGranted && encoderCreated then [VirtualDisplayCreated(Handle(base + 3))] else [])
  }

  predicate IsFrameRelease(e: CaptureEffect) {
    e.FrameReleased?
  }

  /** Effects that neither hand a frame over nor release one. */
  predicate FrameFree(more: seq<CaptureEffect>) {
    forall i :: 0 <= i < |more| ==> !IsDelivery(more[i]) && !IsFrameRelease(more[i])
  }

  /** How the body of `handleEncodedFrame(byte[])`'s try block ends: it runs
      through, it throws before the frame is handed over (allocation or
      `onFrameCaptured`), or it throws from `videoFrame.release()`, after the
      hand-off and before the counter advances. */
  datatype FrameOutcome = HandedOver | ThrowsBeforeHandOff | ThrowsOnRelease

  /** Number of frames released in a log. */
  function ReleasedCount(log: seq<CaptureEffect>): (n: nat)
    ensures n <= |log|
  {
    if log == [] then 0
    else ReleasedCount(log[..|log| - 1]) + (if IsFrameRelease(log[|log| - 1]) then 1 else 0)
  }

  /** The frame bookkeeping of a log: the counter equals the number of frames
      released, every delivered frame is stamped with the number of frames
      released before it times 1_000_000, and every frame release comes right
      after a hand-off. */
  ghost predicate FramesKept(log: seq<CaptureEffect>, frameTimestamp: int) {
    && frameTimestamp == ReleasedCount(log)
    && (forall i {:trigger IsDelivery(log[i])} :: 0 <= i < |log| && IsDelivery(log[i]) ==>
          log[i].timestampNs == ReleasedCount(log[..i]) * NS_PER_FRAME)
    && (forall i {:trigger IsFrameRelease(log[i])} :: 0 <= i < |log| && IsFrameRelease(log[i]) ==>
          0 < i && IsDelivery(log[i - 1]))
  }

  lemma ReleasedCountAppend(log: seq<CaptureEffect>, more: seq<CaptureEffect>)
    requires FrameFree(more)
    ensures ReleasedCount(log + more) == ReleasedCount(log)
    decreases |more|
  {
    if more != [] {
      var n := log + more;
      var init := more[..|more| - 1];
      assert n[..|n| - 1] == log + init;
      assert n[|n| - 1] == more[|more| - 1];
      assert FrameFree(init) by {
        forall i | 0 <= i < |init| ensures !IsDelivery(init[i]) && !IsFrameRelease(init[i]) {
          assert init[i] == more[i];
        }
      }
      ReleasedCountAppend(log, init);
    } else {
      assert log + more == log;
    }
  }

  /** Appending effects that neither deliver nor release a frame keeps the
      frame bookkeeping. */
  lemma AppendKeepsFrames(log: seq<CaptureEffect>, frameTimestamp: int, more: seq<CaptureEffect>)
    requires FramesKept(log, frameTimestamp)
    requires FrameFree(more)
    ensures FramesKept(log + more, frameTimestamp)
  {
    var n := log + more;
    ReleasedCountAppend(log, more);
    forall i | 0 <= i < |n| ensures IsDelivery(n[i]) ==> n[i].timestampNs == ReleasedCount(n[..i]) * NS_PER_FRAME {
      if i < |log| {
        assert n[i] == log[i] && n[..i] == log[..i];
      } else {
        assert n[i] == more[i - |log|];
      }
    }
    forall i | 0 <= i < |n| ensures IsFrameRelease(n[i]) ==> 0 < i && IsDelivery(n[i - 1]) {
      if i < |log| {
        assert n[i] == log[i];
        if 0 < i { assert n[i - 1] == log[i - 1]; }
      } else {
        assert n[i] == more[i - |log|];
      }
    }
  }

  /** Handing a frame over, stamped with the current counter, keeps the
      bookkeeping; the counter does not move. */
  lemma AppendDelivery(log: seq<CaptureEffect>, frameTimestamp: int, sink: Handle)
    requires FramesKept(log, frameTimestamp)
    ensures FramesKept(log + [FrameDelivered(sink, frameTimestamp * NS_PER_FRAME)], frameTimestamp)
  {
    var n := log + [FrameDelivered(sink, frameTimestamp * NS_PER_FRAME)];
    assert n[..|n| - 1] == log;
    forall i | 0 <= i < |n| && IsDelivery(n[i]) ensures n[i].timestampNs == ReleasedCount(n[..i]) * NS_PER_FRAME {
      if i < |log| {
        assert n[i] == log[i] && n[..i] == log[..i];
      }
    }
    forall i | 0 <= i < |n| && IsFrameRelease(n[i]) ensures 0 < i && IsDelivery(n[i - 1]) {
      assert i < |log| && n[i] == log[i] && n[i - 1] == log[i - 1];
    }
  }

  /** Releasing the frame just handed over advances the counter by one. */
  lemma AppendRelease(log: seq<CaptureEffect>, frameTimestamp: int)
    requires FramesKept(log, frameTimestamp)
    requires |log| > 0 && IsDelivery(log[|log| - 1])
    ensures FramesKept(log + [FrameReleased], frameTimestamp + 1)
  {
    var n := log + [FrameReleased];
    assert n[..|n| - 1] == log;
    forall i | 0 <= i < |n| && IsDelivery(n[i]) ensures n[i].timestampNs == ReleasedCount(n[..i]) * NS_PER_FRAME {
      assert i < |log| && n[i] == log[i] && n[..i] == log[..i];
    }
    forall i | 0 <= i < |n| && IsFrameRelease(n[i]) ensures 0 < i && IsDelivery(n[i - 1]) {
      if i < |log| {
        assert n[i] == log[i] && n[i - 1] == log[i - 1];
      } else {
        assert n[i - 1] == log[|log| - 1];
      }
    }
  }

  /** Released counts only grow along a log. */
  lemma {:induction false} ReleasedCountMonotone(log: seq<CaptureEffect>, i: int, j: int)
    requires 0 <= i <= j <= |log|
    ensures ReleasedCount(log[..i]) <= ReleasedCount(log[..j])
    decreases j - i
  {
    if i < j {
      ReleasedCountMonotone(log, i, j - 1);
      assert log[..j][..j - 1] == log[..j - 1];
    }
  }

  /** Delivered timestamps never decrease. */
  lemma StampsNonDecreasing(log: seq<CaptureEffect>, frameTimestamp: int, i: int, j: int)
    requires FramesKept(log, frameTimestamp)
    requires 0 <= i < j < |log| && IsDelivery(log[i]) && IsDelivery(log[j])
    ensures log[i].timestampNs <= log[j].timestampNs
  {
    ReleasedCountMonotone(log, i, j);
  }

  /** A frame that was released is stamped strictly below every later frame;
      so when no release throws, timestamps strictly increase. */
  lemma ReleasedStampsIncrease(log: seq<CaptureEffect>, frameTimestamp: int, i: int, j: int)
    requires FramesKept(log, frameTimestamp)
    requires 0 <= i < j < |log| && IsDelivery(log[i]) && IsDelivery(log[j])
    requires i + 1 < |log| && IsFrameRelease(log[i + 1])
    ensures log[i].timestampNs < log[j].timestampNs
  {
    assert i + 1 < j;
    ReleasedCountMonotone(log, i + 2, j);
    assert log[..i + 2][..i + 1] == log[..i + 1];
    assert log[..i + 1][..i] == log[..i];
  }

  class ScreenCaptureService {
    var mediaProjection: Option<Handle>
    var virtualDisplay: Option<Handle>
    var encoder: Option<Handle>
    var inputSurface: Option<Handle>
    /** Declared and initialised by the source and never written again. */
    const isCapturing: bool
    var videoSource: Option<Handle>
    var frameTimestamp: int
    /** Source of fresh platform handles. */
    var nextHandle: nat
    var log: seq<CaptureEffect>

    ghost predicate Valid()
      reads this
    {
      && !isCapturing
      && FramesKept(log, frameTimestamp)
    }

    constructor ()
      ensures Valid()
      ensures mediaProjection.None? && virtualDisplay.None? && encoder.None? && inputSurface.None?
      ensures videoSource.None? && frameTimestamp == 0 && log == [] && nextHandle == 0
    {
      mediaProjection, virtualDisplay, encoder, inputSurface := None, None, None, None;
      isCapturing := false;
      videoSource := None;
      frameTimestamp := 0;
      nextHandle := 0;
      log := [];
    }

    /** `startScreenCapture`: obtain the projection, start the encoder, create
        the virtual display. The handles already held are overwritten and
        never released. */
    method StartScreenCapture(projectionGranted: bool, encoderCreated: bool)
      requires Valid()
      modifies this
      ensures Valid()
      ensures mediaProjection == (if projectionGranted then Some(Handle(old(nextHandle))) else None)
      ensures encoder == (if encoderCreated then Some(Handle(old(nextHandle) + 1)) else old(encoder))
      ensures inputSurface == (if encoderCreated then Some(Handle(old(nextHandle) + 2)) else old(inputSurface))
      ensures virtualDisplay ==
        (if projectionGranted && encoderCreated then Some(Handle(old(nextHandle) + 3)) else old(virtualDisplay))
      ensures log == old(log) + StartEffects(old(nextHandle), projectionGranted, encoderCreated)
      ensures videoSource == old(videoSource) && frameTimestamp == old(frameTimestamp)
      ensures nextHandle == old(nextHandle) + 4
    {
      var base := nextHandle;
      mediaProjection := if projectionGranted then Some(Handle(base)) else None;
      if encoderCreated {
        encoder, inputSurface := Some(Handle(base + 1)), Some(Handle(base + 2));
        if projectionGranted {
          virtualDisplay := Some(Handle(base + 3));
        }
      }
      Extend(StartEffects(base, projectionGranted, encoderCreated));
      nextHandle := base + 4;
    }

    /** Appends platform calls that neither hand over nor release a frame. */
    method Extend(more: seq<CaptureEffect>)
      requires Valid() && FrameFree(more)
      modifies this
      ensures Valid() && log == old(log) + more
      ensures mediaProjection == old(mediaProjection) && virtualDisplay == old(virtualDisplay)
      ensures encoder == old(encoder) && inputSurface == old(inputSurface)
      ensures videoSource == old(videoSource) && frameTimestamp == old(frameTimestamp) && nextHandle == old(nextHandle)
    {
      AppendKeepsFrames(log, frameTimestamp, more);
      log := log + more;
    }

    /** `onStartCommand`: start capturing only through the gate. */
    method OnStartCommand(intent: Option<Intent>, projectionGranted: bool, encoderCreated: bool)
      requires Valid()
      modifies this
      ensures Valid()
      ensures !StartGate(intent) ==> unchanged(this)
      ensures StartGate(intent) ==>
        && mediaProjection == (if projectionGranted then Some(Handle(old(nextHandle))) else None)
        && encoder == (if encoderCreated then Some(Handle(old(nextHandle) + 1)) else old(encoder))
        && inputSurface == (if encoderCreated then Some(Handle(old(nextHandle) + 2)) else old(inputSurface))
        && virtualDisplay ==
             (if projectionGranted && encoderCreated then Some(Handle(old(nextHandle) + 3)) else old(virtualDisplay))
        && log == old(log) + StartEffects(old(nextHandle), projectionGranted, encoderCreated)
        && nextHandle == old(nextHandle) + 4
      ensures videoSource == old(videoSource) && frameTimestamp == old(frameTimestamp)
    {
      if StartGate(intent) {
        StartScreenCapture(projectionGranted, encoderCreated);
      }
    }

    /** `setVideoSource`: later frames go to this sink only. */
    method SetVideoSource(source: Option<Handle>)
      requires Valid()
      modifies this
      ensures Valid()
      ensures videoSource == source
      ensures mediaProjection == old(mediaProjection) && virtualDisplay == old(virtualDisplay)
      ensures encoder == old(encoder) && inputSurface == old(inputSurface)
      ensures frameTimestamp == old(frameTimestamp) && log == old(log) && nextHandle == old(nextHandle)
    {
      videoSource := source;
    }

    /** `handleEncodedFrame(byte[])`: hand one frame, stamped with the current
        counter in nanoseconds, to the current sink and release it; only then
        advance the counter. Nothing happens without a sink and an observer,
        or when building or handing over the frame throws. When the release
        throws, the frame has gone out but the counter stays, so the next
        frame carries the same stamp. */
    method HandleEncodedFrame(observerPresent: bool, outcome: FrameOutcome)
      requires Valid()
      modifies this
      ensures Valid()
      ensures var handed := old(videoSource).Some? && observerPresent && !outcome.ThrowsBeforeHandOff?;
        && (handed && outcome.HandedOver? ==>
              log == old(log) + [FrameDelivered(old(videoSource).value, old(frameTimestamp) * NS_PER_FRAME), FrameReleased]
              && frameTimestamp == old(frameTimestamp) + 1)
        && (handed && outcome.ThrowsOnRelease? ==>
              log == old(log) + [FrameDelivered(old(videoSource).value, old(frameTimestamp) * NS_PER_FRAME)]
              && frameTimestamp == old(frameTimestamp))
        && (!handed ==> log == old(log) && frameTimestamp == old(frameTimestamp))
      ensures videoSource == old(videoSource) && mediaProjection == old(mediaProjection)
      ensures virtualDisplay == old(virtualDisplay) && encoder == old(encoder) && inputSurface == old(inputSurface)
      ensures nextHandle == old(nextHandle)
    {
      if videoSource.Some? && observerPresent && !outcome.ThrowsBeforeHandOff? {
        Deliver(videoSource.value);
        if outcome.HandedOver? {
          ReleaseFrame();
        }
      }
    }

    /** `onFrameCaptured` of a frame stamped with the current counter. */
    method Deliver(sink: Handle)
      requires Valid()
      modifies this
      ensures Valid()
      ensures log == old(log) + [FrameDelivered(sink, old(frameTimestamp) * NS_PER_FRAME)]
      ensures frameTimestamp == old(frameTimestamp) && videoSource == old(videoSource)
      ensures mediaProjection == old(mediaProjection) && virtualDisplay == old(virtualDisplay)
      ensures encoder == old(encoder) && inputSurface == old(inputSurface) && nextHandle == old(nextHandle)
    {
      AppendDelivery(log, frameTimestamp, sink);
      log := log + [FrameDelivered(sink, frameTimestamp * NS_PER_FRAME)];
    }

    /** `videoFrame.release()` of the frame just handed over, then `frameTimestamp++`. */
    method ReleaseFrame()
      requires Valid() && |log| > 0 && IsDelivery(log[|log| - 1])
      modifies this
      ensures Valid()
      ensures log == old(log) + [FrameReleased] && frameTimestamp == old(frameTimestamp) + 1
      ensures videoSource == old(videoSource)
      ensures mediaProjection == old(mediaProjection) && virtualDisplay == old(virtualDisplay)
      ensures encoder == old(encoder) && inputSurface == old(inputSurface) && nextHandle == old(nextHandle)
    {
      AppendRelease(log, frameTimestamp);
      log := log + [FrameReleased];
      frameTimestamp := frameTimestamp + 1;
    }

    /** `handleEncodedFrame(codec, index, info)`: forward the buffer's frame
        only when the buffer is non-null and non-empty; release the output
        buffer in every case. */
    method HandleEncodedBuffer(index: int, bufferPresent: bool, size: int, observerPresent: bool, outcome: FrameOutcome)
      requires Valid()
      modifies this
      ensures Valid()
      ensures |log| >= 1 && log[|log| - 1] == OutputBufferReleased(index)
      ensures var handed := bufferPresent && size > 0 && old(videoSource).Some? && observerPresent && !outcome.ThrowsBeforeHandOff?;
        && (handed && outcome.HandedOver? ==>
              log == old(log) + [FrameDelivered(old(videoSource).value, old(frameTimestamp) * NS_PER_FRAME), FrameReleased, OutputBufferReleased(index)]
              && frameTimestamp == old(frameTimestamp) + 1)
        && (handed && outcome.ThrowsOnRelease? ==>
              log == old(log) + [FrameDelivered(old(videoSource).value, old(frameTimestamp) * NS_PER_FRAME), OutputBufferReleased(index)]
              && frameTimestamp == old(frameTimestamp))
        && (!handed ==> log == old(log) + [OutputBufferReleased(index)] && frameTimestamp == old(frameTimestamp))
      ensures videoSource == old(videoSource) && mediaProjection == old(mediaProjection)
      ensures virtualDisplay == old(virtualDisplay) && encoder == old(encoder) && inputSurface == old(inputSurface)
      ensures nextHandle == old(nextHandle)
    {
      if bufferPresent && size > 0 {
        HandleEncodedFrame(observerPresent, outcome);
      }
      AppendKeepsFrames(log, frameTimestamp, [OutputBufferReleased(index)]);
      log := log + [OutputBufferReleased(index)];
    }

    /** `stopScreenCapture`: release every non-null handle once and null all
        four; a second stop releases nothing. */
    method StopScreenCapture(encoderStopThrows: bool)
      requires Valid()
      modifies this
      ensures Valid()
      ensures mediaProjection.None? && virtualDisplay.None? && encoder.None? && inputSurface.None?
      ensures log == old(log) + StopEffects(old(virtualDisplay), old(encoder), old(inputSurface), old(mediaProjection), encoderStopThrows)
      ensures videoSource == old(videoSource) && frameTimestamp == old(frameTimestamp) && nextHandle == old(nextHandle)
    {
      var effects := StopEffects(virtualDisplay, encoder, inputSurface, mediaProjection, encoderStopThrows);
      StopDeliversNothing(virtualDisplay, encoder, inputSurface, mediaProjection, encoderStopThrows);
      AppendKeepsFrames(log, frameTimestamp, effects);
      log := log + effects;
      virtualDisplay, encoder, inputSurface, mediaProjection := None, None, None, None;
    }

    /** `onDestroy`. */
    method OnDestroy(encoderStopThrows: bool)
      requires Valid()
      modifies this
      ensures Valid()
      ensures mediaProjection.None? && virtualDisplay.None? && encoder.None? && inputSurface.None?
      ensures log == old(log) + StopEffects(old(virtualDisplay), old(encoder), old(inputSurface), old(mediaProjection), encoderStopThrows)
      ensures videoSource == old(videoSource) && frameTimestamp == old(frameTimestamp) && nextHandle == old(nextHandle)
    {
      StopScreenCapture(encoderStopThrows);
    }
  }

  /** Stopping twice: the second stop finds every handle null and releases nothing. */
  method StopTwice(s: ScreenCaptureService, firstThrows: bool, secondThrows: bool)
    requires s.Valid()
    modifies s
    ensures s.Valid()
    ensures s.log == old(s.log) + StopEffects(old(s.virtualDisplay), old(s.encoder), old(s.inputSurface), old(s.mediaProjection), firstThrows)
  {
    s.StopScreenCapture(firstThrows);
    s.StopScreenCapture(secondThrows);
  }

  /** When a frame's release throws, the next frame repeats its timestamp. */
  method ReleaseThrowRepeatsStamp(s: ScreenCaptureService)
    requires s.Valid() && s.videoSource.Some?
    modifies s
    ensures s.Valid()
    ensures var sink, stamp := old(s.videoSource).value, old(s.frameTimestamp) * NS_PER_FRAME;
      s.log == old(s.log) + [FrameDelivered(sink, stamp), FrameDelivered(sink, stamp), FrameReleased]
    ensures s.frameTimestamp == old(s.frameTimestamp) + 1
  {
    s.HandleEncodedFrame(true, ThrowsOnRelease);
    s.HandleEncodedFrame(true, HandedOver);
  }
}
