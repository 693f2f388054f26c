/** Per-connection negotiation bookkeeping of WebRTCManager.java, with the
    WebRTC library abstracted to opaque handles. Every library call the
    manager makes is recorded in an effect log; what the library answers (a
    peer connection or null, an SDP created or a failure, a description set
    or refused) is a parameter. Callbacks run synchronously, right after the
    call that registers them. */
module WebRtc {

  import opened Base
  import opened Json
  import opened Signaling
  import opened Sdp
  import ScreenCapture

  /** A `MediaConstraints` mandatory key/value pair. */
  datatype Constraint = Constraint(key: string, value: string)

  const OFFER_TO_RECEIVE_AUDIO: string := "OfferToReceiveAudio"
  const OFFER_TO_RECEIVE_VIDEO: string := "OfferToReceiveVideo"

  /** `createOfferWithVideo`: receive neither audio nor video. */
  const OFFER_CONSTRAINTS: seq<Constraint> :=
    [Constraint(OFFER_TO_RECEIVE_AUDIO, "false"), Constraint(OFFER_TO_RECEIVE_VIDEO, "false")]

  /** `createAnswer`: receive video but not audio. */
  const ANSWER_CONSTRAINTS: seq<Constraint> :=
    [Constraint(OFFER_TO_RECEIVE_AUDIO, "false"), Constraint(OFFER_TO_RECEIVE_VIDEO, "true")]

  /** The value of the first constraint with this key. */
  function Mandatory(cs: seq<Constraint>, key: string): (r: Option<string>)
    ensures r.Some? <==> exists i :: 0 <= i < |cs| && cs[i].key == key
    ensures r.Some? ==> Constraint(key, r.value) in cs
  {
    if cs == [] then None
    else if cs[0].key == key then Some(cs[0].value)
    else Mandatory(cs[1..], key)
  }

  /** The offer asks to receive nothing; the answer asks to receive video only. */
  lemma ConstraintValues()
    ensures Mandatory(OFFER_CONSTRAINTS, OFFER_TO_RECEIVE_AUDIO) == Some("false")
    ensures Mandatory(OFFER_CONSTRAINTS, OFFER_TO_RECEIVE_VIDEO) == Some("false")
    ensures Mandatory(ANSWER_CONSTRAINTS, OFFER_TO_RECEIVE_AUDIO) == Some("false")
    ensures Mandatory(ANSWER_CONSTRAINTS, OFFER_TO_RECEIVE_VIDEO) == Some("true")
    ensures |OFFER_CONSTRAINTS| == |ANSWER_CONSTRAINTS| == 2
  {
  }

  datatype SdpKind = OfferSdp | AnswerSdp

  const CONTROL_LABEL: string := "control"
  const VIDEO_TRACK_ID: string := "video_track"
  const STREAM_IDS: seq<string> := ["local_stream"]

  /** The library calls the manager makes, at the moment they take effect. */
  datatype RtcEffect =
    | FactoryCreated(factory: Handle)
    | PeerConnectionCreated(pc: Handle)
    | DataChannelCreated(pc: Handle, channelLabel: string, ordered: bool, channel: Handle)
    | VideoSourceCreated(source: Handle, isScreencast: bool)
    | VideoTrackCreated(track: Handle, trackId: string, source: Handle)
    | TrackAdded(pc: Handle, track: Handle, streamIds: seq<string>)
    | OfferRequested(pc: Handle, constraints: seq<Constraint>)
    | AnswerRequested(pc: Handle, constraints: seq<Constraint>)
    | LocalDescriptionSet(pc: Handle, kind: SdpKind, sdp: string)
    | RemoteDescriptionSet(pc: Handle, kind: SdpKind, sdp: string)
    | IceCandidateAdded(pc: Handle, candidate: IceCandidate)
    | Sent(conn: Conn, message: OutMessage)
    | TrackDisposed(track: Handle)
    | SourceDisposed(source: Handle)
    | PeerConnectionClosed(pc: Handle)
    | FactoryDisposed(factory: Handle)

  /** A sent offer or answer. */
  predicate IsDescriptionSend(e: RtcEffect) {
    e.Sent? && (e.message.Offer? || e.message.Answer?)
  }

  function KindOf(m: OutMessage): SdpKind
    requires m.Offer? || m.Answer?
  {
    if m.Offer? then OfferSdp else AnswerSdp
  }

  /** Every sent offer or answer comes right after the local description of
      the same kind and the same SDP was set. */
  ghost predicate SendsFollowLocalDescription(log: seq<RtcEffect>) {
    forall i {:trigger IsDescriptionSend(log[i])} :: 0 <= i < |log| && IsDescriptionSend(log[i]) ==>
      i > 0 && log[i - 1].LocalDescriptionSet? &&
      log[i - 1].kind == KindOf(log[i].message) && log[i - 1].sdp == log[i].message.sdp
  }

  /** No sent offer offers to receive: none carries `a=sendrecv`. */
  ghost predicate OffersSendOnly(log: seq<RtcEffect>) {
    forall i :: 0 <= i < |log| && log[i].Sent? && log[i].message.Offer? ==> !Contains(log[i].message.sdp, SENDRECV)
  }

  lemma SendsFollowAppend(a: seq<RtcEffect>, b: seq<RtcEffect>)
    requires SendsFollowLocalDescription(a) && SendsFollowLocalDescription(b)
    ensures SendsFollowLocalDescription(a + b)
  {
    var ab := a + b;
    forall i | 0 <= i < |ab| && IsDescriptionSend(ab[i])
      ensures i > 0 && ab[i - 1].LocalDescriptionSet? &&
              ab[i - 1].kind == KindOf(ab[i].message) && ab[i - 1].sdp == ab[i].message.sdp
    {
      if i < |a| {
        assert ab[i] == a[i] && ab[i - 1] == a[i - 1];
      } else {
        assert ab[i] == b[i - |a|] && ab[i - 1] == b[i - |a| - 1];
      }
    }
  }

  lemma OffersSendOnlyAppend(a: seq<RtcEffect>, b: seq<RtcEffect>)
    requires OffersSendOnly(a) && OffersSendOnly(b)
    ensures OffersSendOnly(a + b)
  {
    var ab := a + b;
    forall i | 0 <= i < |ab| && ab[i].Sent? && ab[i].message.Offer? ensures !Contains(ab[i].message.sdp, SENDRECV) {
      if i < |a| { assert ab[i] == a[i]; } else { assert ab[i] == b[i - |a|]; }
    }
  }

  /** Number of video sources and of video tracks created. */
  function Sources(log: seq<RtcEffect>): nat {
    if log == [] then 0 else Sources(log[..|log| - 1]) + (if log[|log| - 1].VideoSourceCreated? then 1 else 0)
  }

  function Tracks(log: seq<RtcEffect>): nat {
    if log == [] then 0 else Tracks(log[..|log| - 1]) + (if log[|log| - 1].VideoTrackCreated? then 1 else 0)
  }

  lemma {:induction false} CreationsAppend(a: seq<RtcEffect>, b: seq<RtcEffect>)
    ensures Sources(a + b) == Sources(a) + Sources(b)
    ensures Tracks(a + b) == Tracks(a) + Tracks(b)
    decreases |b|
  {
    if b == [] {
      assert a + b == a;
    } else {
      var ab := a + b;
      var init := b[..|b| - 1];
      assert ab[..|ab| - 1] == a + init;
      assert ab[|ab| - 1] == b[|b| - 1];
      CreationsAppend(a, init);
    }
  }

  /** A log without creation effects creates no source and no track. */
  lemma {:induction false} NoCreations(r: seq<RtcEffect>)
    requires forall i :: 0 <= i < |r| ==> !r[i].VideoSourceCreated? && !r[i].VideoTrackCreated?
    ensures Sources(r) == 0 && Tracks(r) == 0
    decreases |r|
  {
    if r != [] {
      var init := r[..|r| - 1];
      assert forall i :: 0 <= i < |init| ==> init[i] == r[i];
      NoCreations(init);
    }
  }

  lemma SingleCreation(e: RtcEffect)
    ensures Sources([e]) == (if e.VideoSourceCreated? then 1 else 0)
    ensures Tracks([e]) == (if e.VideoTrackCreated? then 1 else 0)
  {
    assert [e][..0] == [];
  }

  /** What `createVideoTrack` adds to the log when it runs: the screencast
      source and its track, then, when the peer connection exists and
      `addTrack` does not throw, the track's addition under the
      `local_stream` id. */
  function SourceAndTrack(base: nat): seq<RtcEffect> {
    [VideoSourceCreated(Handle(base), true), VideoTrackCreated(Handle(base + 1), VIDEO_TRACK_ID, Handle(base))]
  }

  function TrackAddition(base: nat, pc: Option<Handle>, addTrackThrows: bool): seq<RtcEffect> {
    if pc.Some? && !addTrackThrows then [TrackAdded(pc.value, Handle(base + 1), STREAM_IDS)] else []
  }

  /** Creating the screen's source and its track on a log that holds none
      makes exactly one of each and keeps the description invariants. */
  lemma MediaCreated(log: seq<RtcEffect>, source: Handle, track: Handle)
    requires LogKept(log, true)
    ensures LogKept(log + [VideoSourceCreated(source, true), VideoTrackCreated(track, VIDEO_TRACK_ID, source)], false)
  {
    var first, second := [VideoSourceCreated(source, true)], [VideoTrackCreated(track, VIDEO_TRACK_ID, source)];
    var created := first + second;
    assert created == [VideoSourceCreated(source, true), VideoTrackCreated(track, VIDEO_TRACK_ID, source)];
    SingleCreation(first[0]);
    SingleCreation(second[0]);
    CreationsAppend(first, second);
    assert SendsFollowLocalDescription(created) && OffersSendOnly(created);
    SendsFollowAppend(log, created);
    OffersSendOnlyAppend(log, created);
    CreationsAppend(log, created);
  }

  /** The manager's log invariants: at most one source and one track, none
      while the manager holds neither, and every sent description follows
      its local setting, offers send-only. */
  ghost predicate LogKept(log: seq<RtcEffect>, noMedia: bool) {
    && Sources(log) <= 1 && Tracks(log) <= 1
    && (noMedia ==> Sources(log) == 0 && Tracks(log) == 0)
    && SendsFollowLocalDescription(log)
    && OffersSendOnly(log)
  }

  /** Appending effects that keep the description invariants and create
      nothing keeps the log invariants. */
  lemma AppendKeepsLog(log: seq<RtcEffect>, more: seq<RtcEffect>, noMedia: bool)
    requires LogKept(log, noMedia)
    requires SendsFollowLocalDescription(more) && OffersSendOnly(more) && Sources(more) == 0 && Tracks(more) == 0
    ensures LogKept(log + more, noMedia)
  {
    SendsFollowAppend(log, more);
    OffersSendOnlyAppend(log, more);
    CreationsAppend(log, more);
  }

  /** The log holds no sent message and creates no source or track. */
  ghost predicate Quiet(more: seq<RtcEffect>) {
    forall i :: 0 <= i < |more| ==> !more[i].Sent? && !more[i].VideoSourceCreated? && !more[i].VideoTrackCreated?
  }

  /** Effects that send nothing and create no source or track leave all the
      log invariants as they were. */
  lemma {:induction false} QuietAppend(a: seq<RtcEffect>, more: seq<RtcEffect>)
    requires Quiet(more)
    ensures Sources(a + more) == Sources(a) && Tracks(a + more) == Tracks(a)
    ensures SendsFollowLocalDescription(a) ==> SendsFollowLocalDescription(a + more)
    ensures OffersSendOnly(a) ==> OffersSendOnly(a + more)
    decreases |more|
  {
    if more == [] {
      assert a + more == a;
    } else {
      var init := more[..|more| - 1];
      assert Quiet(init) by {
        forall i | 0 <= i < |init| ensures !init[i].Sent? && !init[i].VideoSourceCreated? && !init[i].VideoTrackCreated? {
          assert init[i] == more[i];
        }
      }
      QuietAppend(a, init);
      CreationsAppend(a, more);
      CreationsAppend(a, init);
      assert SendsFollowLocalDescription(more) && OffersSendOnly(more);
      if SendsFollowLocalDescription(a) { SendsFollowAppend(a, more); }
      if OffersSendOnly(a) { OffersSendOnlyAppend(a, more); }
    }
  }

  /** What `createOfferWithVideo` does once a peer connection exists: ask
      for an offer with the offer constraints; when one is created, rewrite
      its direction attributes, set it as the local description and, once
      that succeeds, send it. */
  function OfferEffects(pc: Handle, ws: Conn, created: Option<string>, setOk: bool): (r: seq<RtcEffect>)
    ensures |r| >= 1 && r[0] == OfferRequested(pc, OFFER_CONSTRAINTS)
    ensures (exists i :: 0 <= i < |r| && r[i].Sent?) <==> created.Some? && setOk
    ensures created.Some? && setOk ==> r[|r| - 1] == Sent(ws, Offer(RewriteDirection(created.value)))
    ensures SendsFollowLocalDescription(r) && OffersSendOnly(r)
    ensures Sources(r) == 0 && Tracks(r) == 0
  {
    if created.Some? && setOk then
      var sdp := RewriteDirection(created.value);
      var r := [OfferRequested(pc, OFFER_CONSTRAINTS), LocalDescriptionSet(pc, OfferSdp, sdp), Sent(ws, Offer(sdp))];
      RewriteRemovesSendRecv(created.value);
      assert r[2].Sent?;
      NoCreations(r);
      r
    else
      [OfferRequested(pc, OFFER_CONSTRAINTS)]
  }

  /** What the offer handler does once the remote offer is set: ask for an
      answer with the answer constraints; set it locally and, once that
      succeeds, send it unchanged. */
  function AnswerEffects(pc: Handle, ws: Conn, offer: string, remoteSetOk: bool, created: Option<string>, setOk: bool): (r: seq<RtcEffect>)
    ensures !remoteSetOk ==> r == []
    ensures remoteSetOk ==> |r| >= 2 && r[0] == RemoteDescriptionSet(pc, OfferSdp, offer) && r[1] == AnswerRequested(pc, ANSWER_CONSTRAINTS)
    ensures (exists i :: 0 <= i < |r| && r[i].Sent?) <==> remoteSetOk && created.Some? && setOk
    ensures remoteSetOk && created.Some? && setOk ==> r[|r| - 1] == Sent(ws, Answer(created.value))
    ensures SendsFollowLocalDescription(r) && OffersSendOnly(r)
    ensures Sources(r) == 0 && Tracks(r) == 0
  {
    if !remoteSetOk then []
    else
      var asked := [RemoteDescriptionSet(pc, OfferSdp, offer), AnswerRequested(pc, ANSWER_CONSTRAINTS)];
      assert asked[..1] == [asked[0]];
      if created.Some? && setOk then
        var r := asked + [LocalDescriptionSet(pc, AnswerSdp, created.value), Sent(ws, Answer(created.value))];
        assert r[..3] == asked + [r[2]];
        assert r[..3][..2] == asked;
        assert r[3].Sent?;
        NoCreations(r);
        r
      else
        NoCreations(asked);
        asked
  }

  /** The disposals `cleanup` performs: the track, the source, the peer
      connection (closed) and the factory, each only if non-null. */
  function CleanupEffects(track: Option<Handle>, source: Option<Handle>, pc: Option<Handle>, factory: Option<Handle>): (r: seq<RtcEffect>)
    ensures |r| <= 4
    ensures track.None? && source.None? && pc.None? && factory.None? ==> r == []
  {
    OptEffect(track, TrackDisposed(track.GetOr(Handle(0))))
    + OptEffect(source, SourceDisposed(source.GetOr(Handle(0))))
    + OptEffect(pc, PeerConnectionClosed(pc.GetOr(Handle(0))))
    + OptEffect(factory, FactoryDisposed(factory.GetOr(Handle(0))))
  }

  function OptEffect(h: Option<Handle>, e: RtcEffect): (r: seq<RtcEffect>)
    ensures forall x :: x in r <==> h.Some? && x == e
    ensures |r| <= 1 && forall i :: 0 <= i < |r| ==> r[i] == e
  {
    if h.Some? then [e] else []
  }

  /** `cleanup` touches exactly the non-null handles, each once, and sends nothing. */
  lemma CleanupTouchesExactlyHeld(track: Option<Handle>, source: Option<Handle>, pc: Option<Handle>, factory: Option<Handle>)
    ensures var r := CleanupEffects(track, source, pc, factory);
      && (forall h :: TrackDisposed(h) in r <==> track == Some(h))
      && (forall h :: SourceDisposed(h) in r <==> source == Some(h))
      && (forall h :: PeerConnectionClosed(h) in r <==> pc == Some(h))
      && (forall h :: FactoryDisposed(h) in r <==> factory == Some(h))
  {
    var a := OptEffect(track, TrackDisposed(track.GetOr(Handle(0))));
    var b := OptEffect(source, SourceDisposed(source.GetOr(Handle(0))));
    var c := OptEffect(pc, PeerConnectionClosed(pc.GetOr(Handle(0))));
    var d := OptEffect(factory, FactoryDisposed(factory.GetOr(Handle(0))));
    var r := CleanupEffects(track, source, pc, factory);
    assert r == a + b + c + d;
    forall h ensures TrackDisposed(h) in r <==> track == Some(h) {
      assert TrackDisposed(h) !in b && TrackDisposed(h) !in c && TrackDisposed(h) !in d;
    }
    forall h ensures SourceDisposed(h) in r <==> source == Some(h) {
      assert SourceDisposed(h) !in a && SourceDisposed(h) !in c && SourceDisposed(h) !in d;
    }
    forall h ensures PeerConnectionClosed(h) in r <==> pc == Some(h) {
      assert PeerConnectionClosed(h) !in a && PeerConnectionClosed(h) !in b && PeerConnectionClosed(h) !in d;
    }
    forall h ensures FactoryDisposed(h) in r <==> factory == Some(h) {
      assert FactoryDisposed(h) !in a && FactoryDisposed(h) !in b && FactoryDisposed(h) !in c;
    }
  }

  lemma QuietConcat(a: seq<RtcEffect>, b: seq<RtcEffect>)
    requires Quiet(a) && Quiet(b)
    ensures Quiet(a + b)
  {
    var ab := a + b;
    forall i | 0 <= i < |ab| ensures !ab[i].Sent? && !ab[i].VideoSourceCreated? && !ab[i].VideoTrackCreated? {
      if i < |a| { assert ab[i] == a[i]; } else { assert ab[i] == b[i - |a|]; }
    }
  }

  /** `cleanup` sends nothing and creates nothing. */
  lemma CleanupIsQuiet(track: Option<Handle>, source: Option<Handle>, pc: Option<Handle>, factory: Option<Handle>)
    ensures Quiet(CleanupEffects(track, source, pc, factory))
  {
    var a := OptEffect(track, TrackDisposed(track.GetOr(Handle(0))));
    var b := OptEffect(source, SourceDisposed(source.GetOr(Handle(0))));
    var c := OptEffect(pc, PeerConnectionClosed(pc.GetOr(Handle(0))));
    var d := OptEffect(factory, FactoryDisposed(factory.GetOr(Handle(0))));
    assert Quiet(a) && Quiet(b) && Quiet(c) && Quiet(d);
    QuietConcat(a, b);
    QuietConcat(a + b, c);
    QuietConcat(a + b + c, d);
  }

  class WebRtcManager {
    const capture: ScreenCapture.ScreenCaptureService
    var factory: Option<Handle>
    var peerConnection: Option<Handle>
    var videoSource: Option<Handle>
    var videoTrack: Option<Handle>
    var dataChannel: Option<Handle>
    var webSocket: Option<Conn>
    /** Source of fresh library handles. */
    var nextHandle: nat
    var log: seq<RtcEffect>

    ghost predicate Valid()
      reads this
    {
      && factory.Some?
      && (peerConnection.Some? ==> webSocket.Some?)
      && LogKept(log, videoSource.None? && videoTrack.None?)
    }

    /** The constructor initialises the peer connection factory. */
    constructor (capture: ScreenCapture.ScreenCaptureService)
      ensures Valid()
      ensures this.capture == capture
      ensures factory == Some(Handle(0)) && log == [FactoryCreated(Handle(0))] && nextHandle == 1
      ensures peerConnection.None? && videoSource.None? && videoTrack.None? && dataChannel.None? && webSocket.None?
    {
      this.capture := capture;
      factory := Some(Handle(0));
      peerConnection, videoSource, videoTrack, dataChannel, webSocket := None, None, None, None, None;
      nextHandle := 1;
      log := [FactoryCreated(Handle(0))];
      new;
      assert log[..0] == [];
    }

    /** Appends effects that send nothing and create no source or track. */
    method Record(more: seq<RtcEffect>)
      requires Valid() && Quiet(more)
      modifies this
      ensures Valid()
      ensures log == old(log) + more
      ensures factory == old(factory) && peerConnection == old(peerConnection) && videoSource == old(videoSource)
      ensures videoTrack == old(videoTrack) && dataChannel == old(dataChannel) && webSocket == old(webSocket)
      ensures nextHandle == old(nextHandle)
    {
      QuietAppend(log, more);
      assert LogKept(log + more, videoSource.None? && videoTrack.None?);
      log := log + more;
    }

    /** `createVideoTrack`: create the screencast source and its track once,
        add the track to the peer connection and hand the source to the
        capture service. A second call is skipped. When adding the track
        throws (including on a null peer connection) the exception is caught:
        the source and track stay created but the capture service is not
        told. */
    method CreateVideoTrack(addTrackThrows: bool)
      requires Valid() && capture.Valid()
      modifies this, capture
      ensures Valid() && capture.Valid()
      ensures old(videoSource).Some? || old(videoTrack).Some? ==>
        && log == old(log) && nextHandle == old(nextHandle)
        && videoSource == old(videoSource) && videoTrack == old(videoTrack)
        && capture.videoSource == old(capture.videoSource)
      ensures old(videoSource).None? && old(videoTrack).None? ==>
        && log == old(log) + SourceAndTrack(old(nextHandle)) + TrackAddition(old(nextHandle), old(peerConnection), addTrackThrows)
        && videoSource == Some(Handle(old(nextHandle))) && videoTrack == Some(Handle(old(nextHandle) + 1))
        && nextHandle == old(nextHandle) + 2
        && capture.videoSource ==
             (if !addTrackThrows && old(peerConnection).Some? then videoSource else old(capture.videoSource))
      ensures capture.mediaProjection == old(capture.mediaProjection) && capture.virtualDisplay == old(capture.virtualDisplay)
      ensures capture.encoder == old(capture.encoder) && capture.inputSurface == old(capture.inputSurface)
      ensures factory == old(factory) && peerConnection == old(peerConnection) && dataChannel == old(dataChannel)
      ensures webSocket == old(webSocket)
      ensures capture.log == old(capture.log) && capture.frameTimestamp == old(capture.frameTimestamp)
      ensures capture.nextHandle == old(capture.nextHandle)
    {
      if videoSource.Some? || videoTrack.Some? {
        return;
      }
      var source, track := Handle(nextHandle), Handle(nextHandle + 1);
      MediaCreated(log, source, track);
      log := log + [VideoSourceCreated(source, true), VideoTrackCreated(track, VIDEO_TRACK_ID, source)];
      nextHandle, videoSource, videoTrack := nextHandle + 2, Some(source), Some(track);
      if addTrackThrows || peerConnection.None? {
        assert log == log + [];
        return;
      }
      Record([TrackAdded(peerConnection.value, track, STREAM_IDS)]);
      capture.SetVideoSource(videoSource);
    }

    /** `createPeerConnection`: remember the socket, create the peer
        connection, its single ordered `control` data channel and then the
        video track. When the library answers null, the data channel call
        throws out of the method (`threw`). */
    method CreatePeerConnection(ws: Conn, created: bool, addTrackThrows: bool) returns (threw: bool)
      requires Valid() && capture.Valid()
      modifies this, capture
      ensures Valid() && capture.Valid()
      ensures webSocket == Some(ws) && factory == old(factory)
      ensures threw <==> !created
      ensures !created ==>
        && peerConnection.None? && dataChannel == old(dataChannel) && log == old(log)
        && videoSource == old(videoSource) && videoTrack == old(videoTrack)
        && capture.videoSource == old(capture.videoSource)
      ensures created ==>
        var pc, dc := Handle(old(nextHandle)), Handle(old(nextHandle) + 1);
        var noMedia := old(videoSource).None? && old(videoTrack).None?;
        && peerConnection == Some(pc) && dataChannel == Some(dc)
        && (!noMedia ==> log == old(log) + [PeerConnectionCreated(pc), DataChannelCreated(pc, CONTROL_LABEL, true, dc)])
        && (noMedia ==>
              log == old(log) + [PeerConnectionCreated(pc), DataChannelCreated(pc, CONTROL_LABEL, true, dc)]
                     + SourceAndTrack(old(nextHandle) + 2) + TrackAddition(old(nextHandle) + 2, Some(pc), addTrackThrows))
        && videoSource == (if noMedia then Some(Handle(old(nextHandle) + 2)) else old(videoSource))
        && videoTrack == (if noMedia then Some(Handle(old(nextHandle) + 3)) else old(videoTrack))
        && capture.videoSource == (if noMedia && !addTrackThrows then videoSource else old(capture.videoSource))
      ensures nextHandle == old(nextHandle) + (if !created then 0 else if old(videoSource).None? && old(videoTrack).None? then 4 else 2)
      ensures capture.mediaProjection == old(capture.mediaProjection) && capture.virtualDisplay == old(capture.virtualDisplay)
      ensures capture.encoder == old(capture.encoder) && capture.inputSurface == old(capture.inputSurface)
      ensures capture.log == old(capture.log) && capture.frameTimestamp == old(capture.frameTimestamp)
      ensures capture.nextHandle == old(capture.nextHandle)
    {
      if !created {
        webSocket, peerConnection := Some(ws), None;
        return true;
      }
      Connect(ws);
      CreateVideoTrack(addTrackThrows);
      return false;
    }

    /** The part of `createPeerConnection` before the video track: the peer
        connection and its `control` data channel. */
    method Connect(ws: Conn)
      requires Valid()
      modifies this
      ensures Valid()
      ensures webSocket == Some(ws) && peerConnection == Some(Handle(old(nextHandle)))
      ensures dataChannel == Some(Handle(old(nextHandle) + 1)) && nextHandle == old(nextHandle) + 2
      ensures log == old(log) + [PeerConnectionCreated(Handle(old(nextHandle))),
                                 DataChannelCreated(Handle(old(nextHandle)), CONTROL_LABEL, true, Handle(old(nextHandle) + 1))]
      ensures factory == old(factory) && videoSource == old(videoSource) && videoTrack == old(videoTrack)
    {
      var pc, dc := Handle(nextHandle), Handle(nextHandle + 1);
      var connected := [PeerConnectionCreated(pc), DataChannelCreated(pc, CONTROL_LABEL, true, dc)];
      QuietAppend(log, connected);
      webSocket, peerConnection, dataChannel, nextHandle, log := Some(ws), Some(pc), Some(dc), nextHandle + 2, log + connected;
    }

    /** `createOfferWithVideo`. On a null peer connection `createOffer`
        throws out of the method (`threw`) and nothing happens. */
    method CreateOfferWithVideo(created: Option<string>, setOk: bool) returns (threw: bool)
      requires Valid()
      modifies this
      ensures Valid()
      ensures threw <==> old(peerConnection).None?
      ensures threw ==> unchanged(this)
      ensures !threw ==> log == old(log) + OfferEffects(old(peerConnection).value, old(webSocket).value, created, setOk)
      ensures factory == old(factory) && peerConnection == old(peerConnection) && videoSource == old(videoSource)
      ensures videoTrack == old(videoTrack) && dataChannel == old(dataChannel) && webSocket == old(webSocket)
    {
      if peerConnection.None? {
        return true;
      }
      var effects := OfferEffects(peerConnection.value, webSocket.value, created, setOk);
      AppendKeepsLog(log, effects, videoSource.None? && videoTrack.None?);
      log := log + effects;
      return false;
    }

    /** `handleOffer`: set the client's `sdp` as the remote offer, then
        answer it. A missing or non-string `sdp`, or a null peer connection,
        throws and is caught: nothing happens. */
    method HandleOffer(json: JsonObject, remoteSetOk: bool, answer: Option<string>, setOk: bool)
      requires Valid()
      modifies this
      ensures Valid()
      ensures ExtractSdp(json).None? || old(peerConnection).None? ==> log == old(log)
      ensures ExtractSdp(json).Some? && old(peerConnection).Some? ==>
        log == old(log) + AnswerEffects(old(peerConnection).value, old(webSocket).value, ExtractSdp(json).value, remoteSetOk, answer, setOk)
      ensures factory == old(factory) && peerConnection == old(peerConnection) && videoSource == old(videoSource)
      ensures videoTrack == old(videoTrack) && dataChannel == old(dataChannel) && webSocket == old(webSocket)
    {
      var sdp := ExtractSdp(json);
      if sdp.None? || peerConnection.None? {
        return;
      }
      var effects := AnswerEffects(peerConnection.value, webSocket.value, sdp.value, remoteSetOk, answer, setOk);
      AppendKeepsLog(log, effects, videoSource.None? && videoTrack.None?);
      log := log + effects;
    }

    /** `handleAnswer`: set the client's `sdp` as the remote answer. */
    method HandleAnswer(json: JsonObject, remoteSetOk: bool)
      requires Valid()
      modifies this
      ensures Valid()
      ensures log == old(log) +
        (if ExtractSdp(json).Some? && old(peerConnection).Some? && remoteSetOk
         then [RemoteDescriptionSet(old(peerConnection).value, AnswerSdp, ExtractSdp(json).value)] else [])
      ensures factory == old(factory) && peerConnection == old(peerConnection) && videoSource == old(videoSource)
      ensures videoTrack == old(videoTrack) && dataChannel == old(dataChannel) && webSocket == old(webSocket)
    {
      var sdp := ExtractSdp(json);
      if sdp.Some? && peerConnection.Some? && remoteSetOk {
        Record([RemoteDescriptionSet(peerConnection.value, AnswerSdp, sdp.value)]);
      } else {
        Record([]);
      }
    }

    /** `handleIceCandidate`: the candidate is added at once (there is no
        queue) when all three members convert and a peer connection exists;
        otherwise the exception is caught and nothing is added. */
    method HandleIceCandidate(json: JsonObject)
      requires Valid()
      modifies this
      ensures Valid()
      ensures ExtractIceCandidate(json).Some? && old(peerConnection).Some? ==>
        log == old(log) + [IceCandidateAdded(old(peerConnection).value, ExtractIceCandidate(json).value)]
      ensures ExtractIceCandidate(json).None? || old(peerConnection).None? ==> log == old(log)
      ensures factory == old(factory) && peerConnection == old(peerConnection) && videoSource == old(videoSource)
      ensures videoTrack == old(videoTrack) && dataChannel == old(dataChannel) && webSocket == old(webSocket)
    {
      var candidate := ExtractIceCandidate(json);
      if candidate.Some? && peerConnection.Some? {
        Record([IceCandidateAdded(peerConnection.value, candidate.value)]);
      }
    }

    /** `onIceCandidate` then `sendIceCandidate`: a locally gathered
        candidate goes to the client as an `ice_candidate` message. */
    method OnIceCandidate(candidate: IceCandidate)
      requires Valid()
      modifies this
      ensures Valid()
      ensures log == old(log) + (if old(webSocket).Some? then [Sent(old(webSocket).value, IceCandidateMessage(candidate))] else [])
      ensures factory == old(factory) && peerConnection == old(peerConnection) && videoSource == old(videoSource)
      ensures videoTrack == old(videoTrack) && dataChannel == old(dataChannel) && webSocket == old(webSocket)
    {
      if webSocket.Some? {
        var sent := [Sent(webSocket.value, IceCandidateMessage(candidate))];
        assert SendsFollowLocalDescription(sent) && OffersSendOnly(sent);
        NoCreations(sent);
        AppendKeepsLog(log, sent, videoSource.None? && videoTrack.None?);
        log := log + sent;
      }
    }

    /** `cleanup`: dispose or close each non-null handle. The fields are not
        cleared. */
    method Cleanup()
      requires Valid()
      modifies this
      ensures Valid()
      ensures log == old(log) + CleanupEffects(old(videoTrack), old(videoSource), old(peerConnection), old(factory))
      ensures factory == old(factory) && peerConnection == old(peerConnection) && videoSource == old(videoSource)
      ensures videoTrack == old(videoTrack) && dataChannel == old(dataChannel) && webSocket == old(webSocket)
    {
      CleanupIsQuiet(videoTrack, videoSource, peerConnection, factory);
      Record(CleanupEffects(videoTrack, videoSource, peerConnection, factory));
    }
  }

  /** Every offer the manager has sent is send-only: no `a=sendrecv` in it. */
  lemma SentOffersSendOnly(m: WebRtcManager, i: int)
    requires m.Valid() && 0 <= i < |m.log| && m.log[i].Sent? && m.log[i].message.Offer?
    ensures !Contains(m.log[i].message.sdp, SENDRECV)
    ensures i > 0 && m.log[i - 1].LocalDescriptionSet? && m.log[i - 1].kind == OfferSdp && m.log[i - 1].sdp == m.log[i].message.sdp
  {
    assert IsDescriptionSend(m.log[i]);
  }
}
