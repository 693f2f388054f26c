/** The signaling messages the device sends over a client's socket, and the
    field extraction it applies to the ones it receives
    (WebRTCManager.java `sendOffer`, `sendAnswer`, `sendIceCandidate`,
    `handleAnswer`, `handleIceCandidate`; WebSocketService.java `device_info`). */
module Signaling {

  import opened Base
  import opened Json

  /** An ICE candidate as the library hands it over: media stream id, m-line
      index and the candidate line itself. */
  datatype IceCandidate = IceCandidate(sdpMid: string, sdpMLineIndex: Int32, sdp: string)

  /** The outbound message kinds. */
  datatype OutMessage =
    | DeviceInfo(deviceName: string, deviceId: string)
    | Offer(sdp: string)
    | Answer(sdp: string)
    | IceCandidateMessage(candidate: IceCandidate)

  /** The `type` member of each outbound kind. */
  function Tag(m: OutMessage): string {
    match m
    case DeviceInfo(_, _) => "device_info"
    case Offer(_) => "offer"
    case Answer(_) => "answer"
    case IceCandidateMessage(_) => "ice_candidate"
  }

  /** The JSON object built with `addProperty` before `gson.toJson`. */
  function ToJson(m: OutMessage): (o: JsonObject)
    ensures "type" in o && o["type"] == JString(Tag(m))
    ensures m.DeviceInfo? ==>
      o.Keys == {"type", "device_name", "device_id"} &&
      o["device_name"] == JString(m.deviceName) &&
      o["device_id"] == JString(m.deviceId)
    ensures m.Offer? || m.Answer? ==> o.Keys == {"type", "sdp"} && o["sdp"] == JString(m.sdp)
    ensures m.IceCandidateMessage? ==>
      o.Keys == {"type", "candidate", "sdpMid", "sdpMLineIndex"} &&
      o["candidate"] == JString(m.candidate.sdp) &&
      o["sdpMid"] == JString(m.candidate.sdpMid) &&
      o["sdpMLineIndex"] == JNumber(m.candidate.sdpMLineIndex)
  {
    match m
    case DeviceInfo(name, id) =>
      map["type" := JString("device_info"), "device_name" := JString(name), "device_id" := JString(id)]
    case Offer(sdp) =>
      map["type" := JString("offer"), "sdp" := JString(sdp)]
    case Answer(sdp) =>
      map["type" := JString("answer"), "sdp" := JString(sdp)]
    case IceCandidateMessage(c) =>
      map["type" := JString("ice_candidate"), "candidate" := JString(c.sdp),
          "sdpMid" := JString(c.sdpMid), "sdpMLineIndex" := JNumber(c.sdpMLineIndex)]
  }

  /** `handleIceCandidate` field extraction: `candidate` and `sdpMid` as
      strings and `sdpMLineIndex` as an int; if any of the three is missing or
      does not convert, Gson throws and no candidate is built. */
  function ExtractIceCandidate(o: JsonObject): (r: Option<IceCandidate>)
    ensures r.Some? <==>
      GetString(o, "candidate").Some? && GetString(o, "sdpMid").Some? && GetInt(o, "sdpMLineIndex").Some?
    ensures r.Some? ==> "candidate" in o && "sdpMid" in o && "sdpMLineIndex" in o
    ensures r.Some? ==>
      r.value == IceCandidate(GetString(o, "sdpMid").value, GetInt(o, "sdpMLineIndex").value, GetString(o, "candidate").value)
  {
    match (GetString(o, "candidate"), GetString(o, "sdpMid"), GetInt(o, "sdpMLineIndex"))
    case (Some(cand), Some(mid), Some(index)) => Some(IceCandidate(mid, index, cand))
    case _ => None
  }

  /** `handleOffer` and `handleAnswer` field extraction: the `sdp` member as
      a string; a one-element array stands for its element. */
  function ExtractSdp(o: JsonObject): (r: Option<string>)
    ensures "sdp" in o && !o["sdp"].JArray? ==> (r.Some? <==> !o["sdp"].JNull? && !o["sdp"].JObject?)
    ensures "sdp" in o && o["sdp"].JArray? ==> (r.Some? <==> |o["sdp"].elems| == 1 && AsString(o["sdp"].elems[0]).Some?)
    ensures "sdp" !in o ==> r.None?
    ensures "sdp" in o && o["sdp"].JString? ==> r == Some(o["sdp"].s)
    ensures "sdp" in o && o["sdp"].JArray? && |o["sdp"].elems| == 1 && o["sdp"].elems[0].JString? ==>
      r == Some(o["sdp"].elems[0].s)
  {
    GetString(o, "sdp")
  }

  /** How a peer reads a message the device sent: by its `type`, then the
      members that kind carries. */
  function FromJson(o: JsonObject): Option<OutMessage> {
    match GetString(o, "type")
    case Some("device_info") =>
      (match (GetString(o, "device_name"), GetString(o, "device_id"))
       case (Some(name), Some(id)) => Some(DeviceInfo(name, id))
       case _ => None)
    case Some("offer") =>
      (match ExtractSdp(o) case Some(sdp) => Some(Offer(sdp)) case None => None)
    case Some("answer") =>
      (match ExtractSdp(o) case Some(sdp) => Some(Answer(sdp)) case None => None)
    case Some("ice_candidate") =>
      (match ExtractIceCandidate(o) case Some(c) => Some(IceCandidateMessage(c)) case None => None)
    case _ => None
  }

  /** Every outbound message reads back as itself. */
  lemma MessageRoundTrip(m: OutMessage)
    ensures FromJson(ToJson(m)) == Some(m)
  {
    var o := ToJson(m);
    assert GetString(o, "type") == Some(Tag(m));
    match m
    case IceCandidateMessage(c) =>
      assert GetInt(o, "sdpMLineIndex") == Some(c.sdpMLineIndex);
    case _ =>
  }

  /** The candidate message the device sends is one its own
      `handleIceCandidate` would accept, yielding the same candidate. */
  lemma IceCandidateMessageAccepted(c: IceCandidate)
    ensures ExtractIceCandidate(ToJson(IceCandidateMessage(c))) == Some(c)
  {
    var o := ToJson(IceCandidateMessage(c));
    assert GetInt(o, "sdpMLineIndex") == Some(c.sdpMLineIndex);
  }

  /** A numeric m-line index beyond 32 bits is not refused: it is narrowed
      as Gson narrows it. */
  lemma IceIndexConversions(o: JsonObject, cand: string, mid: string, n: int)
    requires o == map["candidate" := JString(cand), "sdpMid" := JString(mid), "sdpMLineIndex" := JNumber(n)]
    ensures ExtractIceCandidate(o) == Some(IceCandidate(mid, WrapInt32(n), cand))
  {
  }
}
