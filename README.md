# DeviceApp control plane, modelled in Dafny

DeviceApp is the Android side of a remote-control pair. It runs a WebSocket
server on port 4321. Each client that connects gets a `device_info` message
and can then start a WebRTC session, in which the device offers its screen
send-only. Clients also send input events, which the device can turn into
`input` shell commands. This project models the bookkeeping of that control
plane and proves what it guarantees:

- **Control-command decoding** (`ControlEvents`, `TouchControl`). A control
  event decodes to at most one shell input command: key event, tap, long
  click or swipe. The model also gives the exact command line and a parser
  that reads it back.
- **Session registry and message router** (`WebSocket`). The class
  `WebSocketService` holds the set of connected clients and the WebRTC
  manager of each connection. Managers are named by ids handed out in order.
  What the service asks of a manager is an entry in an effect log. Each
  handler is a method, specified by a step function on the registry state.
  Lemmas prove that every step keeps the registry invariant `Consistent`
  and does what it promises.
- **Per-connection negotiation** (`WebRtc`, `Sdp`, `Signaling`). The class
  `WebRtcManager` holds the nullable library handles and an effect log of
  library calls. The invariant `LogKept` says:
  - at most one video source and one track are ever created;
  - every sent offer or answer follows the setting of the same local
    description;
  - no sent offer contains `a=sendrecv`.

  The offer rewrite is Java's `String.replace("a=sendrecv", "a=sendonly")`,
  which turns a two-way media direction attribute (section 6 of RFC 4566)
  into a send-only one (section 5.1 of RFC 3264). Its properties are proved
  on its own definition.
- **Capture resource bookkeeping** (`ScreenCapture`). The class
  `ScreenCaptureService` holds the four platform handles, the video sink,
  the frame counter and an effect log. The invariant `FramesKept` says:
  - the counter equals the number of frames released;
  - every delivered frame is stamped with the number of frames released
    before it, times 1 000 000 ns;
  - every frame release comes right after a hand-off.

  A `release()` that throws after the hand-off leaves the counter where it
  was, so the next frame repeats the stamp. Stamps therefore never
  decrease, and they strictly increase after every frame that was released.
- **Shared vocabulary** (`Base`, `Decimal`, `Json`):
  - Java's `int` narrowing;
  - ASCII decimal text, as `%d` prints it in a locale with ASCII digits and
    as `Integer.parseInt` reads it;
  - Gson's `getAsString` and `getAsInt` on a parsed object, including the
    rule that a one-element array converts as its element.

Environment answers are method parameters:
- whether a peer connection is created;
- whether an SDP is created or set;
- whether a projection is granted;
- whether a throw happens.

Library callbacks run synchronously, right after the call that registers
them.

Three points of the signaling flow:
- the start tag is `start_webrtc`;
- a repeated start cleans up and replaces the connection's manager;
- remote ICE candidates are added at once; there is no queue.

## Model

Source paths are below `remote_control_apps/DeviceApp/app/src/main/java/com/example/deviceapp/`.

| member | source | states |
|---|---|---|
| Base.WrapInt32 | remote_control_apps/DeviceApp/app/src/main/java/com/example/deviceapp/WebRTCManager.java:328 | Narrowing to `int` keeps the value modulo 2^32. It is the identity on values that already fit. |
| ControlEvents.EmptyEvent | remote_control_apps/DeviceApp/app/src/main/java/com/example/deviceapp/ControlEvent.java:27 | The no-argument constructor leaves every reference null and every primitive field zero. |
| ControlEvents.NewEvent | remote_control_apps/DeviceApp/app/src/main/java/com/example/deviceapp/ControlEvent.java:29-34 | The four-argument constructor sets type, x, y and timestamp. The end point and the duration stay null. |
| ControlEvents.IsSpecialKey | remote_control_apps/DeviceApp/app/src/main/java/com/example/deviceapp/ControlEvent.java:36-38 | The three key sentinels (-1,-1), (-2,-2) and (-3,-3) are special keys. A point with a non-negative coordinate is never one. |
| ControlEvents.SpecialKeyCode | remote_control_apps/DeviceApp/app/src/main/java/com/example/deviceapp/ControlEvent.java:40-45 | The code is always one of 4, 3, 82 or -1. It is 4 exactly for (-1,-1), 3 exactly for (-2,-2) and 82 exactly for (-3,-3). A code other than -1 implies the event is a special key. |
| ControlEvents.UnmappedNegativePair | remote_control_apps/DeviceApp/app/src/main/java/com/example/deviceapp/ControlEvent.java:36-45 | A negative pair off the diagonal, such as (-1,-2), is a special key whose code is -1. |
| ControlEvents.TruncateTowardZero | remote_control_apps/DeviceApp/app/src/main/java/com/example/deviceapp/TouchControlService.java:30 | The result is the integer next to the argument on the side of zero, as Java's `(int)` rounds. |
| ControlEvents.JavaIntCast | remote_control_apps/DeviceApp/app/src/main/java/com/example/deviceapp/TouchControlService.java:30 | Between `int` minimum - 1 and maximum + 1 (exclusive) the cast truncates toward zero. Beyond that, it saturates at the nearer bound. |
| Decimal.NatToString | remote_control_apps/DeviceApp/app/src/main/java/com/example/deviceapp/TouchControlService.java:54 | The text is a non-empty run of decimal digits without leading zeros. |
| Decimal.IntToString | remote_control_apps/DeviceApp/app/src/main/java/com/example/deviceapp/TouchControlService.java:54 | The text is digits with a leading minus sign exactly when the number is negative. |
| Decimal.ParseInt | remote_control_apps/DeviceApp/app/src/main/java/com/example/deviceapp/WebRTCManager.java:328 | A string is accepted exactly when it is an optional sign followed by at least one digit. The sign of the value follows the sign of the text. |
| Decimal.NatRoundTrip | remote_control_apps/DeviceApp/app/src/main/java/com/example/deviceapp/TouchControlService.java:54 | Parsing the digits of a natural number gives that number back. |
| Decimal.IntRoundTrip | remote_control_apps/DeviceApp/app/src/main/java/com/example/deviceapp/TouchControlService.java:54 | Parsing the decimal text of any integer gives that integer back. |
| Json.AsString | remote_control_apps/DeviceApp/app/src/main/java/com/example/deviceapp/WebRTCManager.java:207 | `getAsString` returns a string as it is and always succeeds on numbers and booleans. It fails on null and on objects. An array converts as its element when it has exactly one, and fails otherwise. |
| Json.AsInt | remote_control_apps/DeviceApp/app/src/main/java/com/example/deviceapp/WebRTCManager.java:328 | `getAsInt` narrows a number to 32 bits. A string converts exactly when `Integer.parseInt` accepts it in range, giving the parsed value. It fails on null, booleans and objects. An array converts as its element when it has exactly one, and fails otherwise. |
| Json.SingletonArrays | remote_control_apps/DeviceApp/app/src/main/java/com/example/deviceapp/WebRTCManager.java:207 | Wrapping a value in any number of one-element arrays changes neither `getAsString` nor `getAsInt`. |
| Json.GetString | remote_control_apps/DeviceApp/app/src/main/java/com/example/deviceapp/WebRTCManager.java:207 | `get(key).getAsString()` on an object succeeds only for a present key. A string member yields its text. |
| Json.GetInt | remote_control_apps/DeviceApp/app/src/main/java/com/example/deviceapp/WebRTCManager.java:328 | `get(key).getAsInt()` on an object succeeds only for a present key. An in-range number yields its value. |
| Signaling.ToJson | remote_control_apps/DeviceApp/app/src/main/java/com/example/deviceapp/WebRTCManager.java:193-200 | Each outbound kind has exactly its fixed member set: `type` plus `device_name`/`device_id`, or `sdp`, or `candidate`/`sdpMid`/`sdpMLineIndex`. Each member carries the corresponding field, including the device name and id. |
| Signaling.ExtractSdp | remote_control_apps/DeviceApp/app/src/main/java/com/example/deviceapp/WebRTCManager.java:241 | A non-array `sdp` member is read exactly when it is neither null nor an object. A string is read as it is. An array member is read exactly when it has one element that converts. A missing member is not read. |
| Signaling.ExtractIceCandidate | remote_control_apps/DeviceApp/app/src/main/java/com/example/deviceapp/WebRTCManager.java:326-330 | A candidate is built exactly when all three of `candidate`, `sdpMid` and `sdpMLineIndex` convert. It is built from those three values. |
| Signaling.MessageRoundTrip | remote_control_apps/DeviceApp/app/src/main/java/com/example/deviceapp/WebRTCManager.java:413-422 | Every outbound message, read back by its `type` and members, is the message that was sent. |
| Signaling.IceCandidateMessageAccepted | remote_control_apps/DeviceApp/app/src/main/java/com/example/deviceapp/WebRTCManager.java:324-337 | The candidate message the device sends is accepted by the device's own candidate handler. The handler yields the same candidate. |
| Signaling.IceIndexConversions | remote_control_apps/DeviceApp/app/src/main/java/com/example/deviceapp/WebRTCManager.java:328 | An m-line index beyond 32 bits is narrowed, not refused. |
| TouchControl.HandleSpecialKey | remote_control_apps/DeviceApp/app/src/main/java/com/example/deviceapp/TouchControlService.java:45-51 | A key code becomes a key event for that code. |
| TouchControl.HandleTouch | remote_control_apps/DeviceApp/app/src/main/java/com/example/deviceapp/TouchControlService.java:27-43 | A click taps the truncated point. A long click swipes in place for 1000 ms. A swipe with both end coordinates swipes there, for its own duration or 500 ms. Every other event, and a swipe missing an end coordinate, issues nothing (both directions). |
| TouchControl.HandleControlEvent | remote_control_apps/DeviceApp/app/src/main/java/com/example/deviceapp/TouchControlService.java:13-25 | A special-key event becomes the key event of its code. Every other event decodes as a touch. |
| TouchControl.SpecialKeyIgnoresType | remote_control_apps/DeviceApp/app/src/main/java/com/example/deviceapp/TouchControlService.java:17-18 | A special-key event decodes to the same key event whatever its type tag. An unmapped negative pair gives `keyevent -1`. |
| TouchControl.ClickTapsAtPoint | remote_control_apps/DeviceApp/app/src/main/java/com/example/deviceapp/TouchControlService.java:29-30 | A click at non-negative coordinates within range taps the floor of those coordinates. |
| TouchControl.SwipeWithoutEndIsDropped | remote_control_apps/DeviceApp/app/src/main/java/com/example/deviceapp/TouchControlService.java:33-39 | A non-special swipe missing an end coordinate issues no command. No such swipe ever becomes a tap. |
| TouchControl.LongClickHoldsStill | remote_control_apps/DeviceApp/app/src/main/java/com/example/deviceapp/TouchControlService.java:59-64 | A long click is a swipe whose start and end coincide, lasting 1000 ms. |
| TouchControl.OnlyTouchKindsIssueCommands | remote_control_apps/DeviceApp/app/src/main/java/com/example/deviceapp/TouchControlService.java:27-43 | A non-special event that issues a command is a click, long click or swipe. It is a tap exactly when it is a click. |
| TouchControl.Split | remote_control_apps/DeviceApp/app/src/main/java/com/example/deviceapp/TouchControlService.java:80 | The model reads its own formatted line back by splitting at every single space; this is not the whitespace tokenizer `Runtime.exec` uses. The two agree on every line `FormatCommand` builds, since no word contains a space. The result has at least one word. |
| TouchControl.SplitUnwords | remote_control_apps/DeviceApp/app/src/main/java/com/example/deviceapp/TouchControlService.java:80 | Joining space-free words with spaces gives a line that splits back into those words. |
| TouchControl.NumberHasNoSpace | remote_control_apps/DeviceApp/app/src/main/java/com/example/deviceapp/TouchControlService.java:54 | A `%d` field contains no space. It parses back to its number exactly when that number is an `int`. |
| TouchControl.WordsHaveNoSpace | remote_control_apps/DeviceApp/app/src/main/java/com/example/deviceapp/TouchControlService.java:53-77 | No word of any command line contains a space. |
| TouchControl.WordsRoundTrip | remote_control_apps/DeviceApp/app/src/main/java/com/example/deviceapp/TouchControlService.java:53-77 | The words of every command read back as that command. |
| TouchControl.FormatCommand | remote_control_apps/DeviceApp/app/src/main/java/com/example/deviceapp/TouchControlService.java:53-77 | A command line starts with `input ` and splits at its spaces into exactly the words of its command. |
| TouchControl.FormatRoundTrip | remote_control_apps/DeviceApp/app/src/main/java/com/example/deviceapp/TouchControlService.java:53-77 | Every formatted command line parses back to the command it was formatted from, so no two commands share a line. |
| TouchControl.ShellCommand | remote_control_apps/DeviceApp/app/src/main/java/com/example/deviceapp/TouchControlService.java:79-85 | An event causes a shell command exactly when it decodes to a command. The command line parses back to that decoded command. |
| Sdp.Replace | remote_control_apps/DeviceApp/app/src/main/java/com/example/deviceapp/WebRTCManager.java:151 | Replacing a target by a text of the same length keeps the length. |
| Sdp.RewriteDirection | remote_control_apps/DeviceApp/app/src/main/java/com/example/deviceapp/WebRTCManager.java:151 | The rewritten offer has the length of the original. |
| Sdp.ReplaceWithoutTarget | remote_control_apps/DeviceApp/app/src/main/java/com/example/deviceapp/WebRTCManager.java:151 | A text that does not contain the target is returned unchanged. |
| Sdp.RewriteRemovesSendRecv | remote_control_apps/DeviceApp/app/src/main/java/com/example/deviceapp/WebRTCManager.java:151 | No `a=sendrecv` remains after the rewrite, not even one formed across a replacement's edge. |
| Sdp.RewriteReplacesEveryOccurrence | remote_control_apps/DeviceApp/app/src/main/java/com/example/deviceapp/WebRTCManager.java:151 | Every `a=sendrecv` of the original is an `a=sendonly` at the same position afterwards. |
| Sdp.RewriteKeepsOtherCharacters | remote_control_apps/DeviceApp/app/src/main/java/com/example/deviceapp/WebRTCManager.java:151 | Every character outside an occurrence of `a=sendrecv` is kept at its position. |
| Sdp.RewriteIdempotent | remote_control_apps/DeviceApp/app/src/main/java/com/example/deviceapp/WebRTCManager.java:151 | An SDP without `a=sendrecv` passes unchanged. Rewriting twice is rewriting once. |
| Sdp.SendRecvDoesNotOverlap | remote_control_apps/DeviceApp/app/src/main/java/com/example/deviceapp/WebRTCManager.java:151 | Two occurrences of `a=sendrecv` never overlap, so the left-to-right scan meets each one. |
| WebRtc.Mandatory | remote_control_apps/DeviceApp/app/src/main/java/com/example/deviceapp/WebRTCManager.java:139-142 | A key's value is found exactly when some constraint has that key. The value found belongs to such a constraint. |
| WebRtc.ConstraintValues | remote_control_apps/DeviceApp/app/src/main/java/com/example/deviceapp/WebRTCManager.java:274-275 | The offer asks to receive neither audio nor video. The answer asks to receive video but not audio. Each has exactly these two constraints. |
| WebRtc.MediaCreated | remote_control_apps/DeviceApp/app/src/main/java/com/example/deviceapp/WebRTCManager.java:97-98 | Creating the source and the track on a log that holds neither gives exactly one of each, and the log invariants still hold. |
| WebRtc.OfferEffects | remote_control_apps/DeviceApp/app/src/main/java/com/example/deviceapp/WebRTCManager.java:137-191 | The offer is requested with the offer constraints. An offer is sent exactly when one was created and set locally, and it carries the rewritten SDP. The sent offer follows its local description and contains no `a=sendrecv`. |
| WebRtc.AnswerEffects | remote_control_apps/DeviceApp/app/src/main/java/com/example/deviceapp/WebRTCManager.java:272-313 | Nothing happens unless the remote offer was set. Then an answer is requested with the answer constraints. The answer is sent, unchanged, exactly when it was created and set locally, and it follows that local setting. |
| WebRtc.CleanupEffects | remote_control_apps/DeviceApp/app/src/main/java/com/example/deviceapp/WebRTCManager.java:339-352 | At most four disposals happen. With every handle null, cleanup does nothing. |
| WebRtc.CleanupTouchesExactlyHeld | remote_control_apps/DeviceApp/app/src/main/java/com/example/deviceapp/WebRTCManager.java:339-352 | Each kind of disposal names the held handle. It happens exactly when that handle is non-null. |
| WebRtc.CleanupIsQuiet | remote_control_apps/DeviceApp/app/src/main/java/com/example/deviceapp/WebRTCManager.java:339-352 | Cleanup sends nothing and creates nothing. |
| WebRtc.SentOffersSendOnly | remote_control_apps/DeviceApp/app/src/main/java/com/example/deviceapp/WebRTCManager.java:151-165 | Every offer a manager has sent has no `a=sendrecv`. It comes right after the same SDP was set as the local offer. |
| WebRtc.WebRtcManager.constructor | remote_control_apps/DeviceApp/app/src/main/java/com/example/deviceapp/WebRTCManager.java:32-35 | A new manager has created its factory and holds no peer connection, media, data channel or socket. |
| WebRtc.WebRtcManager.CreateVideoTrack | remote_control_apps/DeviceApp/app/src/main/java/com/example/deviceapp/WebRTCManager.java:88-135 | A second call is a no-op. A first call creates the screencast source and its track and adds the track under `local_stream`. It hands the source to the capture service only when adding succeeds. No capture handle changes. |
| WebRtc.WebRtcManager.CreatePeerConnection | remote_control_apps/DeviceApp/app/src/main/java/com/example/deviceapp/WebRTCManager.java:65-86 | The socket is always recorded. The call throws exactly when the library returns no peer connection. Otherwise exactly one ordered `control` data channel is created, then the video track, at most once. The capture service's handles, log and frame counter stay; only its sink may change. |
| WebRtc.WebRtcManager.Connect | remote_control_apps/DeviceApp/app/src/main/java/com/example/deviceapp/WebRTCManager.java:77-82 | The peer connection and its single ordered `control` data channel are created, in that order. |
| WebRtc.WebRtcManager.CreateOfferWithVideo | remote_control_apps/DeviceApp/app/src/main/java/com/example/deviceapp/WebRTCManager.java:137-191 | Without a peer connection the call throws and nothing changes. Otherwise the log grows by the offer effects, and the log invariants are kept. |
| WebRtc.WebRtcManager.HandleOffer | remote_control_apps/DeviceApp/app/src/main/java/com/example/deviceapp/WebRTCManager.java:202-237 | A missing or unreadable `sdp`, or a missing peer connection, changes nothing. Otherwise the remote offer is set and answered as the answer effects say. |
| WebRtc.WebRtcManager.HandleAnswer | remote_control_apps/DeviceApp/app/src/main/java/com/example/deviceapp/WebRTCManager.java:239-270 | The client's `sdp` is set as the remote answer. This happens only when it is readable, a peer connection exists and the library accepts it. |
| WebRtc.WebRtcManager.HandleIceCandidate | remote_control_apps/DeviceApp/app/src/main/java/com/example/deviceapp/WebRTCManager.java:324-337 | A candidate is added at once exactly when all three members convert and a peer connection exists. Otherwise nothing is added. |
| WebRtc.WebRtcManager.OnIceCandidate | remote_control_apps/DeviceApp/app/src/main/java/com/example/deviceapp/WebRTCManager.java:375-379 | A gathered candidate is sent to the client as one `ice_candidate` message. |
| WebRtc.WebRtcManager.Cleanup | remote_control_apps/DeviceApp/app/src/main/java/com/example/deviceapp/WebRTCManager.java:339-352 | Each non-null handle is disposed or closed once. No field changes. |
| ScreenCapture.StartGate | remote_control_apps/DeviceApp/app/src/main/java/com/example/deviceapp/ScreenCaptureService.java:84-92 | Capture starts only against a non-null intent with data. An explicit result code must be RESULT_OK. A missing result code defaults to -1, which is RESULT_OK, so such an intent passes. |
| ScreenCapture.StartEffects | remote_control_apps/DeviceApp/app/src/main/java/com/example/deviceapp/ScreenCaptureService.java:131-149 | A start releases and delivers nothing. The virtual display is created exactly when the projection is granted and the encoder is created. |
| ScreenCapture.StopEffects | remote_control_apps/DeviceApp/app/src/main/java/com/example/deviceapp/ScreenCaptureService.java:266-293 | A stop issues at most five platform calls, and none when all handles are null. |
| ScreenCapture.StopReleasesExactlyHeld | remote_control_apps/DeviceApp/app/src/main/java/com/example/deviceapp/ScreenCaptureService.java:267-290 | Each kind of release names the held handle and happens exactly when that handle is non-null. The encoder release is skipped when its stop throws. |
| ScreenCapture.StopReleasesInOrder | remote_control_apps/DeviceApp/app/src/main/java/com/example/deviceapp/ScreenCaptureService.java:267-290 | A stop issues only releases, in a fixed order, each kind at most once. |
| ScreenCapture.StopDeliversNothing | remote_control_apps/DeviceApp/app/src/main/java/com/example/deviceapp/ScreenCaptureService.java:266-293 | A stop hands no frame to the sink. |
| ScreenCapture.ReleasedCountAppend | remote_control_apps/DeviceApp/app/src/main/java/com/example/deviceapp/ScreenCaptureService.java:224-264 | Effects that neither deliver nor release a frame leave the number of released frames as it was. |
| ScreenCapture.AppendKeepsFrames | remote_control_apps/DeviceApp/app/src/main/java/com/example/deviceapp/ScreenCaptureService.java:224-264 | Effects that neither deliver nor release a frame keep the frame bookkeeping. |
| ScreenCapture.AppendDelivery | remote_control_apps/DeviceApp/app/src/main/java/com/example/deviceapp/ScreenCaptureService.java:254-255 | Handing over a frame stamped with the counter keeps the bookkeeping with the counter unchanged. |
| ScreenCapture.AppendRelease | remote_control_apps/DeviceApp/app/src/main/java/com/example/deviceapp/ScreenCaptureService.java:256-257 | Releasing the frame just handed over keeps the bookkeeping with the counter one higher. |
| ScreenCapture.ReleasedCountMonotone | remote_control_apps/DeviceApp/app/src/main/java/com/example/deviceapp/ScreenCaptureService.java:256-257 | The number of released frames never falls along a log. |
| ScreenCapture.StampsNonDecreasing | remote_control_apps/DeviceApp/app/src/main/java/com/example/deviceapp/ScreenCaptureService.java:254-257 | A later delivered frame never carries a smaller stamp than an earlier one. |
| ScreenCapture.ReleasedStampsIncrease | remote_control_apps/DeviceApp/app/src/main/java/com/example/deviceapp/ScreenCaptureService.java:254-257 | A frame that was released carries a stamp strictly below every later frame. So when no release throws, stamps strictly increase. |
| ScreenCapture.ScreenCaptureService.constructor | remote_control_apps/DeviceApp/app/src/main/java/com/example/deviceapp/ScreenCaptureService.java:40-46 | A new service holds no handle and no sink, has delivered nothing and has a counter of 0. |
| ScreenCapture.ScreenCaptureService.StartScreenCapture | remote_control_apps/DeviceApp/app/src/main/java/com/example/deviceapp/ScreenCaptureService.java:131-149 | The projection is replaced by a fresh handle, or by null when refused. The encoder, surface and display are replaced only when created. Handles already held are overwritten without release. Sink and counter stay. |
| ScreenCapture.ScreenCaptureService.OnStartCommand | remote_control_apps/DeviceApp/app/src/main/java/com/example/deviceapp/ScreenCaptureService.java:71-94 | An intent that fails the gate changes nothing. One that passes starts capture: the new projection, encoder, surface and display, the log and the handle counter are those of a start. The sink and the frame counter stay. |
| ScreenCapture.ScreenCaptureService.SetVideoSource | remote_control_apps/DeviceApp/app/src/main/java/com/example/deviceapp/ScreenCaptureService.java:206-208 | The sink is replaced; nothing else changes, so later frames go to this sink. |
| ScreenCapture.ScreenCaptureService.HandleEncodedFrame | remote_control_apps/DeviceApp/app/src/main/java/com/example/deviceapp/ScreenCaptureService.java:224-264 | With a sink and observer, a frame stamped counter * 1 000 000 goes to the current sink unless building or handing it over throws. If it is then released, the counter rises by 1. If the release throws, the counter stays. Without a hand-off, log and counter are unchanged. |
| ScreenCapture.ScreenCaptureService.Deliver | remote_control_apps/DeviceApp/app/src/main/java/com/example/deviceapp/ScreenCaptureService.java:254-255 | One frame stamped with the counter is handed to the given sink. The counter and the handles stay. |
| ScreenCapture.ScreenCaptureService.ReleaseFrame | remote_control_apps/DeviceApp/app/src/main/java/com/example/deviceapp/ScreenCaptureService.java:256-257 | The frame just handed over is released, then the counter rises by 1. |
| ScreenCapture.ScreenCaptureService.HandleEncodedBuffer | remote_control_apps/DeviceApp/app/src/main/java/com/example/deviceapp/ScreenCaptureService.java:210-222 | The output buffer is released in every case, last. A frame is forwarded only from a non-null, non-empty buffer, with the same three outcomes as a single frame. |
| ScreenCapture.ScreenCaptureService.StopScreenCapture | remote_control_apps/DeviceApp/app/src/main/java/com/example/deviceapp/ScreenCaptureService.java:266-293 | All four handles end null. The platform calls are those of a stop over the handles held before. Sink and counter stay. |
| ScreenCapture.ScreenCaptureService.OnDestroy | remote_control_apps/DeviceApp/app/src/main/java/com/example/deviceapp/ScreenCaptureService.java:113-117 | Destruction stops capture: all four handles end null, and the log grows by the stop of the handles held before. The sink and the frame counter stay. |
| ScreenCapture.StopTwice | remote_control_apps/DeviceApp/app/src/main/java/com/example/deviceapp/ScreenCaptureService.java:266-293 | A second stop releases nothing: two stops leave the log of one. |
| ScreenCapture.ReleaseThrowRepeatsStamp | remote_control_apps/DeviceApp/app/src/main/java/com/example/deviceapp/ScreenCaptureService.java:254-257 | After a frame whose release throws, the next frame carries the same stamp, and only the second is released. |
| WebSocket.MessageType | remote_control_apps/DeviceApp/app/src/main/java/com/example/deviceapp/WebSocketService.java:172-173 | A malformed or untyped message has no type, and so has a null or object `type`. A string `type` member is the type. An array `type` member gives the type of its single element, and none otherwise. |
| WebSocket.Route | remote_control_apps/DeviceApp/app/src/main/java/com/example/deviceapp/WebSocketService.java:175-196 | Each of `ping`, `start_webrtc`, `offer`, `answer`, `ice_candidate` and `control_event` selects exactly its own handler (both directions). Every other type, or none, selects no handler. |
| WebSocket.OpenKeepsConsistent | remote_control_apps/DeviceApp/app/src/main/java/com/example/deviceapp/WebSocketService.java:83-99 | Registering a client and sending it `device_info` keeps the registry invariant. |
| WebSocket.CloseKeepsConsistent | remote_control_apps/DeviceApp/app/src/main/java/com/example/deviceapp/WebSocketService.java:102-113 | Closing a connection keeps the registry invariant. |
| WebSocket.CloseForgets | remote_control_apps/DeviceApp/app/src/main/java/com/example/deviceapp/WebSocketService.java:102-113 | After a close the connection is in neither map. Its manager is cleaned up exactly once. Other connections keep their entries. An unknown connection changes nothing. |
| WebSocket.StartKeepsConsistent | remote_control_apps/DeviceApp/app/src/main/java/com/example/deviceapp/WebSocketService.java:224-249 | `start_webrtc` keeps the registry invariant. |
| WebSocket.StartReplacesManager | remote_control_apps/DeviceApp/app/src/main/java/com/example/deviceapp/WebSocketService.java:227-242 | Without a capture service nothing changes. Otherwise the connection gets a fresh manager, different from every manager held before. Other connections keep theirs, and clients are untouched. |
| WebSocket.StartCallsOnce | remote_control_apps/DeviceApp/app/src/main/java/com/example/deviceapp/WebSocketService.java:233-246 | The previous manager is cleaned up exactly once. The fresh one gets exactly one peer connection, and exactly one offer unless the peer connection throws. The fresh one is never cleaned up. |
| WebSocket.OfferKeepsConsistent | remote_control_apps/DeviceApp/app/src/main/java/com/example/deviceapp/WebSocketService.java:251-269 | `offer` keeps the registry invariant. |
| WebSocket.OfferReusesManager | remote_control_apps/DeviceApp/app/src/main/java/com/example/deviceapp/WebSocketService.java:254-268 | The offer goes to the connection's existing manager. Failing that, a fresh one is created and registered only when its peer connection succeeds. It then gets the offer once. Without a capture service nothing changes. |
| WebSocket.ForwardTouchesOnlyOwnManager | remote_control_apps/DeviceApp/app/src/main/java/com/example/deviceapp/WebSocketService.java:271-292 | `answer` and `ice_candidate` without a manager change nothing. Otherwise they reach this connection's manager only and keep the invariant. |
| WebSocket.MessageKeepsConsistent | remote_control_apps/DeviceApp/app/src/main/java/com/example/deviceapp/WebSocketService.java:170-200 | Every message keeps the registry invariant and the client set. A malformed, untyped or unknown message, and `control_event`, change nothing. |
| WebSocket.BroadcastSends | remote_control_apps/DeviceApp/app/src/main/java/com/example/deviceapp/WebSocketService.java:301-305 | The text is sent once to every client whose connection is open, and to no other. |
| WebSocket.WebSocketService.DeviceInfoMessage | remote_control_apps/DeviceApp/app/src/main/java/com/example/deviceapp/WebSocketService.java:88-91 | `device_info` carries the device model and serial. |
| WebSocket.WebSocketService.constructor | remote_control_apps/DeviceApp/app/src/main/java/com/example/deviceapp/WebSocketService.java:23-27 | A new service has no clients, no managers, no server and no capture service. |
| WebSocket.WebSocketService.StopExistingServer | remote_control_apps/DeviceApp/app/src/main/java/com/example/deviceapp/WebSocketService.java:65-76 | A running server is asked to stop and forgotten, unless stopping throws. Without a server nothing happens. |
| WebSocket.WebSocketService.StartWebSocketServer | remote_control_apps/DeviceApp/app/src/main/java/com/example/deviceapp/WebSocketService.java:78-81 | A new server is stored and started. |
| WebSocket.WebSocketService.OnCreate | remote_control_apps/DeviceApp/app/src/main/java/com/example/deviceapp/WebSocketService.java:32-38 | A running server is asked to stop, then a new server is stored and started; the log records exactly those calls. The sessions and the capture service are untouched. |
| WebSocket.WebSocketService.OnDestroy | remote_control_apps/DeviceApp/app/src/main/java/com/example/deviceapp/WebSocketService.java:54-59 | A running server is asked to stop, and the log records exactly that request. The server field ends null unless stopping throws, in which case it keeps the old server. The sessions are untouched. |
| WebSocket.WebSocketService.SetScreenCaptureService | remote_control_apps/DeviceApp/app/src/main/java/com/example/deviceapp/WebSocketService.java:50-52 | Only the capture service's availability changes. |
| WebSocket.WebSocketService.OnOpen | remote_control_apps/DeviceApp/app/src/main/java/com/example/deviceapp/WebSocketService.java:83-99 | The client is registered and sent exactly one `device_info`. It remains registered whatever the send does. |
| WebSocket.WebSocketService.OnClose | remote_control_apps/DeviceApp/app/src/main/java/com/example/deviceapp/WebSocketService.java:102-113 | The new registry is the close step of the old one, and the invariant is kept. |
| WebSocket.WebSocketService.HandlePing | remote_control_apps/DeviceApp/app/src/main/java/com/example/deviceapp/WebSocketService.java:202-222 | `device_info` is sent only on an open connection. |
| WebSocket.WebSocketService.HandleStartWebRtc | remote_control_apps/DeviceApp/app/src/main/java/com/example/deviceapp/WebSocketService.java:224-249 | The new registry is the start step of the old one, and the invariant is kept. |
| WebSocket.WebSocketService.DropConnectionManager | remote_control_apps/DeviceApp/app/src/main/java/com/example/deviceapp/WebSocketService.java:233-238 | The connection's manager, if any, is cleaned up and forgotten. |
| WebSocket.WebSocketService.InstallManager | remote_control_apps/DeviceApp/app/src/main/java/com/example/deviceapp/WebSocketService.java:241-246 | A fresh manager is registered before its peer connection is created. Its offer follows unless the peer connection throws. |
| WebSocket.WebSocketService.HandleOffer | remote_control_apps/DeviceApp/app/src/main/java/com/example/deviceapp/WebSocketService.java:251-269 | The new registry is the offer step of the old one, and the invariant is kept. |
| WebSocket.WebSocketService.HandleAnswer | remote_control_apps/DeviceApp/app/src/main/java/com/example/deviceapp/WebSocketService.java:271-281 | The answer is forwarded to this connection's manager, if any, and the invariant is kept. |
| WebSocket.WebSocketService.HandleIceCandidate | remote_control_apps/DeviceApp/app/src/main/java/com/example/deviceapp/WebSocketService.java:283-292 | The candidate is forwarded to this connection's manager, if any, and the invariant is kept. |
| WebSocket.WebSocketService.HandleControlEvent | remote_control_apps/DeviceApp/app/src/main/java/com/example/deviceapp/WebSocketService.java:294-298 | A control event only logs: no client, manager or effect changes. |
| WebSocket.WebSocketService.HandleMessage | remote_control_apps/DeviceApp/app/src/main/java/com/example/deviceapp/WebSocketService.java:170-200 | The new registry is the message step of the old one, and the invariant is kept. |
| WebSocket.WebSocketService.BroadcastMessage | remote_control_apps/DeviceApp/app/src/main/java/com/example/deviceapp/WebSocketService.java:300-306 | The sessions are unchanged. The log grows by one send to each open client, in some order, each exactly once. |

## Left out

- Network I/O. Sockets, the server bind on port 4321 and message sending are effect-log entries.
- The server's start retry thread, its two-second delay, `Thread.sleep` and the network-interface logging. These are threads, time and logging.
- `Runtime.exec` and the exit code of `executeShellCommand`. The model returns the command line instead of running it, and does not model exec's whitespace tokenizer; `TouchControl.Split` splits at single spaces, which agrees with it on the lines the model builds.
- Gson text parsing and serialisation. A message is already an object of JSON values, or `Malformed` when Gson would throw. Nested objects are one opaque value.
- Json.AsString, Json.AsInt: numbers are integers only, each written in its shortest decimal form. Gson's `getAsString` returns a number's literal text as written (`007`, `1.5`, `1e2`), and `getAsInt` truncates a fractional or exponent literal. Neither case is modelled.
- Decimal.IntToString, Decimal.ParseInt: digits are ASCII `0`–`9`. `%d` follows the default locale, whose digits may not be ASCII, and `Integer.parseInt` also accepts other Unicode decimal digits. The model assumes a locale with ASCII digits and rejects other digits.
- Floating-point coordinates. They are reals, so NaN and infinity do not arise.
- Asynchronous library callbacks. They run synchronously, and their outcomes are method parameters.
- `PeerConnectionFactory` and EGL initialisation, and the sender's `RtpParameters` tuning. These are library configuration without decisions.
- WebRtc.WebRtcManager.CreateVideoTrack: a throw from the sender's `getParameters` or `setParameters` after a successful `addTrack` is not an outcome of the model. In the source it is caught by the same handler, so the track stays added but `setVideoSource` is skipped and the capture service is never told of the source. `TrackAddition` has only "added and told" or "not added".
- The peer-connection observer callbacks that only log, and the data channel observer. These only log.
- MediaProjection, MediaCodec, VirtualDisplay, the encoder format, notifications and the placeholder I420 buffer. These are platform APIs; their handles are opaque and their failures are parameters.
- `ScreenCaptureService.onCreate` and `initScreenMetrics`. These read display metrics and pass the service reference through a static field; `WebSocket.WebSocketService.SetScreenCaptureService` models what they change.
- The `clients` map's values (always `""`) and the static `instance` field. Neither is read by the core.
- Concurrency of the two `ConcurrentHashMap`s. Events are handled one at a time.
- Types outside this model: `AccessibilityControlService.java` and both `MainActivity.java` files are not part of this model.
- WebRtc.WebRtcManager.CreateVideoTrack: a null sender from `addTrack` is treated like a successful addition. The source then still calls `setVideoSource`, so the observable effect is the same.
- WebRtc.WebRtcManager.Cleanup: the handles stay in their fields after disposal, as in the source. A second cleanup would dispose them again, so no once-only property is claimed.
- WebSocket.WebSocketService.HandleOffer: when the fresh manager's peer connection throws, that manager is left unregistered and never cleaned up. The log records its calls; the leak itself is not stated as a property.
- WebSocket.WebSocketService.BroadcastMessage: the order of sends follows the map's iteration order, which is left open. A socket closing between `isOpen` and `send` is not modelled.
- WebSocket: a manager is an opaque id here. Whether a given manager's own calls succeed is a parameter of each step and is not tied to one `WebRtc.WebRtcManager` object.
- ScreenCapture.ScreenCaptureService.HandleEncodedFrame: the counter and the nanosecond stamp are unbounded integers. In Java the `long` product `frameTimestamp * 1_000_000` wraps after about 9.2e12 frames; the model does not wrap.
- ScreenCapture.ScreenCaptureService.StartScreenCapture: a throw can come from a step other than projection or encoder creation. Those cases are not separate parameters. Handles are unique within one service only.
- ControlEvents.JavaIntCast: NaN maps to 0 in Java; the model has no NaN, since coordinates are reals.
