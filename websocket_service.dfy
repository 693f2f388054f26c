/** The session registry and message router of WebSocketService.java. The
    service keeps the set of connected clients and, per connection, the
    WebRTC manager negotiating for it. Managers are named by ids handed out
    in order; what the service asks of a manager is recorded as a call in
    the effect log (the manager's own behaviour is `WebRtc.WebRtcManager`).
    Events arrive one at a time. */
module WebSocket {

  import opened Base
  import opened Json
  import opened Signaling

  /** The manager methods the service calls. */
  datatype ManagerCall =
    | Created
    | CreatePeerConnection(conn: Conn)
    | CreateOfferWithVideo
    | ForwardOffer(json: JsonObject)
    | ForwardAnswer(json: JsonObject)
    | ForwardIceCandidate(json: JsonObject)
    | Cleanup

  datatype ServiceEffect =
    | Send(conn: Conn, message: OutMessage)
    | SendText(conn: Conn, text: string)
    | Call(manager: nat, call: ManagerCall)
    | ServerStopRequested(server: nat)
    | ServerStarted(server: nat)

  /** The handlers `handleMessage` dispatches to. */
  datatype Handler = PingHandler | StartHandler | OfferHandler | AnswerHandler | IceHandler | ControlHandler

  /** The `type` member of an inbound message, if it has one that reads as a string. */
  function MessageType(msg: Inbound): (t: Option<string>)
    ensures msg.Malformed? ==> t.None?
    ensures msg.Parsed? && "type" in msg.fields && msg.fields["type"].JString? ==> t == Some(msg.fields["type"].s)
    ensures msg.Parsed? && "type" !in msg.fields ==> t.None?
    ensures msg.Parsed? && "type" in msg.fields && (msg.fields["type"].JNull? || msg.fields["type"].JObject?) ==> t.None?
    ensures msg.Parsed? && "type" in msg.fields && msg.fields["type"].JArray? ==>
      t == (if |msg.fields["type"].elems| == 1 then AsString(msg.fields["type"].elems[0]) else None)
  {
    match msg
    case Malformed => None
    case Parsed(o) => GetString(o, "type")
  }

  /** `handleMessage`'s switch: each known tag to its one handler; an
      unknown tag, an untyped or a malformed message to none. */
  function Route(msg: Inbound): (r: Option<Handler>)
    ensures r == Some(PingHandler) <==> MessageType(msg) == Some("ping")
    ensures r == Some(StartHandler) <==> MessageType(msg) == Some("start_webrtc")
    ensures r == Some(OfferHandler) <==> MessageType(msg) == Some("offer")
    ensures r == Some(AnswerHandler) <==> MessageType(msg) == Some("answer")
    ensures r == Some(IceHandler) <==> MessageType(msg) == Some("ice_candidate")
    ensures r == Some(ControlHandler) <==> MessageType(msg) == Some("control_event")
    ensures r.None? <==>
      MessageType(msg) !in {Some("ping"), Some("start_webrtc"), Some("offer"), Some("answer"), Some("ice_candidate"), Some("control_event")}
  {
    match MessageType(msg)
    case Some("ping") => Some(PingHandler)
    case Some("start_webrtc") => Some(StartHandler)
    case Some("offer") => Some(OfferHandler)
    case Some("answer") => Some(AnswerHandler)
    case Some("ice_candidate") => Some(IceHandler)
    case Some("control_event") => Some(ControlHandler)
    case _ => None
  }

  /** The registry: connected clients, the manager of each connection, the
      next manager id and the effect log. */
  datatype Sessions = Sessions(clients: set<Conn>, managers: map<Conn, nat>, nextManager: nat, log: seq<ServiceEffect>)

  /** The registry invariant: manager ids are issued in order and never
      shared between connections, a live manager has not been cleaned up,
      and no manager is cleaned up twice. */
  ghost predicate Consistent(s: Sessions) {
    && (forall c :: c in s.managers ==> s.managers[c] < s.nextManager)
    && (forall c, d :: c in s.managers && d in s.managers && c != d ==> s.managers[c] != s.managers[d])
    && (forall i :: 0 <= i < |s.log| && s.log[i].Call? ==> s.log[i].manager < s.nextManager)
    && (forall c :: c in s.managers ==> Call(s.managers[c], Cleanup) !in s.log)
    && (forall m :: Count(s.log, Call(m, Cleanup)) <= 1)
  }

  // ---- The handlers as steps on the registry ----

  /** `onOpen`: register the client and send it `device_info` (a failing send
      is caught; the client stays registered). */
  function OpenStep(s: Sessions, c: Conn, info: OutMessage): Sessions {
    s.(clients := s.clients + {c}, log := s.log + [Send(c, info)])
  }

  /** `onClose`: forget the client and its manager, cleaning that manager up. */
  function CloseStep(s: Sessions, c: Conn): Sessions {
    var s' := s.(clients := s.clients - {c});
    if c in s.managers then
      s'.(managers := s.managers - {c}, log := s.log + [Call(s.managers[c], Cleanup)])
    else s'
  }

  /** `handlePing`: answer with `device_info` only on an open connection. */
  function PingStep(s: Sessions, c: Conn, connOpen: bool, info: OutMessage): Sessions {
    if connOpen then s.(log := s.log + [Send(c, info)]) else s
  }

  /** `handleStartWebRTC`: without a capture service nothing happens.
      Otherwise clean up and drop this connection's manager, install a fresh
      one, create its peer connection and, unless that throws, its offer. */
  function StartStep(s: Sessions, c: Conn, captureAvailable: bool, peerThrows: bool): Sessions {
    if !captureAvailable then s
    else
      var m := s.nextManager;
      s.(managers := s.managers[c := m], nextManager := m + 1, log := CleanedLog(s, c) + StartCalls(m, c, peerThrows))
  }

  /** The log after cleaning up the connection's manager, if it has one. */
  function CleanedLog(s: Sessions, c: Conn): seq<ServiceEffect> {
    if c in s.managers then s.log + [Call(s.managers[c], Cleanup)] else s.log
  }

  /** The calls that set up a fresh manager `m`: construction, peer
      connection and, unless that throws, `last`. */
  function SetupCalls(m: nat, c: Conn, peerThrows: bool, last: ManagerCall): seq<ServiceEffect> {
    [Call(m, Created), Call(m, CreatePeerConnection(c))] + (if peerThrows then [] else [Call(m, last)])
  }

  function StartCalls(m: nat, c: Conn, peerThrows: bool): seq<ServiceEffect> {
    SetupCalls(m, c, peerThrows, CreateOfferWithVideo)
  }

  /** `handleOffer`: without a capture service nothing happens. A connection
      without a manager gets a fresh one with a peer connection, registered
      only once that succeeds; then the connection's manager handles the
      offer. */
  function OfferStep(s: Sessions, c: Conn, o: JsonObject, captureAvailable: bool, peerThrows: bool): Sessions {
    if !captureAvailable then s
    else if c in s.managers then s.(log := s.log + [Call(s.managers[c], ForwardOffer(o))])
    else
      var m := s.nextManager;
      var log := s.log + SetupCalls(m, c, peerThrows, ForwardOffer(o));
      if peerThrows then s.(nextManager := m + 1, log := log)
      else s.(managers := s.managers[c := m], nextManager := m + 1, log := log)
  }

  /** `handleAnswer` and `handleIceCandidate`: forward to this connection's manager, if any. */
  function ForwardStep(s: Sessions, c: Conn, call: ManagerCall): Sessions {
    if c in s.managers then s.(log := s.log + [Call(s.managers[c], call)]) else s
  }

  /** `handleMessage`: parse, read `type`, dispatch. A malformed message, a
      missing type, an unknown tag and `control_event` change nothing. */
  function MessageStep(s: Sessions, c: Conn, msg: Inbound, connOpen: bool, captureAvailable: bool,
                       peerThrows: bool, info: OutMessage): Sessions {
    match Route(msg)
    case Some(PingHandler) => PingStep(s, c, connOpen, info)
    case Some(StartHandler) => StartStep(s, c, captureAvailable, peerThrows)
    case Some(OfferHandler) => OfferStep(s, c, msg.fields, captureAvailable, peerThrows)
    case Some(AnswerHandler) => ForwardStep(s, c, ForwardAnswer(msg.fields))
    case Some(IceHandler) => ForwardStep(s, c, ForwardIceCandidate(msg.fields))
    case Some(ControlHandler) => s
    case None => s
  }

  // ---- Properties of the steps ----

  /** Appending effects that clean up nothing keeps every cleanup count. */
  lemma NoCleanupAppend(log: seq<ServiceEffect>, more: seq<ServiceEffect>)
    requires forall i :: 0 <= i < |more| ==> !(more[i].Call? && more[i].call.Cleanup?)
    ensures forall m :: Count(log + more, Call(m, Cleanup)) == Count(log, Call(m, Cleanup))
  {
    forall m ensures Count(log + more, Call(m, Cleanup)) == Count(log, Call(m, Cleanup)) {
      CountAppend(log, more, Call(m, Cleanup));
      assert Call(m, Cleanup) !in more;
    }
  }

  /** Cleaning up a manager that is not yet cleaned up makes its count one and
      leaves every other count. */
  lemma CleanupAppend(log: seq<ServiceEffect>, n: nat)
    requires Call(n, Cleanup) !in log
    ensures Count(log + [Call(n, Cleanup)], Call(n, Cleanup)) == 1
    ensures forall m :: m != n ==> Count(log + [Call(n, Cleanup)], Call(m, Cleanup)) == Count(log, Call(m, Cleanup))
  {
    CountAppend(log, [Call(n, Cleanup)], Call(n, Cleanup));
    assert [Call(n, Cleanup)][1..] == [];
    forall m | m != n ensures Count(log + [Call(n, Cleanup)], Call(m, Cleanup)) == Count(log, Call(m, Cleanup)) {
      CountAppend(log, [Call(n, Cleanup)], Call(m, Cleanup));
    }
  }

  /** Extending the log with effects that clean up nothing and call only
      issued managers keeps the invariant. */
  lemma ExtendLog(s: Sessions, more: seq<ServiceEffect>)
    requires Consistent(s)
    requires forall i :: 0 <= i < |more| ==> !(more[i].Call? && more[i].call.Cleanup?)
    requires forall i :: 0 <= i < |more| && more[i].Call? ==> more[i].manager < s.nextManager
    ensures Consistent(s.(log := s.log + more))
  {
    var log := s.log + more;
    NoCleanupAppend(s.log, more);
    forall i | 0 <= i < |log| && log[i].Call? ensures log[i].manager < s.nextManager {
      if i < |s.log| { assert log[i] == s.log[i]; } else { assert log[i] == more[i - |s.log|]; }
    }
    forall c | c in s.managers ensures Call(s.managers[c], Cleanup) !in log {
      assert Call(s.managers[c], Cleanup) !in more;
    }
  }

  /** Cleaning up and dropping a connection's manager keeps the invariant. */
  lemma DropManager(s: Sessions, c: Conn)
    requires Consistent(s) && c in s.managers
    ensures Consistent(s.(managers := s.managers - {c}, log := s.log + [Call(s.managers[c], Cleanup)]))
  {
    var n := s.managers[c];
    var r := s.(managers := s.managers - {c}, log := s.log + [Call(n, Cleanup)]);
    CleanupAppend(s.log, n);
    forall d | d in r.managers ensures Call(r.managers[d], Cleanup) !in r.log {
      assert r.managers[d] == s.managers[d] != n;
    }
    forall i | 0 <= i < |r.log| && r.log[i].Call? ensures r.log[i].manager < r.nextManager {
      if i < |s.log| { assert r.log[i] == s.log[i]; }
    }
  }

  /** Registering a fresh manager for a connection without one keeps the invariant. */
  lemma InstallFresh(s: Sessions, c: Conn)
    requires Consistent(s) && c !in s.managers
    ensures Consistent(s.(managers := s.managers[c := s.nextManager], nextManager := s.nextManager + 1))
  {
    var m := s.nextManager;
    assert Call(m, Cleanup) !in s.log by {
      forall k | 0 <= k < |s.log| ensures s.log[k] != Call(m, Cleanup) {
        if s.log[k].Call? { assert s.log[k].manager < m; }
      }
    }
  }

  /** `onOpen` keeps the invariant. */
  lemma OpenKeepsConsistent(s: Sessions, c: Conn, info: OutMessage)
    requires Consistent(s)
    ensures Consistent(OpenStep(s, c, info))
  {
    ExtendLog(s, [Send(c, info)]);
    assert OpenStep(s, c, info) == s.(log := s.log + [Send(c, info)]).(clients := s.clients + {c});
  }

  /** `onClose` keeps the invariant. */
  lemma CloseKeepsConsistent(s: Sessions, c: Conn)
    requires Consistent(s)
    ensures Consistent(CloseStep(s, c))
  {
    if c in s.managers {
      DropManager(s, c);
    }
  }

  /** `onClose` forgets the connection everywhere, cleans its manager up
      exactly once, leaves every other connection as it was, and changes
      nothing for a connection it does not know. */
  lemma CloseForgets(s: Sessions, c: Conn)
    requires Consistent(s)
    ensures var r := CloseStep(s, c);
      && Consistent(r)
      && c !in r.clients && c !in r.managers
      && (forall d :: d != c ==> (d in r.clients <==> d in s.clients) && (d in r.managers <==> d in s.managers))
      && (forall d :: d != c && d in s.managers ==> r.managers[d] == s.managers[d])
      && (c in s.managers ==> r.log == s.log + [Call(s.managers[c], Cleanup)] && Count(r.log, Call(s.managers[c], Cleanup)) == 1)
      && (c !in s.managers ==> r.log == s.log)
      && (c !in s.clients && c !in s.managers ==> r == s)
  {
    if c in s.managers {
      DropManager(s, c);
      CleanupAppend(s.log, s.managers[c]);
    } else if c !in s.clients {
      assert s.clients - {c} == s.clients;
    }
  }

  /** Appending calls to the newest manager `m`. */
  lemma CallsToFresh(log: seq<ServiceEffect>, m: nat, more: seq<ServiceEffect>, x: ManagerCall)
    requires forall i :: 0 <= i < |log| && log[i].Call? ==> log[i].manager < m
    ensures Count(log + more, Call(m, x)) == Count(more, Call(m, x))
  {
    CountAppend(log, more, Call(m, x));
    forall k | 0 <= k < |log| ensures log[k] != Call(m, x) {
      if log[k].Call? { assert log[k].manager < m; }
    }
  }

  /** A fresh manager's setup calls name only that manager, clean nothing
      up, and make each of its calls once. */
  lemma SetupCallsFacts(m: nat, c: Conn, peerThrows: bool, last: ManagerCall)
    requires !last.Cleanup? && !last.CreatePeerConnection? && !last.Created?
    ensures var more := SetupCalls(m, c, peerThrows, last);
      && (forall i :: 0 <= i < |more| ==> more[i].Call? && more[i].manager == m && !more[i].call.Cleanup?)
      && Count(more, Call(m, CreatePeerConnection(c))) == 1
      && Count(more, Call(m, last)) == (if peerThrows then 0 else 1)
      && Count(more, Call(m, Cleanup)) == 0
  {
    var more := SetupCalls(m, c, peerThrows, last);
    assert more[1..][1..] == (if peerThrows then [] else [Call(m, last)]);
  }

  /** Setting up a fresh manager for a connection without one, registered
      or not, keeps the invariant. */
  lemma SetupKeepsConsistent(s: Sessions, c: Conn, peerThrows: bool, last: ManagerCall, register: bool)
    requires Consistent(s) && c !in s.managers
    requires !last.Cleanup? && !last.CreatePeerConnection? && !last.Created?
    ensures Consistent(s.(managers := if register then s.managers[c := s.nextManager] else s.managers,
                          nextManager := s.nextManager + 1,
                          log := s.log + SetupCalls(s.nextManager, c, peerThrows, last)))
  {
    var m := s.nextManager;
    var more := SetupCalls(m, c, peerThrows, last);
    SetupCallsShape(m, c, peerThrows, last);
    if register {
      InstallFresh(s, c);
      ExtendLog(s.(managers := s.managers[c := m], nextManager := m + 1), more);
    } else {
      ExtendLog(s.(nextManager := m + 1), more);
    }
  }

  /** A fresh manager's setup calls name only that manager and clean nothing up. */
  lemma SetupCallsShape(m: nat, c: Conn, peerThrows: bool, last: ManagerCall)
    requires !last.Cleanup?
    ensures var more := SetupCalls(m, c, peerThrows, last);
      forall i :: 0 <= i < |more| ==> more[i].Call? && more[i].manager == m && !more[i].call.Cleanup?
  {
  }

  /** Cleaning up and dropping the connection's manager, if any. */
  function Dropped(s: Sessions, c: Conn): Sessions {
    s.(managers := s.managers - {c}, log := CleanedLog(s, c))
  }

  lemma DroppedKeepsConsistent(s: Sessions, c: Conn)
    requires Consistent(s)
    ensures Consistent(Dropped(s, c)) && c !in Dropped(s, c).managers
  {
    if c in s.managers {
      DropManager(s, c);
    } else {
      assert s.managers - {c} == s.managers;
      assert Dropped(s, c) == s;
    }
  }

  /** Putting a key into a map with that key dropped or kept is the same. */
  lemma RemoveThenPut(m: map<Conn, nat>, dropped: map<Conn, nat>, c: Conn, v: nat)
    requires dropped == m || dropped == m - {c}
    ensures dropped[c := v] == m[c := v]
  {
  }

  /** `start_webrtc` keeps the invariant. */
  lemma StartKeepsConsistent(s: Sessions, c: Conn, captureAvailable: bool, peerThrows: bool)
    requires Consistent(s)
    ensures Consistent(StartStep(s, c, captureAvailable, peerThrows))
  {
    if captureAvailable {
      var s1 := Dropped(s, c);
      DroppedKeepsConsistent(s, c);
      SetupKeepsConsistent(s1, c, peerThrows, CreateOfferWithVideo, true);
      assert s1.managers[c := s.nextManager] == s.managers[c := s.nextManager];
    }
  }

  /** `start_webrtc` with a capture service installs a fresh manager for
      the connection, different from every manager held before; other
      connections keep theirs. Without a capture service nothing changes. */
  lemma StartReplacesManager(s: Sessions, c: Conn, captureAvailable: bool, peerThrows: bool)
    requires Consistent(s)
    ensures var r := StartStep(s, c, captureAvailable, peerThrows);
      && (!captureAvailable ==> r == s)
      && (captureAvailable ==>
            && r.clients == s.clients
            && r.managers.Keys == s.managers.Keys + {c}
            && r.managers[c] == s.nextManager
            && (forall d :: d in s.managers ==> s.managers[d] != r.managers[c])
            && (forall d :: d in s.managers && d != c ==> r.managers[d] == s.managers[d]))
  {
  }

  /** `start_webrtc` with a capture service cleans the connection's previous
      manager up exactly once, and gives the fresh one exactly one peer
      connection and, unless that throws, exactly one offer. */
  lemma StartCallsOnce(s: Sessions, c: Conn, peerThrows: bool)
    requires Consistent(s)
    ensures var r := StartStep(s, c, true, peerThrows);
      && (c in s.managers ==> Count(r.log, Call(s.managers[c], Cleanup)) == 1)
      && Count(r.log, Call(s.nextManager, CreatePeerConnection(c))) == 1
      && Count(r.log, Call(s.nextManager, CreateOfferWithVideo)) == (if peerThrows then 0 else 1)
      && Count(r.log, Call(s.nextManager, Cleanup)) == 0
  {
    var m := s.nextManager;
    var cleaned := CleanedLog(s, c);
    var more := StartCalls(m, c, peerThrows);
    SetupCallsFacts(m, c, peerThrows, CreateOfferWithVideo);
    if c in s.managers {
      CleanupAppend(s.log, s.managers[c]);
      CountAppend(cleaned, more, Call(s.managers[c], Cleanup));
      assert Call(s.managers[c], Cleanup) !in more;
    }
    CleanedCallsIssued(s, c);
    CallsToFresh(cleaned, m, more, CreatePeerConnection(c));
    CallsToFresh(cleaned, m, more, CreateOfferWithVideo);
    CallsToFresh(cleaned, m, more, Cleanup);
  }

  lemma CleanedCallsIssued(s: Sessions, c: Conn)
    requires Consistent(s)
    ensures var cleaned := CleanedLog(s, c);
      forall i :: 0 <= i < |cleaned| && cleaned[i].Call? ==> cleaned[i].manager < s.nextManager
  {
    var cleaned := CleanedLog(s, c);
    forall i | 0 <= i < |cleaned| && cleaned[i].Call? ensures cleaned[i].manager < s.nextManager {
      if i < |s.log| { assert cleaned[i] == s.log[i]; }
    }
  }

  /** `handleOffer` keeps the invariant. */
  lemma OfferKeepsConsistent(s: Sessions, c: Conn, o: JsonObject, captureAvailable: bool, peerThrows: bool)
    requires Consistent(s)
    ensures Consistent(OfferStep(s, c, o, captureAvailable, peerThrows))
  {
    if captureAvailable {
      if c in s.managers {
        ExtendLog(s, [Call(s.managers[c], ForwardOffer(o))]);
      } else {
        SetupKeepsConsistent(s, c, peerThrows, ForwardOffer(o), !peerThrows);
      }
    }
  }

  /** `offer` reuses the connection's manager; without one it creates a fresh
      one, registered only when its peer connection succeeds. Without a
      capture service nothing changes. */
  lemma OfferReusesManager(s: Sessions, c: Conn, o: JsonObject, captureAvailable: bool, peerThrows: bool)
    requires Consistent(s)
    ensures var r := OfferStep(s, c, o, captureAvailable, peerThrows);
      && (!captureAvailable ==> r == s)
      && (captureAvailable && c in s.managers ==>
            r == s.(log := s.log + [Call(s.managers[c], ForwardOffer(o))]))
      && (captureAvailable && c !in s.managers ==>
            && r.managers == (if peerThrows then s.managers else s.managers[c := s.nextManager])
            && r.nextManager == s.nextManager + 1
            && Count(r.log, Call(s.nextManager, CreatePeerConnection(c))) == 1
            && Count(r.log, Call(s.nextManager, ForwardOffer(o))) == (if peerThrows then 0 else 1))
      && r.clients == s.clients
  {
    if captureAvailable {
      var m := s.nextManager;
      if c !in s.managers {
        var more := SetupCalls(m, c, peerThrows, ForwardOffer(o));
        SetupCallsFacts(m, c, peerThrows, ForwardOffer(o));
        CallsToFresh(s.log, m, more, CreatePeerConnection(c));
        CallsToFresh(s.log, m, more, ForwardOffer(o));
      }
    }
  }

  /** `answer` and `ice_candidate` go to this connection's manager only:
      nothing changes without one, and no other session's manager is called. */
  lemma ForwardTouchesOnlyOwnManager(s: Sessions, c: Conn, call: ManagerCall)
    requires Consistent(s) && !call.Cleanup?
    ensures var r := ForwardStep(s, c, call);
      && Consistent(r)
      && r.clients == s.clients && r.managers == s.managers && r.nextManager == s.nextManager
      && (c !in s.managers ==> r == s)
      && (c in s.managers ==> r.log == s.log + [Call(s.managers[c], call)])
      && (forall d :: d in s.managers && d != c ==>
            forall i :: |s.log| <= i < |r.log| ==> r.log[i] != Call(s.managers[d], call))
  {
    if c in s.managers {
      ExtendLog(s, [Call(s.managers[c], call)]);
    }
  }

  /** Every message keeps the invariant; an unknown, untyped or malformed
      message and `control_event` change nothing. */
  lemma MessageKeepsConsistent(s: Sessions, c: Conn, msg: Inbound, connOpen: bool, captureAvailable: bool,
                               peerThrows: bool, info: OutMessage)
    requires Consistent(s)
    ensures Consistent(MessageStep(s, c, msg, connOpen, captureAvailable, peerThrows, info))
    ensures Route(msg).None? || Route(msg) == Some(ControlHandler) ==>
      MessageStep(s, c, msg, connOpen, captureAvailable, peerThrows, info) == s
    ensures MessageStep(s, c, msg, connOpen, captureAvailable, peerThrows, info).clients == s.clients
  {
    match Route(msg)
    case Some(PingHandler) =>
      if connOpen { ExtendLog(s, [Send(c, info)]); }
    case Some(StartHandler) =>
      StartKeepsConsistent(s, c, captureAvailable, peerThrows);
    case Some(OfferHandler) =>
      OfferKeepsConsistent(s, c, msg.fields, captureAvailable, peerThrows);
    case Some(AnswerHandler) =>
      ForwardTouchesOnlyOwnManager(s, c, ForwardAnswer(msg.fields));
    case Some(IceHandler) =>
      ForwardTouchesOnlyOwnManager(s, c, ForwardIceCandidate(msg.fields));
    case Some(ControlHandler) =>
    case None =>
  }

  /** The same text sent to each connection of `receivers`, in that order. */
  function TextTo(receivers: seq<Conn>, text: string): (r: seq<ServiceEffect>)
    ensures |r| == |receivers|
    ensures forall i :: 0 <= i < |r| ==> r[i] == SendText(receivers[i], text)
  {
    seq(|receivers|, i requires 0 <= i < |receivers| => SendText(receivers[i], text))
  }

  /** The sends `broadcastMessage` issues, walking the client set in some
      order: the receivers are the clients whose socket is open, each exactly
      once. */
  method BroadcastSends(text: string, clients: set<Conn>, open: set<Conn>)
    returns (sends: seq<ServiceEffect>, ghost receivers: seq<Conn>)
    ensures sends == TextTo(receivers, text)
    ensures multiset(receivers) == multiset(clients * open)
  {
    var remaining := clients;
    ghost var visited: set<Conn> := {};
    sends, receivers := [], [];
    while remaining != {}
      invariant visited <= clients && remaining == clients - visited
      invariant sends == TextTo(receivers, text)
      invariant multiset(receivers) == multiset(visited * open)
      decreases remaining
    {
      var client :| client in remaining;
      if client in open {
        sends, receivers := sends + [SendText(client, text)], receivers + [client];
        assert (visited + {client}) * open == visited * open + {client};
      } else {
        assert (visited + {client}) * open == visited * open;
      }
      remaining := remaining - {client};
      visited := visited + {client};
    }
    assert visited == clients;
  }

  class WebSocketService {
    var clients: set<Conn>
    var managers: map<Conn, nat>
    var nextManager: nat
    var log: seq<ServiceEffect>
    /** Whether the screen capture service reference is non-null. */
    var captureAvailable: bool
    /** The running server, if any, and the source of fresh server ids. */
    var server: Option<nat>
    var nextServer: nat
    /** `Build.MODEL` and `Build.SERIAL`. */
    const deviceName: string
    const deviceId: string

    ghost function State(): Sessions
      reads this
    {
      Sessions(clients, managers, nextManager, log)
    }

    ghost predicate Valid()
      reads this
    {
      Consistent(State())
    }

    function DeviceInfoMessage(): (m: OutMessage)
      reads this
      ensures m.DeviceInfo? && m.deviceName == deviceName && m.deviceId == deviceId
    {
      DeviceInfo(deviceName, deviceId)
    }

    constructor (deviceName: string, deviceId: string)
      ensures Valid()
      ensures this.deviceName == deviceName && this.deviceId == deviceId
      ensures State() == Sessions({}, map[], 0, []) && !captureAvailable && server.None?
    {
      this.deviceName, this.deviceId := deviceName, deviceId;
      clients, managers, nextManager, log := {}, map[], 0, [];
      captureAvailable := false;
      server, nextServer := None, 0;
    }

    /** `stopExistingServer`: stop a running server; when `stop` throws the
        field is not cleared. */
    method StopExistingServer(stopThrows: bool)
      requires Valid()
      modifies this
      ensures Valid()
      ensures old(server).None? ==> server.None? && log == old(log)
      ensures old(server).Some? ==>
        log == old(log) + [ServerStopRequested(old(server).value)] && server == (if stopThrows then old(server) else None)
      ensures clients == old(clients) && managers == old(managers) && nextManager == old(nextManager)
      ensures captureAvailable == old(captureAvailable) && nextServer == old(nextServer)
    {
      if server.Some? {
        ExtendLog(State(), [ServerStopRequested(server.value)]);
        log := log + [ServerStopRequested(server.value)];
        if !stopThrows {
          server := None;
        }
      }
    }

    /** `startWebSocketServer`: a new server object is stored and started. */
    method StartWebSocketServer()
      requires Valid()
      modifies this
      ensures Valid()
      ensures server == Some(old(nextServer)) && log == old(log) + [ServerStarted(old(nextServer))]
      ensures nextServer == old(nextServer) + 1
      ensures clients == old(clients) && managers == old(managers) && nextManager == old(nextManager)
      ensures captureAvailable == old(captureAvailable)
    {
      ExtendLog(State(), [ServerStarted(nextServer)]);
      log := log + [ServerStarted(nextServer)];
      server := Some(nextServer);
      nextServer := nextServer + 1;
    }

    /** `onCreate`: stop any running server, then start a new one. */
    method OnCreate(stopThrows: bool)
      requires Valid()
      modifies this
      ensures Valid()
      ensures server == Some(old(nextServer)) && nextServer == old(nextServer) + 1
      ensures log == old(log) + (if old(server).Some? then [ServerStopRequested(old(server).value)] else [])
                    + [ServerStarted(old(nextServer))]
      ensures clients == old(clients) && managers == old(managers) && nextManager == old(nextManager)
      ensures captureAvailable == old(captureAvailable)
    {
      StopExistingServer(stopThrows);
      StartWebSocketServer();
    }

    /** `onDestroy`: stop the server. */
    method OnDestroy(stopThrows: bool)
      requires Valid()
      modifies this
      ensures Valid()
      ensures server == (if old(server).Some? && stopThrows then old(server) else None)
      ensures log == old(log) + (if old(server).Some? then [ServerStopRequested(old(server).value)] else [])
      ensures clients == old(clients) && managers == old(managers) && nextManager == old(nextManager)
      ensures captureAvailable == old(captureAvailable) && nextServer == old(nextServer)
    {
      StopExistingServer(stopThrows);
    }

    /** `setScreenCaptureService`, with a null argument as `false`. */
    method SetScreenCaptureService(available: bool)
      modifies this
      ensures captureAvailable == available
      ensures State() == old(State()) && server == old(server) && nextServer == old(nextServer)
    {
      captureAvailable := available;
    }

    method OnOpen(c: Conn)
      requires Valid()
      modifies this
      ensures Valid()
      ensures State() == OpenStep(old(State()), c, DeviceInfoMessage())
      ensures captureAvailable == old(captureAvailable) && server == old(server)
    {
      OpenKeepsConsistent(State(), c, DeviceInfoMessage());
      clients := clients + {c};
      log := log + [Send(c, DeviceInfoMessage())];
    }

    method OnClose(c: Conn)
      requires Valid()
      modifies this
      ensures Valid()
      ensures State() == CloseStep(old(State()), c)
      ensures captureAvailable == old(captureAvailable) && server == old(server)
    {
      ghost var before := State();
      CloseKeepsConsistent(before, c);
      clients := clients - {c};
      if c in managers {
        var manager := managers[c];
        managers, log := managers - {c}, log + [Call(manager, Cleanup)];
      }
      assert State() == CloseStep(before, c);
    }

    method HandlePing(c: Conn, connOpen: bool)
      requires Valid()
      modifies this
      ensures Valid()
      ensures State() == PingStep(old(State()), c, connOpen, DeviceInfoMessage())
      ensures captureAvailable == old(captureAvailable) && server == old(server)
    {
      if connOpen {
        ExtendLog(State(), [Send(c, DeviceInfoMessage())]);
        log := log + [Send(c, DeviceInfoMessage())];
      }
    }

    method HandleStartWebRtc(c: Conn, peerThrows: bool)
      requires Valid()
      modifies this
      ensures Valid()
      ensures State() == StartStep(old(State()), c, captureAvailable, peerThrows)
      ensures captureAvailable == old(captureAvailable) && server == old(server)
    {
      if captureAvailable {
        ghost var before := State();
        DropConnectionManager(c);
        InstallManager(c, peerThrows);
        RemoveThenPut(before.managers, before.managers - {c}, c, before.nextManager);
      }
    }

    /** The first half of `handleStartWebRTC`: clean up and forget this
        connection's manager, if it has one. */
    method DropConnectionManager(c: Conn)
      requires Valid()
      modifies this
      ensures Valid() && c !in managers
      ensures State() == Dropped(old(State()), c)
      ensures captureAvailable == old(captureAvailable) && server == old(server)
    {
      DroppedKeepsConsistent(State(), c);
      if c in managers {
        var existing := managers[c];
        managers, log := managers - {c}, log + [Call(existing, Cleanup)];
      } else {
        managers := managers - {c};
      }
    }

    /** The second half of `handleStartWebRTC`: a fresh manager for the
        connection, its peer connection and, unless that throws, its offer. */
    method InstallManager(c: Conn, peerThrows: bool)
      requires Valid() && c !in managers
      modifies this
      ensures Valid()
      ensures State() == old(State()).(managers := old(managers)[c := old(nextManager)], nextManager := old(nextManager) + 1,
                                       log := old(log) + StartCalls(old(nextManager), c, peerThrows))
      ensures captureAvailable == old(captureAvailable) && server == old(server)
    {
      SetupKeepsConsistent(State(), c, peerThrows, CreateOfferWithVideo, true);
      var manager := nextManager;
      managers, nextManager, log := managers[c := manager], manager + 1, log + StartCalls(manager, c, peerThrows);
    }

    method HandleOffer(c: Conn, json: JsonObject, peerThrows: bool)
      requires Valid()
      modifies this
      ensures Valid()
      ensures State() == OfferStep(old(State()), c, json, captureAvailable, peerThrows)
      ensures captureAvailable == old(captureAvailable) && server == old(server)
    {
      ghost var before := State();
      OfferKeepsConsistent(before, c, json, captureAvailable, peerThrows);
      if captureAvailable {
        if c in managers {
          log := log + [Call(managers[c], ForwardOffer(json))];
        } else {
          var manager := nextManager;
          var calls := [Call(manager, Created), Call(manager, CreatePeerConnection(c))]
                       + (if peerThrows then [] else [Call(manager, ForwardOffer(json))]);
          if !peerThrows {
            managers := managers[c := manager];
          }
          nextManager, log := manager + 1, log + calls;
        }
      }
      assert State() == OfferStep(before, c, json, captureAvailable, peerThrows);
    }

    method HandleAnswer(c: Conn, json: JsonObject)
      requires Valid()
      modifies this
      ensures Valid()
      ensures State() == ForwardStep(old(State()), c, ForwardAnswer(json))
      ensures captureAvailable == old(captureAvailable) && server == old(server)
    {
      ForwardTouchesOnlyOwnManager(State(), c, ForwardAnswer(json));
      if c in managers {
        log := log + [Call(managers[c], ForwardAnswer(json))];
      }
    }

    method HandleIceCandidate(c: Conn, json: JsonObject)
      requires Valid()
      modifies this
      ensures Valid()
      ensures State() == ForwardStep(old(State()), c, ForwardIceCandidate(json))
      ensures captureAvailable == old(captureAvailable) && server == old(server)
    {
      ForwardTouchesOnlyOwnManager(State(), c, ForwardIceCandidate(json));
      if c in managers {
        log := log + [Call(managers[c], ForwardIceCandidate(json))];
      }
    }

    /** `handleControlEvent` only logs: no client, manager or effect changes. */
    method HandleControlEvent(c: Conn, json: JsonObject)
      requires Valid()
      ensures Valid() && unchanged(this)
    {
    }

    /** `handleMessage`. The connection's openness and whether a new peer
        connection throws are what the environment answers. */
    method HandleMessage(c: Conn, msg: Inbound, connOpen: bool, peerThrows: bool)
      requires Valid()
      modifies this
      ensures Valid()
      ensures State() == MessageStep(old(State()), c, msg, connOpen, captureAvailable, peerThrows, DeviceInfoMessage())
      ensures captureAvailable == old(captureAvailable) && server == old(server)
    {
      match Route(msg)
      case Some(PingHandler) => HandlePing(c, connOpen);
      case Some(StartHandler) => HandleStartWebRtc(c, peerThrows);
      case Some(OfferHandler) => HandleOffer(c, msg.fields, peerThrows);
      case Some(AnswerHandler) => HandleAnswer(c, msg.fields);
      case Some(IceHandler) => HandleIceCandidate(c, msg.fields);
      case Some(ControlHandler) => HandleControlEvent(c, msg.fields);
      case None =>
    }
  
    /** `broadcastMessage`: send the text once to every registered client
        whose connection is open (`open` says which are), in the map's
        iteration order, and to no other. */
    method BroadcastMessage(text: string, open: set<Conn>) returns (ghost receivers: seq<Conn>)
      requires Valid()
      modifies this
      ensures Valid()
      ensures clients == old(clients) && managers == old(managers) && nextManager == old(nextManager)
      ensures captureAvailable == old(captureAvailable) && server == old(server)
      ensures log == old(log) + TextTo(receivers, text)
      ensures multiset(receivers) == multiset(clients * open)
    {
      var sends;
      sends, receivers := BroadcastSends(text, clients, open);
      ExtendLog(State(), sends);
      log := log + sends;
    }
  }
}
