/** The mesh connection of js/network.js: presence tracking, heartbeats,
    debounced self-healing reconnects and the send path. The module-level
    `let` variables of the source are the fields of one `Connection`.

    Time is the explicit `now` argument; each timer callback is a `Fire...`
    method that the environment may call once its deadline has passed. The
    transport (`joinRoom`, the `send` action) is represented by its outcome,
    `joinOk` / `sendOk`. The `onStatus` and `onData` callbacks are the logs
    `statusLog` and `dataLog`; the frames given to the send action are `sent`. */
module Network {
  import opened Common
  import opened Protocol
  import opened Presence

  const RECONNECT_DEBOUNCE_MS: int := 1000
  const RECONNECT_COOLDOWN_MS: int := 3000
  const HEARTBEAT_MS: int := 2000
  /** The socket-cleanup tick of `softReconnect` before rejoining. */
  const REJOIN_DELAY_MS: int := 100
  /** The delay before a rejoined peer announces its return. */
  const ANNOUNCE_DELAY_MS: int := 500
  const ROOM_PREFIX: string := "barlink-"

  /** What `setupRoom` did: returned null for an empty room id, joined, or
      rethrew the error of `joinRoom`. */
  datatype SetupOutcome = NoRoom | Joined | Threw

  /** The unicast target of `sendPayload`: a falsy id means broadcast. */
  function Target(targetId: string): (r: Option<string>)
    ensures r.None? <==> targetId == ""
    ensures r.Some? ==> r.value == targetId
  {
    if targetId == "" then None else Some(targetId)
  }

  /** The status events an inbound frame produces after presence is updated:
      only a NETWORK_UPDATE from a known sender reaches `onStatus`. */
  function RouteStatus(data: Message, peerId: string): (r: seq<Status>)
    ensures |r| <= 1
    ensures r != [] <==> data.NetworkUpdate? && peerId != ""
    ensures r != [] ==> r[0] == NetUpdate(peerId, data.at)
  {
    if data.NetworkUpdate? && peerId != "" then [NetUpdate(peerId, data.at)] else []
  }

  /** The frames that reach `onData`: neither heartbeats nor NETWORK_UPDATE
      frames do. */
  function RouteData(data: Message, peerId: string): (r: seq<Delivery>)
    ensures |r| <= 1
    ensures r != [] <==> !data.Heartbeat? && !data.NetworkUpdate?
    ensures r != [] ==> r[0].data == data && r[0].peerId == peerId
  {
    if data.Heartbeat? || data.NetworkUpdate? then [] else [Delivery(data, peerId)]
  }

  /** `roomId || restoredSessionData?.roomId || ''`. */
  function InitialRoomId(roomId: string, restored: Option<SavedSession>): (r: string)
    ensures roomId != "" ==> r == roomId
    ensures roomId == "" && restored.Some? ==> r == restored.value.roomId
    ensures roomId == "" && restored.None? ==> r == ""
  {
    if roomId != "" then roomId
    else if restored.Some? then restored.value.roomId
    else ""
  }

  /** The session code `initNetwork` settles on: the restored one, or else
      the upper-cased suffix of a `barlink-` room id. */
  function InitialSessionCode(roomId: string, restored: Option<SavedSession>): (r: string)
    ensures restored.Some? && restored.value.sessionCode != "" ==> r == restored.value.sessionCode
    ensures (restored.None? || restored.value.sessionCode == "") && StartsWith(roomId, ROOM_PREFIX) ==>
      r == ToUpper(roomId[|ROOM_PREFIX|..])
    ensures (restored.None? || restored.value.sessionCode == "") && !StartsWith(roomId, ROOM_PREFIX) ==> r == ""
  {
    var code := if restored.Some? then restored.value.sessionCode else "";
    if code == "" && StartsWith(roomId, ROOM_PREFIX) then ToUpper(roomId[|ROOM_PREFIX|..]) else code
  }

  /** `clearTimeout` on a pool of pending deadlines: one occurrence goes. */
  function RemoveFirst(pool: seq<int>, d: int): (r: seq<int>)
    ensures d in pool ==> |r| == |pool| - 1
    ensures d !in pool ==> r == pool
  {
    if pool == [] then []
    else if pool[0] == d then pool[1..]
    else [pool[0]] + RemoveFirst(pool[1..], d)
  }

  /** The loop of `checkHealth` on values: walks a snapshot of the table,
      deleting each expired entry from the live table and logging its
      `leave` event with the size left after the deletion. */
  method SweepLoop(entries: Table, now: int, log0: seq<Status>)
    returns (table: Table, log: seq<Status>, changed: bool)
    requires Distinct(entries)
    ensures table == Sweep(entries, now)
    ensures log == log0 + SweepLeaves(entries, now, |entries|)
    ensures changed <==> |table| < |entries|
  {
    table, log, changed := entries, log0, false;
    var i := 0;
    while i < |entries|
      invariant 0 <= i <= |entries|
      invariant SweepFrom(entries, i, now, table, log, changed) ==
        SweepFrom(entries, 0, now, entries, log0, false)
    {
      if Expired(entries[i], now) {
        table := Delete(table, entries[i].id);
        log := log + [Leave(entries[i].id, |table|)];
        changed := true;
      }
      i := i + 1;
    }
    assert entries[..0] == [] && entries[0..] == entries;
    SweepFromResult(entries, 0, now, entries, log0, log0, false);
  }

  class Connection {
    /** Trystero's `selfId`. */
    const selfId: string
    var presence: Table
    /** The handle held in `reconnectTimer`, as the deadline of its timeout. */
    var reconnectTimer: Option<int>
    /** The debounce timeouts pending in the runtime. */
    var debounceTimers: seq<int>
    var lastReconnectAt: int
    /** Whether `heartbeatInterval` holds a handle. */
    var heartbeatInterval: bool
    /** The heartbeat intervals running in the runtime. */
    var heartbeatLoops: nat
    /** Whether `room` / `sendAction` are non-null. */
    var room: bool
    var sendAction: bool
    /** Pending 100 ms rejoin and 500 ms announce timeouts of `softReconnect`;
        the source keeps no handle to them. */
    var rejoinTimers: seq<int>
    var announceTimers: seq<int>
    var currentRoomId: string
    var currentSessionCode: string
    var currentIsHost: bool
    var statusLog: seq<Status>
    var dataLog: seq<Delivery>
    var sent: seq<Frame>

    /** The invariants the module keeps: the presence Map has distinct keys,
        at most one heartbeat interval and at most one debounce timeout run,
        each the one whose handle is stored, and a send action exists exactly
        while a room does, which a running heartbeat needs. */
    ghost predicate Valid()
      reads this
    {
      Distinct(presence) &&
      heartbeatLoops == (if heartbeatInterval then 1 else 0) &&
      debounceTimers == (if reconnectTimer.Some? then [reconnectTimer.value] else []) &&
      sendAction == room &&
      (heartbeatInterval ==> room)
    }

    constructor (selfId: string)
      ensures Valid()
      ensures this.selfId == selfId && presence == []
      ensures reconnectTimer == None && debounceTimers == [] && lastReconnectAt == 0
      ensures !heartbeatInterval && heartbeatLoops == 0 && !room && !sendAction
      ensures rejoinTimers == [] && announceTimers == []
      ensures currentRoomId == "" && currentSessionCode == "" && !currentIsHost
      ensures statusLog == [] && dataLog == [] && sent == []
    {
      this.selfId := selfId;
      presence := [];
      reconnectTimer := None;
      debounceTimers := [];
      lastReconnectAt := 0;
      heartbeatInterval := false;
      heartbeatLoops := 0;
      room := false;
      sendAction := false;
      rejoinTimers := [];
      announceTimers := [];
      currentRoomId := "";
      currentSessionCode := "";
      currentIsHost := false;
      statusLog := [];
      dataLog := [];
      sent := [];
    }

    /** `peerCount()`: the Map's size, which is its number of distinct keys. */
    function PeerCount(): (r: nat)
      reads this
      ensures Valid() ==> r == |Keys(presence)|
    {
      DistinctCardOf();
      |presence|
    }

    lemma DistinctCardOf()
      ensures Valid() ==> |Keys(presence)| == |presence|
    {
      if Valid() { DistinctCard(presence); }
    }

    /** `updateLastSeen`. */
    method UpdateLastSeen(peerId: string, now: int)
      requires Valid()
      modifies this`presence, this`statusLog
      ensures Valid()
      ensures presence == Touch(old(presence), peerId, now)
      ensures statusLog == old(statusLog) + TouchEvents(old(presence), peerId)
    {
      if peerId == "" {
        return;
      }
      var isNew := peerId !in Keys(presence);
      presence := Set(presence, peerId, now);
      if isNew {
        statusLog := statusLog + [Join(peerId, |presence|), Peers(|presence|)];
      }
    }

    /** `checkHealth`: drops every peer silent for more than 6000 ms, reports
        each drop, and forces a reconnect when the last peer went. */
    method CheckHealth(now: int)
      requires Valid()
      modifies this`presence, this`statusLog, this`reconnectTimer, this`debounceTimers
      ensures Valid()
      ensures presence == Sweep(old(presence), now)
      ensures statusLog == old(statusLog) + HealthEvents(old(presence), now)
      ensures reconnectTimer ==
        (if |old(presence)| > 0 && presence == [] then Some(now + RECONNECT_DEBOUNCE_MS) else old(reconnectTimer))
    {
      var hadPeers := |presence| > 0;
      ghost var before := presence;
      var changed := DropExpired(now);
      ghost var leaves := statusLog;
      if changed {
        statusLog := statusLog + [Peers(|presence|)];
      }
      assert statusLog == old(statusLog) + HealthEvents(before, now) by {
        assert leaves == old(statusLog) + SweepLeaves(before, now, |before|);
      }
      if hadPeers && |presence| == 0 {
        ScheduleSoftReconnect(true, now);
      }
    }

    /** The `for ... of` loop of `checkHealth`, deleting from the Map while
        iterating over it. */
    method DropExpired(now: int) returns (changed: bool)
      requires Valid()
      modifies this`presence, this`statusLog
      ensures Valid()
      ensures presence == Sweep(old(presence), now)
      ensures statusLog == old(statusLog) + SweepLeaves(old(presence), now, |old(presence)|)
      ensures changed <==> |presence| < |old(presence)|
    {
      var table, events;
      table, events, changed := SweepLoop(presence, now, statusLog);
      SweepKeys(presence, now);
      presence, statusLog := table, events;
    }

    /** `startHeartbeat`: the previous interval is cleared first. */
    method StartHeartbeat()
      requires Valid() && room
      modifies this`heartbeatInterval, this`heartbeatLoops
      ensures Valid()
      ensures heartbeatInterval && heartbeatLoops == 1
    {
      if heartbeatInterval {
        heartbeatLoops := heartbeatLoops - 1;
      }
      heartbeatInterval := true;
      heartbeatLoops := heartbeatLoops + 1;
    }

    /** `stopHeartbeat`. */
    method StopHeartbeat()
      requires Valid()
      modifies this`heartbeatInterval, this`heartbeatLoops
      ensures Valid()
      ensures !heartbeatInterval && heartbeatLoops == 0
    {
      if heartbeatInterval {
        heartbeatLoops := heartbeatLoops - 1;
      }
      heartbeatInterval := false;
    }

    /** One tick of the heartbeat interval: ping everyone (a throwing send
        forces a reconnect), then check the pulse. */
    method FireHeartbeat(now: int, sendOk: bool)
      requires Valid() && heartbeatLoops > 0
      modifies this`sent, this`reconnectTimer, this`debounceTimers, this`presence, this`statusLog
      ensures Valid()
      ensures sent == old(sent) + (if sendOk then [Frame(Heartbeat(now), None)] else [])
      ensures presence == Sweep(old(presence), now)
      ensures statusLog == old(statusLog) + HealthEvents(old(presence), now)
      ensures reconnectTimer ==
        (if !sendOk || (|old(presence)| > 0 && presence == []) then Some(now + RECONNECT_DEBOUNCE_MS)
         else old(reconnectTimer))
    {
      if room && sendAction {
        if sendOk {
          sent := sent + [Frame(Heartbeat(now), None)];
        } else {
          ScheduleSoftReconnect(true, now);
        }
      }
      CheckHealth(now);
    }

    /** `scheduleSoftReconnect`: an unforced request within 3000 ms of the
        last reconnect is dropped; otherwise the pending timeout is replaced
        by a fresh 1000 ms one. */
    method ScheduleSoftReconnect(force: bool, now: int)
      requires Valid()
      modifies this`reconnectTimer, this`debounceTimers
      ensures Valid()
      ensures reconnectTimer ==
        (if !force && now - lastReconnectAt < RECONNECT_COOLDOWN_MS then old(reconnectTimer)
         else Some(now + RECONNECT_DEBOUNCE_MS))
    {
      if !force && now - lastReconnectAt < RECONNECT_COOLDOWN_MS {
        return;
      }
      if reconnectTimer.Some? {
        debounceTimers := RemoveFirst(debounceTimers, reconnectTimer.value);
      }
      reconnectTimer := Some(now + RECONNECT_DEBOUNCE_MS);
      debounceTimers := debounceTimers + [now + RECONNECT_DEBOUNCE_MS];
    }

    /** The debounce timeout firing: stamp the reconnect, then `softReconnect`. */
    method FireReconnectTimer(now: int)
      requires Valid() && reconnectTimer.Some? && now >= reconnectTimer.value
      modifies this`reconnectTimer, this`debounceTimers, this`lastReconnectAt
      modifies this`heartbeatInterval, this`heartbeatLoops, this`room, this`sendAction
      modifies this`presence, this`statusLog, this`rejoinTimers
      ensures Valid()
      ensures reconnectTimer == None && debounceTimers == [] && lastReconnectAt == now
      ensures currentRoomId == "" ==>
        heartbeatInterval == old(heartbeatInterval) && room == old(room) &&
        presence == old(presence) && statusLog == old(statusLog) && rejoinTimers == old(rejoinTimers)
      ensures currentRoomId != "" ==>
        !heartbeatInterval && heartbeatLoops == 0 && !room && !sendAction && presence == [] &&
        statusLog == old(statusLog) + (if old(presence) != [] then [Peers(0)] else []) &&
        rejoinTimers == old(rejoinTimers) + [now + REJOIN_DELAY_MS]
    {
      debounceTimers := RemoveFirst(debounceTimers, reconnectTimer.value);
      reconnectTimer := None;
      lastReconnectAt := now;
      SoftReconnect(now);
    }

    /** `softReconnect`: tear the room down, forget every peer, and rejoin
        after a short tick. Nothing happens without a room id. */
    method SoftReconnect(now: int)
      requires Valid()
      modifies this`heartbeatInterval, this`heartbeatLoops, this`room, this`sendAction
      modifies this`presence, this`statusLog, this`rejoinTimers
      ensures Valid()
      ensures currentRoomId == "" ==> unchanged(this)
      ensures currentRoomId != "" ==>
        !heartbeatInterval && heartbeatLoops == 0 && !room && !sendAction && presence == [] &&
        statusLog == old(statusLog) + (if old(presence) != [] then [Peers(0)] else []) &&
        rejoinTimers == old(rejoinTimers) + [now + REJOIN_DELAY_MS]
    {
      if currentRoomId == "" {
        return;
      }
      StopHeartbeat();
      room := false;
      sendAction := false;
      if |presence| > 0 {
        presence := [];
        statusLog := statusLog + [Peers(0)];
      }
      rejoinTimers := rejoinTimers + [now + REJOIN_DELAY_MS];
    }

    /** The rejoin tick of `softReconnect`: `setupRoom` on the current room
        id, then the announce timeout, which a throwing `setupRoom` skips. */
    method FireRejoin(k: nat, now: int, joinOk: bool) returns (outcome: SetupOutcome)
      requires Valid() && k < |rejoinTimers| && now >= rejoinTimers[k]
      modifies this`rejoinTimers, this`announceTimers
      modifies this`room, this`sendAction, this`statusLog, this`heartbeatInterval, this`heartbeatLoops
      ensures Valid()
      ensures rejoinTimers == old(rejoinTimers[..k] + rejoinTimers[k + 1..])
      ensures outcome == (if currentRoomId == "" then NoRoom else if joinOk then Joined else Threw)
      ensures outcome == NoRoom ==>
        statusLog == old(statusLog) && room == old(room) && heartbeatInterval == old(heartbeatInterval)
      ensures outcome == Threw ==>
        statusLog == old(statusLog) + [Error] && room == old(room) && heartbeatInterval == old(heartbeatInterval)
      ensures outcome == Joined ==>
        room && sendAction && heartbeatInterval && heartbeatLoops == 1 &&
        statusLog == old(statusLog) + [Connected(|presence|)]
      ensures announceTimers == old(announceTimers) + (if outcome == Threw then [] else [now + ANNOUNCE_DELAY_MS])
    {
      rejoinTimers := rejoinTimers[..k] + rejoinTimers[k + 1..];
      outcome := SetupRoom(currentRoomId, joinOk);
      if outcome != Threw {
        announceTimers := announceTimers + [now + ANNOUNCE_DELAY_MS];
      }
    }

    /** The announce tick: tell the room this peer is back. */
    method FireAnnounce(k: nat, now: int, sendOk: bool) returns (ok: bool)
      requires Valid() && k < |announceTimers| && now >= announceTimers[k]
      modifies this`announceTimers, this`sent, this`reconnectTimer, this`debounceTimers
      ensures Valid()
      ensures announceTimers == old(announceTimers[..k] + announceTimers[k + 1..])
      ensures ok <==> sendAction && sendOk
      ensures sent == old(sent) + (if ok then [Frame(NetworkUpdate(selfId, now), None)] else [])
      ensures reconnectTimer ==
        (if sendAction && !sendOk then Some(now + RECONNECT_DEBOUNCE_MS) else old(reconnectTimer))
    {
      announceTimers := announceTimers[..k] + announceTimers[k + 1..];
      ok := SendPayload(NetworkUpdate(selfId, now), "", now, sendOk);
    }

    /** `setupRoom`. */
    method SetupRoom(roomId: string, joinOk: bool) returns (outcome: SetupOutcome)
      requires Valid()
      modifies this`room, this`sendAction, this`statusLog, this`heartbeatInterval, this`heartbeatLoops
      ensures Valid()
      ensures outcome == (if roomId == "" then NoRoom else if joinOk then Joined else Threw)
      ensures outcome == NoRoom ==> unchanged(this)
      ensures outcome == Threw ==>
        statusLog == old(statusLog) + [Error] && room == old(room) && sendAction == old(sendAction) &&
        heartbeatInterval == old(heartbeatInterval) && heartbeatLoops == old(heartbeatLoops)
      ensures outcome == Joined ==>
        room && sendAction && heartbeatInterval && heartbeatLoops == 1 &&
        statusLog == old(statusLog) + [Connected(|presence|)]
    {
      if roomId == "" {
        return NoRoom;
      }
      if !joinOk {
        statusLog := statusLog + [Error];
        return Threw;
      }
      room := true;
      sendAction := true;
      statusLog := statusLog + [Connected(|presence|)];
      StartHeartbeat();
      outcome := Joined;
    }

    /** The `get` handler of the room: any frame refreshes its sender's
        presence; heartbeats stop there, the rest go to `handleIncoming`. */
    method OnFrame(data: Message, peerId: string, now: int)
      requires Valid()
      modifies this`presence, this`statusLog, this`dataLog
      ensures Valid()
      ensures presence == Touch(old(presence), peerId, now)
      ensures statusLog == old(statusLog) + TouchEvents(old(presence), peerId) + RouteStatus(data, peerId)
      ensures dataLog == old(dataLog) + RouteData(data, peerId)
    {
      UpdateLastSeen(peerId, now);
      if data.Heartbeat? {
        return;
      }
      HandleIncoming(data, peerId);
    }

    /** `handleIncoming`: NETWORK_UPDATE frames become status events (only
        with a sender id) and are never passed on; the rest go to `onData`. */
    method HandleIncoming(data: Message, peerId: string)
      modifies this`statusLog, this`dataLog
      ensures statusLog == old(statusLog) + RouteStatus(data, peerId)
      ensures dataLog == old(dataLog) + (if data.NetworkUpdate? then [] else [Delivery(data, peerId)])
    {
      if data.NetworkUpdate? {
        if peerId != "" {
          statusLog := statusLog + [NetUpdate(peerId, data.at)];
        }
        return;
      }
      dataLog := dataLog + [Delivery(data, peerId)];
    }

    /** `room.onPeerJoin`: register the peer and ping it back directly; a
        failing ping is ignored. */
    method OnPeerJoin(peerId: string, now: int, sendOk: bool)
      requires Valid()
      modifies this`presence, this`statusLog, this`sent
      ensures Valid()
      ensures presence == Touch(old(presence), peerId, now)
      ensures statusLog == old(statusLog) + TouchEvents(old(presence), peerId)
      ensures sent == old(sent) + (if sendAction && sendOk then [Frame(Heartbeat(now), Some(peerId))] else [])
    {
      UpdateLastSeen(peerId, now);
      if sendAction && sendOk {
        sent := sent + [Frame(Heartbeat(now), Some(peerId))];
      }
    }

    /** `room.onPeerLeave`: only a tracked peer is removed and reported. */
    method OnPeerLeave(peerId: string)
      requires Valid()
      modifies this`presence, this`statusLog
      ensures Valid()
      ensures presence == Delete(old(presence), peerId)
      ensures peerId in Keys(old(presence)) ==>
        |presence| == |old(presence)| - 1 &&
        statusLog == old(statusLog) + [Leave(peerId, |presence|), Peers(|presence|)]
      ensures peerId !in Keys(old(presence)) ==> presence == old(presence) && statusLog == old(statusLog)
    {
      DeleteKeys(presence, peerId);
      if peerId in Keys(presence) {
        presence := Delete(presence, peerId);
        statusLog := statusLog + [Leave(peerId, |presence|), Peers(|presence|)];
      }
    }

    /** `sendPayload`: false without a send action; a throwing send forces a
        reconnect and reports false. */
    method SendPayload(payload: Message, targetId: string, now: int, sendOk: bool) returns (ok: bool)
      requires Valid()
      modifies this`sent, this`reconnectTimer, this`debounceTimers
      ensures Valid()
      ensures ok <==> sendAction && sendOk
      ensures sent == old(sent) + (if ok then [Frame(payload, Target(targetId))] else [])
      ensures reconnectTimer ==
        (if sendAction && !sendOk then Some(now + RECONNECT_DEBOUNCE_MS) else old(reconnectTimer))
    {
      if !sendAction {
        return false;
      }
      if sendOk {
        sent := sent + [Frame(payload, Target(targetId))];
        return true;
      }
      ScheduleSoftReconnect(true, now);
      return false;
    }

    /** `initNetwork` (the callbacks are the logs; binding the browser's
        connectivity listeners is not modelled). */
    method InitNetwork(roomId: string, restored: Option<SavedSession>, joinOk: bool)
      returns (outcome: SetupOutcome)
      requires Valid()
      modifies this`currentRoomId, this`currentSessionCode, this`currentIsHost
      modifies this`room, this`sendAction, this`statusLog, this`heartbeatInterval, this`heartbeatLoops
      ensures Valid()
      ensures currentRoomId == InitialRoomId(roomId, restored)
      ensures currentSessionCode == InitialSessionCode(currentRoomId, restored)
      ensures currentIsHost == (restored.Some? && restored.value.isHost)
      ensures outcome == (if currentRoomId == "" then NoRoom else if joinOk then Joined else Threw)
      ensures outcome == NoRoom ==>
        statusLog == old(statusLog) && room == old(room) && sendAction == old(sendAction) &&
        heartbeatInterval == old(heartbeatInterval) && heartbeatLoops == old(heartbeatLoops)
      ensures outcome == Threw ==>
        statusLog == old(statusLog) + [Error] && room == old(room) && sendAction == old(sendAction) &&
        heartbeatInterval == old(heartbeatInterval) && heartbeatLoops == old(heartbeatLoops)
      ensures outcome == Joined ==>
        room && sendAction && heartbeatInterval && heartbeatLoops == 1 &&
        statusLog == old(statusLog) + [Connected(|presence|)]
    {
      currentRoomId := InitialRoomId(roomId, restored);
      currentSessionCode := InitialSessionCode(currentRoomId, restored);
      currentIsHost := restored.Some? && restored.value.isHost;
      outcome := SetupRoom(currentRoomId, joinOk);
    }

    /** `broadcast`: a missing payload or send action gives false. */
    method Broadcast(payload: Option<Message>, targetId: string, now: int, sendOk: bool) returns (ok: bool)
      requires Valid()
      modifies this`sent, this`reconnectTimer, this`debounceTimers
      ensures Valid()
      ensures ok <==> payload.Some? && sendAction && sendOk
      ensures sent == old(sent) + (if ok then [Frame(payload.value, Target(targetId))] else [])
      ensures reconnectTimer ==
        (if payload.Some? && sendAction && !sendOk then Some(now + RECONNECT_DEBOUNCE_MS) else old(reconnectTimer))
    {
      if payload.None? {
        return false;
      }
      if !sendAction {
        return false;
      }
      ok := SendPayload(payload.value, targetId, now, sendOk);
    }
  }
}
