/** The wire messages peers exchange over the mesh and the status events the
    network layer reports to the application (js/network.js, js/app.js,
    js/waiter.js). A frame is a JSON object; the variants below are the
    shapes the code distinguishes. */
module Protocol {
  import opened Common

  /** One line of an order, as the waiter's `confirmQty` builds it. */
  datatype OrderItem = OrderItem(id: string, caption: string, qty: int, context: string)

  datatype Message =
    /** `{ __hb: 1, t }`: a liveness ping. */
    | Heartbeat(t: int)
    /** `{ type: 'hello', name, role, sessionCode }`. */
    | Hello(name: string, role: Option<string>, sessionCode: string)
    /** `{ type: 'new-order', tableId, items, timestamp }`. */
    | NewOrder(tableId: int, items: seq<OrderItem>, timestamp: int)
    /** `{ type: 'NETWORK_UPDATE', peerId, at }`. */
    | NetworkUpdate(peerId: string, at: int)
    /** Any other object frame, identified by its `type` field. */
    | Other(kind: string)

  /** The objects passed to the `onStatus` callback. */
  datatype Status =
    | Connected(peers: nat)
    | Join(peerId: string, peers: nat)
    | Leave(peerId: string, peers: nat)
    | Peers(peers: nat)
    | NetUpdate(peerId: string, at: int)
    | Error

  /** A payload handed to the transport's send action; `target` is the
      unicast peer, `None` for a broadcast. */
  datatype Frame = Frame(payload: Message, target: Option<string>)

  /** A frame handed to the application's `onData` callback with its sender. */
  datatype Delivery = Delivery(data: Message, peerId: string)

  /** The session record saved in local storage (`persist` in js/app.js). */
  datatype SavedSession = SavedSession(
    sessionCode: string, roomId: string, isHost: bool, workerName: string, role: Option<string>)
}
