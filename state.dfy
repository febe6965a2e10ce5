/** The shared `state` record of js/state.js, which every other module reads
    and assigns field by field, and its two resets. `Record` is the value of
    all its fields at one moment; `AppState.Snap()` reads it off the object. */
module State {
  import opened Common
  import opened Protocol
  import opened Menu
  import opened TableData

  /** An entry of `state.peers`, as a `hello` message sets it. */
  datatype PeerInfo = PeerInfo(name: string, role: Option<string>)

  datatype Record = Record(
    role: Option<string>,
    roomId: string,
    sessionCode: string,
    isHost: bool,
    workerName: string,
    peers: map<string, PeerInfo>,
    currentTable: Option<Table>,
    currentPath: seq<MenuNode>,
    currentOrder: seq<OrderItem>,
    barOrders: seq<Message>)

  /** The record as the module creates it. */
  const INITIAL: Record := Record(None, "", "", false, "", map[], None, [], [], [])

  /** `resetWaiterState`: back to table selection with nothing ordered. */
  function ResetWaiter(s: Record): (r: Record)
    ensures r.currentTable == None && r.currentPath == [] && r.currentOrder == []
    ensures r.peers == s.peers && r.barOrders == s.barOrders && r.sessionCode == s.sessionCode
  {
    s.(currentTable := None, currentPath := [], currentOrder := [])
  }

  /** `clearRuntimeState`: the session fields back to their initial values,
      then `resetWaiterState`. */
  function ClearRuntime(s: Record): (r: Record)
    ensures r == INITIAL
  {
    ResetWaiter(s.(role := None, roomId := "", sessionCode := "", isHost := false, workerName := "",
                   peers := map[], barOrders := []))
  }

  /** The waiter reset empties the table, path and order and keeps the
      session, the known peers and the received orders. */
  lemma ResetWaiterEffect(s: Record)
    ensures ResetWaiter(s).currentTable == None && ResetWaiter(s).currentPath == [] && ResetWaiter(s).currentOrder == []
    ensures ResetWaiter(s).role == s.role && ResetWaiter(s).roomId == s.roomId
    ensures ResetWaiter(s).sessionCode == s.sessionCode && ResetWaiter(s).isHost == s.isHost
    ensures ResetWaiter(s).workerName == s.workerName && ResetWaiter(s).peers == s.peers
    ensures ResetWaiter(s).barOrders == s.barOrders
  {
  }

  /** Both resets are idempotent, and the full reset absorbs the waiter
      reset before it. */
  lemma ResetsIdempotent(s: Record)
    ensures ResetWaiter(ResetWaiter(s)) == ResetWaiter(s)
    ensures ClearRuntime(ClearRuntime(s)) == ClearRuntime(s)
    ensures ClearRuntime(ResetWaiter(s)) == ClearRuntime(s)
  {
  }

  /** The exported `state` object. */
  class AppState {
    var role: Option<string>
    var roomId: string
    var sessionCode: string
    var isHost: bool
    var workerName: string
    var peers: map<string, PeerInfo>
    var currentTable: Option<Table>
    var currentPath: seq<MenuNode>
    var currentOrder: seq<OrderItem>
    var barOrders: seq<Message>

    function Snap(): Record
      reads this
    {
      Record(role, roomId, sessionCode, isHost, workerName, peers, currentTable, currentPath, currentOrder, barOrders)
    }

    constructor ()
      ensures Snap() == INITIAL
    {
      role := None;
      roomId := "";
      sessionCode := "";
      isHost := false;
      workerName := "";
      peers := map[];
      currentTable := None;
      currentPath := [];
      currentOrder := [];
      barOrders := [];
    }

    method ResetWaiterState()
      modifies this`currentTable, this`currentPath, this`currentOrder
      ensures Snap() == ResetWaiter(old(Snap()))
    {
      currentTable := None;
      currentPath := [];
      currentOrder := [];
    }

    method ClearRuntimeState()
      modifies this
      ensures Snap() == ClearRuntime(old(Snap()))
      ensures Snap() == INITIAL
    {
      role := None;
      roomId := "";
      sessionCode := "";
      isHost := false;
      workerName := "";
      peers := map[];
      barOrders := [];
      ResetWaiterState();
    }
  }
}
