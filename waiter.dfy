/** js/waiter.js: the waiter's screen. A waiter picks a table, walks the
    menu tree, picks a quantity for an item in the quantity dialog, and
    sends the order to the bar, which also processes it locally.

    The screen's navigation and order live in the shared state (module
    State); `Enter`, `Back`, `AddLine`, ... are the changes the click
    handlers make to it, and `WaiterView` holds the dialog's own variables
    `pendingItem` and `pendingQty`. Rendering, toasts and the modal history
    are not modelled; a confirmation dialog's answer is a parameter. */
module Waiter {
  import opened Common
  import opened Protocol
  import opened Menu
  import opened TableData
  import opened State
  import Network
  import Bartender

  /** `qtyPresets`, the quantity buttons of the dialog. */
  const QTY_PRESETS: seq<int> := [1, 2, 3, 4, 5, 6, 8, 10, 12, 16, 20, 24]

  /** `Math.round(v)`: the nearest integer, halves rounded up. */
  function Round(v: real): (r: int)
    ensures r as real - 0.5 <= v < r as real + 0.5
  {
    (v + 0.5).Floor
  }

  /** `clampQty(value)`: rounded, then held within 1..99. */
  function ClampQty(v: real): (r: int)
    ensures 1 <= r <= 99
    ensures 1 <= Round(v) <= 99 ==> r == Round(v)
    ensures Round(v) < 1 ==> r == 1
    ensures Round(v) > 99 ==> r == 99
  {
    Min(99, Max(1, Round(v)))
  }

  /** Clamping keeps a whole quantity already in range, and clamping twice
      is clamping once. */
  lemma ClampQtyKeeps(q: int)
    ensures 1 <= q <= 99 ==> ClampQty(q as real) == q
    ensures ClampQty(ClampQty(q as real) as real) == ClampQty(q as real)
  {
    assert Round(q as real) == q;
    assert Round(ClampQty(q as real) as real) == ClampQty(q as real);
  }

  /** Clamping is monotone. */
  lemma ClampQtyMonotone(v: real, w: real)
    requires v <= w
    ensures ClampQty(v) <= ClampQty(w)
  {
    assert Round(v) <= Round(w);
  }

  /** Every preset is a quantity the dialog keeps as it is. */
  lemma PresetsInRange()
    ensures forall i :: 0 <= i < |QTY_PRESETS| ==> ClampQty(QTY_PRESETS[i] as real) == QTY_PRESETS[i]
  {
    forall i | 0 <= i < |QTY_PRESETS|
      ensures ClampQty(QTY_PRESETS[i] as real) == QTY_PRESETS[i]
    {
      ClampQtyKeeps(QTY_PRESETS[i]);
    }
  }

  /** The column count of the table grid: 3 when the count is a multiple
      of 3 but not of 4, else 4. */
  function Columns(count: nat): (cols: nat)
    ensures cols == 3 || cols == 4
  {
    if count % 4 != 0 && count % 3 == 0 then 3 else 4
  }

  /** A count that is a multiple of 3 or of 4 fills every row, and 4
      columns are taken whenever they fill the rows. */
  lemma ColumnsFillRows(count: nat)
    ensures (count % 3 == 0 || count % 4 == 0) ==> count % Columns(count) == 0
    ensures count % 4 == 0 ==> Columns(count) == 4
    ensures Columns(count) == 3 <==> count % 3 == 0 && count % 4 != 0
  {
  }

  /** The captions of the categories walked into. */
  function Captions(path: seq<MenuNode>): (r: seq<string>)
    ensures |r| == |path|
    ensures forall i :: 0 <= i < |path| ==> r[i] == path[i].caption
  {
    seq(|path|, i requires 0 <= i < |path| => path[i].caption)
  }

  /** The `context` of an order line: the path's captions joined by
      spaces. */
  function Context(path: seq<MenuNode>): (r: string)
    ensures |path| > 1 ==> r == path[0].caption + " " + Context(path[1..])
    ensures forall i :: 0 <= i < |path| ==> |path[i].caption| <= |r|
  {
    assert |path| > 1 ==> Captions(path)[1..] == Captions(path[1..]);
    Common.Join(Captions(path), " ")
  }

  /** The context at the menu root is empty, and one level down it is that
      category's caption. */
  lemma ContextLevels(c: MenuNode)
    ensures Context([]) == ""
    ensures Context([c]) == c.caption
  {
    assert Captions([c]) == [c.caption];
  }

  /** The items the grid shows: the children of the innermost category,
      or the menu at the root. */
  function Level(s: Record, menu: Forest): (r: Forest)
    ensures s.currentPath == [] ==> r == menu
    ensures s.currentPath != [] ==> r == s.currentPath[|s.currentPath| - 1].children
  {
    if |s.currentPath| > 0 then s.currentPath[|s.currentPath| - 1].children else menu
  }

  /** A table button: the table is chosen and the menu starts at its
      root. */
  function SelectTable(s: Record, tbl: Table): (r: Record)
    ensures r.currentTable == Some(tbl) && r.currentPath == []
    ensures r.(currentTable := s.currentTable, currentPath := s.currentPath) == s
  {
    s.(currentTable := Some(tbl), currentPath := [])
  }

  /** A category button: one level down. */
  function Enter(s: Record, item: MenuNode): (r: Record)
    ensures forall menu :: Level(r, menu) == item.children
    ensures |r.currentPath| == |s.currentPath| + 1 && r.currentPath[..|s.currentPath|] == s.currentPath
    ensures r.(currentPath := s.currentPath) == s
  {
    s.(currentPath := s.currentPath + [item])
  }

  /** `handleBack()`: up one menu level, else back to the tables, else the
      lobby is asked for (the flag) and the state is left alone. */
  function Back(s: Record): (r: (Record, bool))
    ensures r.1 ==> r.0 == s
    ensures s.currentPath != [] ==> r.0 == s.(currentPath := s.currentPath[..|s.currentPath| - 1])
    ensures s.currentPath == [] && s.currentTable.Some? ==> r.0 == s.(currentTable := None)
    ensures r.0.currentOrder == s.currentOrder
  {
    if |s.currentPath| > 0 then (s.(currentPath := s.currentPath[..|s.currentPath| - 1]), false)
    else if s.currentTable.Some? then (s.(currentTable := None), false)
    else (s, true)
  }

  /** Back undoes a step into a category, and from a freshly chosen table
      it returns to table selection; only at table selection does it leave
      for the lobby. */
  lemma BackUndoes(s: Record, item: MenuNode, tbl: Table)
    ensures Back(Enter(s, item)) == (s, false)
    ensures Back(SelectTable(s, tbl)) == (s.(currentTable := None, currentPath := []), false)
    ensures Back(s).1 <==> s.currentPath == [] && s.currentTable.None?
  {
    assert (s.currentPath + [item])[..|s.currentPath|] == s.currentPath;
  }

  /** Walking into categories and back out again, level by level, ends
      where it started. */
  lemma {:induction false} BackOutOf(s: Record, items: seq<MenuNode>)
    ensures BackN(s.(currentPath := s.currentPath + items), |items|) == s
  {
    if items == [] {
      assert s.currentPath + items == s.currentPath;
    } else {
      var last := items[|items| - 1];
      var front := items[..|items| - 1];
      assert s.currentPath + items == (s.currentPath + front) + [last];
      BackOutOf(s, front);
    }
  }

  /** `n` presses of the back button. */
  function BackN(s: Record, n: nat): Record
    decreases n
  {
    if n == 0 then s else BackN(Back(s).0, n - 1)
  }

  /** `confirmQty(qty)` with a pending item: a line for it is appended. */
  function AddLine(s: Record, item: MenuNode, qty: real): (r: Record)
    ensures |r.currentOrder| == |s.currentOrder| + 1 && r.currentOrder[..|s.currentOrder|] == s.currentOrder
    ensures r.(currentOrder := s.currentOrder) == s
  {
    s.(currentOrder := s.currentOrder + [OrderItem(item.id, item.caption, ClampQty(qty), Context(s.currentPath))])
  }

  /** A row's remove button: `splice(idx, 1)`. */
  function RemoveLine(s: Record, idx: nat): (r: Record)
    ensures |r.currentOrder| == if idx < |s.currentOrder| then |s.currentOrder| - 1 else |s.currentOrder|
    ensures r.(currentOrder := s.currentOrder) == s
  {
    s.(currentOrder := RemoveAt(s.currentOrder, idx))
  }

  /** `clearOrder()`: an order with lines is emptied once the user
      confirms. */
  function ClearLines(s: Record, confirmed: bool): (r: Record)
    ensures r.currentOrder == [] <==> s.currentOrder == [] || confirmed
    ensures r.currentOrder != [] ==> r == s
    ensures r.(currentOrder := s.currentOrder) == s
  {
    if |s.currentOrder| > 0 && confirmed then s.(currentOrder := []) else s
  }

  /** An added line carries the item, its clamped quantity and the path,
      and keeps the lines before it; removing it again restores the order. */
  lemma AddLineEffect(s: Record, item: MenuNode, qty: real)
    ensures var o := AddLine(s, item, qty).currentOrder;
      |o| == |s.currentOrder| + 1 && o[..|s.currentOrder|] == s.currentOrder &&
      o[|s.currentOrder|].id == item.id && o[|s.currentOrder|].caption == item.caption &&
      1 <= o[|s.currentOrder|].qty <= 99 && o[|s.currentOrder|].context == Context(s.currentPath)
    ensures RemoveLine(AddLine(s, item, qty), |s.currentOrder|) == s
  {
    var o := AddLine(s, item, qty).currentOrder;
    assert RemoveAt(o, |s.currentOrder|) == s.currentOrder;
  }

  /** Removing row idx takes out exactly that line and keeps the others;
      clearing empties the order only when confirmed, and only the order. */
  lemma LineRemoval(s: Record, idx: nat, confirmed: bool)
    ensures idx < |s.currentOrder| ==>
      multiset(RemoveLine(s, idx).currentOrder) + multiset{s.currentOrder[idx]} == multiset(s.currentOrder)
    ensures idx >= |s.currentOrder| ==> RemoveLine(s, idx) == s
    ensures ClearLines(s, confirmed).currentOrder == (if confirmed then [] else s.currentOrder)
    ensures ClearLines(s, confirmed) == s.(currentOrder := ClearLines(s, confirmed).currentOrder)
  {
    if idx < |s.currentOrder| {
      RemoveAtRestore(s.currentOrder, idx);
    }
  }

  /** The `new-order` payload `sendOrder` builds, or none when there is
      no table or no line. */
  function OrderPayload(s: Record, now: int): (r: Option<Message>)
    ensures r.Some? <==> s.currentTable.Some? && |s.currentOrder| > 0
    ensures r.Some? ==> r.value == NewOrder(s.currentTable.value.id, s.currentOrder, now)
  {
    if s.currentTable.None? || |s.currentOrder| == 0 then None
    else Some(NewOrder(s.currentTable.value.id, s.currentOrder, now))
  }

  /** The quantity dialog's module variables. */
  class WaiterView {
    var pendingItem: Option<MenuNode>
    var pendingQty: int
    /** The dialog's `open` attribute. */
    var qtyOpen: bool

    predicate Valid()
      reads this
    {
      1 <= pendingQty <= 99
    }

    constructor ()
      ensures Valid() && pendingItem == None && pendingQty == 1 && !qtyOpen
    {
      pendingItem := None;
      pendingQty := 1;
      qtyOpen := false;
    }

    /** `setQty(value)`, also a preset button. */
    method SetQty(v: real)
      modifies this`pendingQty
      ensures pendingQty == ClampQty(v) && Valid()
    {
      pendingQty := Min(99, Max(1, (v + 0.5).Floor));
    }

    /** `stepQty(delta)`, the +/- buttons. */
    method StepQty(delta: real)
      modifies this`pendingQty
      ensures pendingQty == ClampQty(old(pendingQty) as real + delta) && Valid()
    {
      SetQty(pendingQty as real + delta);
    }

    /** The dialog's clear button. */
    method ClearQty()
      modifies this`pendingQty
      ensures pendingQty == 1 && Valid()
    {
      pendingQty := 1;
    }

    /** The close button, the backdrop and the modal's history entry. */
    method CloseQty()
      modifies this`qtyOpen, this`pendingItem
      ensures !qtyOpen && pendingItem == None
    {
      qtyOpen := false;
      pendingItem := None;
    }

    /** `openQty(item)`. */
    method OpenQty(item: MenuNode)
      modifies this
      ensures qtyOpen && pendingItem == Some(item) && pendingQty == 1 && Valid()
    {
      pendingItem := Some(item);
      pendingQty := 1;
      qtyOpen := true;
    }

    /** A menu button: a category with children is entered, anything else
        opens the quantity dialog. */
    method TapItem(st: AppState, item: MenuNode)
      modifies this, st`currentPath
      ensures |item.children| > 0 ==> st.Snap() == Enter(old(st.Snap()), item) && unchanged(this)
      ensures |item.children| == 0 ==>
        st.Snap() == old(st.Snap()) && qtyOpen && pendingItem == Some(item) && pendingQty == 1
    {
      if |item.children| > 0 {
        st.currentPath := st.currentPath + [item];
      } else {
        OpenQty(item);
      }
    }

    /** `confirmQty(qty)`: without a pending item nothing happens;
        otherwise its line is added and the dialog closes. */
    method ConfirmQty(st: AppState, qty: real)
      modifies this`qtyOpen, this`pendingItem, st`currentOrder
      ensures old(pendingItem).None? ==> st.Snap() == old(st.Snap()) && unchanged(this)
      ensures old(pendingItem).Some? ==>
        st.Snap() == AddLine(old(st.Snap()), old(pendingItem).value, qty) && !qtyOpen && pendingItem == None
    {
      if pendingItem.None? {
        return;
      }
      var item := pendingItem.value;
      var context := Common.Join(Captions(st.currentPath), " ");
      var finalQty := ClampQty(qty);
      st.currentOrder := st.currentOrder + [OrderItem(item.id, item.caption, finalQty, context)];
      qtyOpen := false;
      pendingItem := None;
    }
  }

  /** A table button. */
  method SelectTableAction(st: AppState, tbl: Table)
    modifies st`currentTable, st`currentPath
    ensures st.Snap() == SelectTable(old(st.Snap()), tbl)
  {
    st.currentTable := Some(tbl);
    st.currentPath := [];
  }

  /** A row's remove button. */
  method RemoveRow(st: AppState, idx: nat)
    modifies st`currentOrder
    ensures st.Snap() == RemoveLine(old(st.Snap()), idx)
  {
    st.currentOrder := RemoveAt(st.currentOrder, idx);
  }

  /** `clearOrder()`, with the confirmation dialog's answer. */
  method ClearOrder(st: AppState, confirmed: bool)
    modifies st`currentOrder
    ensures st.Snap() == ClearLines(old(st.Snap()), confirmed)
  {
    if |st.currentOrder| > 0 && confirmed {
      st.currentOrder := [];
    }
  }

  /** `handleBack()`; `toLobby` is the call of `returnToLobby`. */
  method HandleBack(st: AppState) returns (toLobby: bool)
    modifies st`currentPath, st`currentTable
    ensures (st.Snap(), toLobby) == Back(old(st.Snap()))
  {
    toLobby := false;
    if |st.currentPath| > 0 {
      st.currentPath := st.currentPath[..|st.currentPath| - 1];
    } else if st.currentTable.Some? {
      st.currentTable := None;
    } else {
      toLobby := true;
    }
  }

  /** `sendOrder()`: with a table and some lines, the order is broadcast,
      handed to the local bar whether or not it went out, and the waiter
      state is reset. `now` is `Date.now()`, `sendOk` whether the
      transport accepted the frame. */
  method SendOrder(st: AppState, bar: Bartender.Queue, net: Network.Connection, now: int, sendOk: bool)
    returns (sent: bool)
    requires bar.Valid() && net.Valid()
    modifies st`currentTable, st`currentPath, st`currentOrder
    modifies bar`feed, bar`tableCards, bar`nextId
    modifies net`sent, net`reconnectTimer, net`debounceTimers
    ensures bar.Valid() && net.Valid()
    ensures OrderPayload(old(st.Snap()), now).None? ==>
      !sent && st.Snap() == old(st.Snap()) && bar.Snap() == old(bar.Snap()) && net.sent == old(net.sent) &&
      net.reconnectTimer == old(net.reconnectTimer)
    ensures OrderPayload(old(st.Snap()), now).Some? ==>
      var msg := OrderPayload(old(st.Snap()), now).value;
      (sent <==> net.sendAction && sendOk) &&
      net.sent == old(net.sent) + (if sent then [Protocol.Frame(msg, None)] else []) &&
      net.reconnectTimer ==
        (if net.sendAction && !sendOk then Some(now + Network.RECONNECT_DEBOUNCE_MS) else old(net.reconnectTimer)) &&
      bar.Snap() == Bartender.Receive(old(bar.Snap()), msg.tableId, msg.items, now) &&
      st.Snap() == ResetWaiter(old(st.Snap()))
  {
    if st.currentTable.None? || |st.currentOrder| == 0 {
      return false;
    }
    var payload := NewOrder(st.currentTable.value.id, st.currentOrder, now);
    sent := net.Broadcast(Some(payload), "", now, sendOk);
    bar.OnOrderReceived(payload.tableId, payload.items, payload.timestamp);
    st.ResetWaiterState();
  }
}
