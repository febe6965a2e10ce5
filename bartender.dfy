/** js/bartender.js: the bartender's order feed. Each received order becomes
    a card at the top of the feed, replacing the card its table already had;
    the `tableCards` Map remembers the card of each table. "Done" fades a
    card and removes it 200 ms later; an emptied feed shows the "all done"
    placeholder.

    A DOM element is a `FeedItem` in `feed`, the children of the feed
    container in document order; `uid` stands for element identity. The
    pending 200 ms timeouts are `pending`, fired by the environment in any
    order. Sound and toasts (`notify`) are not modelled. */
module Bartender {
  import opened Common
  import opened Protocol

  /** A card element, built from one `new-order` payload. */
  datatype Card = Card(uid: nat, tableId: int, items: seq<OrderItem>, timestamp: int)

  datatype FeedItem = CardItem(card: Card) | EmptyState

  /** The module's state: the feed, the `tableCards` Map, the scheduled
      removals and the next element identity. */
  datatype Board = Board(feed: seq<FeedItem>, tableCards: map<int, Card>, pending: seq<Card>, nextId: nat)

  /** Before `initBartender` the feed is empty. */
  const INITIAL: Board := Board([], map[], [], 0)

  /** No element appears twice among the feed's children. */
  predicate NoDup<T(==)>(s: seq<T>) {
    s == [] || (s[0] !in s[1..] && NoDup(s[1..]))
  }

  /** The feed with the card `uid` removed (`el.remove()`, a no-op for an
      element already detached). */
  function RemoveCard(feed: seq<FeedItem>, uid: nat): (r: seq<FeedItem>)
    ensures forall x :: x in r <==> x in feed && !(x.CardItem? && x.card.uid == uid)
    ensures NoDup(feed) ==> NoDup(r)
  {
    if feed == [] then []
    else if feed[0].CardItem? && feed[0].card.uid == uid then RemoveCard(feed[1..], uid)
    else [feed[0]] + RemoveCard(feed[1..], uid)
  }

  /** `feed.querySelector('.empty-state')?.remove()`: the first placeholder
      goes. */
  function RemoveFirstEmpty(feed: seq<FeedItem>): (r: seq<FeedItem>)
    ensures EmptyState !in feed ==> r == feed
    ensures forall x :: x in r ==> x in feed
    ensures forall x :: x in feed && x != EmptyState ==> x in r
    ensures NoDup(feed) ==> NoDup(r) && EmptyState !in r
  {
    if feed == [] then []
    else if feed[0] == EmptyState then feed[1..]
    else [feed[0]] + RemoveFirstEmpty(feed[1..])
  }

  /** `checkEmpty()`: an empty feed gets the placeholder. */
  function CheckEmpty(feed: seq<FeedItem>): (r: seq<FeedItem>)
    ensures r != []
    ensures feed == [] ==> r == [EmptyState]
    ensures feed != [] ==> r == feed
  {
    if feed == [] then [EmptyState] else feed
  }

  /** The feed's children appear once each, and the placeholder only on
      its own. */
  ghost predicate Shape(feed: seq<FeedItem>) {
    NoDup(feed) && (EmptyState in feed ==> feed == [EmptyState])
  }

  /** Every card on screen is the one `tableCards` holds for its table. */
  ghost predicate Recorded(b: Board) {
    forall x :: x in b.feed && x.CardItem? ==> x.card.tableId in b.tableCards && b.tableCards[x.card.tableId] == x.card
  }

  /** Every card `tableCards` holds is on screen, under its own table. */
  ghost predicate Shown(b: Board) {
    forall t :: t in b.tableCards ==> CardItem(b.tableCards[t]) in b.feed && b.tableCards[t].tableId == t
  }

  /** Element identities: those in use are below `nextId`, and one
      identity is one card. */
  ghost predicate Identified(b: Board) {
    (forall x :: x in b.feed && x.CardItem? ==> x.card.uid < b.nextId) &&
    (forall c :: c in b.pending ==> c.uid < b.nextId) &&
    (forall x, y :: x in b.feed && y in b.feed && x.CardItem? && y.CardItem? && x.card.uid == y.card.uid ==> x == y) &&
    (forall c, x :: c in b.pending && x in b.feed && x.CardItem? && x.card.uid == c.uid ==> x.card == c)
  }

  /** The state the module keeps: as a consequence the feed shows at most
      one card per table (`OneCardPerTable`). */
  ghost predicate Inv(b: Board) {
    Shape(b.feed) && Recorded(b) && Shown(b) && Identified(b)
  }

  /** Two cards of the same table in the feed are the same card. */
  lemma OneCardPerTable(b: Board, x: FeedItem, y: FeedItem)
    requires Inv(b) && x in b.feed && y in b.feed && x.CardItem? && y.CardItem?
    requires x.card.tableId == y.card.tableId
    ensures x == y
  {
  }

  /** `initBartender()`. */
  function Init(b: Board): (r: Board)
    ensures r.feed != [] && (b.feed != [] ==> r.feed == b.feed)
    ensures r.tableCards == b.tableCards && r.pending == b.pending && r.nextId == b.nextId
  {
    b.(feed := CheckEmpty(b.feed))
  }

  /** `onOrderReceived(data)`: the table's old card goes, the new card is
      recorded for the table, the placeholder goes and the card is
      prepended. */
  function Receive(b: Board, tableId: int, items: seq<OrderItem>, timestamp: int): (r: Board)
    ensures r.feed != [] && r.feed[0] == CardItem(Card(b.nextId, tableId, items, timestamp))
    ensures r.tableCards.Keys == b.tableCards.Keys + {tableId} && r.tableCards[tableId] == r.feed[0].card
    ensures r.tableCards - {tableId} == b.tableCards - {tableId}
    ensures r.pending == b.pending && r.nextId == b.nextId + 1
  {
    var f1 := if tableId in b.tableCards then RemoveCard(b.feed, b.tableCards[tableId].uid) else b.feed;
    var card := Card(b.nextId, tableId, items, timestamp);
    var m := (b.tableCards - {tableId})[tableId := card];
    Board([CardItem(card)] + RemoveFirstEmpty(f1), m, b.pending, b.nextId + 1)
  }

  /** A click on "done" of a card that is on screen schedules its removal. */
  function MarkDone(b: Board, c: Card): (r: Board)
    ensures r.feed == b.feed && r.tableCards == b.tableCards && r.nextId == b.nextId
    ensures r.pending == b.pending + [c] <==> CardItem(c) in b.feed
    ensures CardItem(c) !in b.feed ==> r == b
  {
    if CardItem(c) in b.feed then b.(pending := b.pending + [c]) else b
  }

  /** The removal timeout as the code writes it: remove the element, then
      `tableCards.delete(data.tableId)` whatever card the table has now. */
  function FireAsWritten(b: Board, k: nat): (r: Board)
    ensures k >= |b.pending| ==> r == b
    ensures k < |b.pending| ==> r.pending == RemoveAt(b.pending, k) && r.nextId == b.nextId
    ensures k < |b.pending| ==> r.tableCards.Keys == b.tableCards.Keys - {b.pending[k].tableId}
    ensures k < |b.pending| ==> forall x :: x in r.feed && x.CardItem? ==> x in b.feed && x.card.uid != b.pending[k].uid
  {
    if k >= |b.pending| then b
    else
      var c := b.pending[k];
      Board(CheckEmpty(RemoveCard(b.feed, c.uid)), b.tableCards - {c.tableId}, RemoveAt(b.pending, k), b.nextId)
  }

  /** The removal timeout forgetting the table's card only when it is still
      this card. */
  function Fire(b: Board, k: nat): (r: Board)
    ensures k >= |b.pending| ==> r == b
    ensures k < |b.pending| ==> r.pending == RemoveAt(b.pending, k) && r.nextId == b.nextId
    ensures k < |b.pending| ==> forall t :: t in r.tableCards <==>
      t in b.tableCards && !(t == b.pending[k].tableId && b.tableCards[t] == b.pending[k])
    ensures k < |b.pending| ==> forall t :: t in r.tableCards ==> r.tableCards[t] == b.tableCards[t]
    ensures k < |b.pending| ==> forall x :: x in r.feed && x.CardItem? ==> x in b.feed && x.card.uid != b.pending[k].uid
  {
    if k >= |b.pending| then b
    else
      var c := b.pending[k];
      var m := if c.tableId in b.tableCards && b.tableCards[c.tableId] == c then b.tableCards - {c.tableId} else b.tableCards;
      Board(CheckEmpty(RemoveCard(b.feed, c.uid)), m, RemoveAt(b.pending, k), b.nextId)
  }

  lemma InitialInv()
    ensures Inv(INITIAL) && Inv(Init(INITIAL))
    ensures Init(INITIAL).feed == [EmptyState]
  {
  }

  lemma InitInv(b: Board)
    requires Inv(b)
    ensures Inv(Init(b))
  {
  }

  /** What a received order leaves on screen: its card, and the cards of
      the other tables. */
  lemma ReceiveMembers(b: Board, tableId: int, items: seq<OrderItem>, timestamp: int)
    requires Inv(b)
    ensures var r := Receive(b, tableId, items, timestamp); var card := Card(b.nextId, tableId, items, timestamp);
      r.feed[0] == CardItem(card) && NoDup(r.feed) &&
      forall x :: x in r.feed <==> x == CardItem(card) || (x in b.feed && x.CardItem? && x.card.tableId != tableId)
  {
    var card := Card(b.nextId, tableId, items, timestamp);
    var f1 := if tableId in b.tableCards then RemoveCard(b.feed, b.tableCards[tableId].uid) else b.feed;
    assert forall x :: x in f1 <==> x in b.feed && !(x.CardItem? && x.card.tableId == tableId) by {
      forall x | x in b.feed && x.CardItem?
        ensures x in f1 <==> x.card.tableId != tableId
      {
        if tableId in b.tableCards {
          var prev := b.tableCards[tableId];
          assert CardItem(prev) in b.feed;
          if x.card.uid == prev.uid {
            assert x == CardItem(prev);
          }
        }
      }
    }
    var f2 := RemoveFirstEmpty(f1);
    assert NoDup(f1);
    assert forall x :: x in f2 <==> x in f1 && x != EmptyState;
    assert CardItem(card) !in f2;
    var r := Receive(b, tableId, items, timestamp);
    assert r.feed == [CardItem(card)] + f2;
    assert r.feed[1..] == f2;
  }

  /** A received order puts its card first and records it for the table;
      the cards of other tables stay, the table's previous card and the
      placeholder do not. */
  lemma ReceiveEffect(b: Board, tableId: int, items: seq<OrderItem>, timestamp: int)
    requires Inv(b)
    ensures var r := Receive(b, tableId, items, timestamp); var card := Card(b.nextId, tableId, items, timestamp);
      r.feed[0] == CardItem(card) && r.tableCards[tableId] == card && EmptyState !in r.feed &&
      (forall x :: x in b.feed && x.CardItem? && x.card.tableId != tableId ==> x in r.feed) &&
      (forall x :: x in r.feed && x.CardItem? && x != CardItem(card) ==> x in b.feed && x.card.tableId != tableId)
  {
    ReceiveMembers(b, tableId, items, timestamp);
  }

  lemma ReceiveInv(b: Board, tableId: int, items: seq<OrderItem>, timestamp: int)
    requires Inv(b)
    ensures Inv(Receive(b, tableId, items, timestamp))
  {
    ReceiveMembers(b, tableId, items, timestamp);
    var r := Receive(b, tableId, items, timestamp);
    assert Shape(r.feed);
    assert Recorded(r);
    assert Shown(r);
    assert Identified(r);
  }

  /** A click changes only the scheduled removals. */
  lemma ClickInv(b: Board, c: Card)
    requires Inv(b)
    ensures Inv(MarkDone(b, c))
    ensures MarkDone(b, c).feed == b.feed && MarkDone(b, c).tableCards == b.tableCards
  {
  }

  /** The corrected timeout keeps the invariant: the card is gone, the
      feed is never left bare, and the table is forgotten only with its
      own card. */
  lemma FireInv(b: Board, k: nat)
    requires Inv(b)
    ensures Inv(Fire(b, k))
    ensures k < |b.pending| ==> CardItem(b.pending[k]) !in Fire(b, k).feed && Fire(b, k).feed != []
  {
    if k < |b.pending| {
      FireShape(b, k);
      FireShown(b, k);
      FireIdentified(b, k);
    }
  }

  lemma FireShape(b: Board, k: nat)
    requires Inv(b) && k < |b.pending|
    ensures Shape(Fire(b, k).feed) && Recorded(Fire(b, k))
    ensures forall x :: x in Fire(b, k).feed ==> x == EmptyState || (x in b.feed && x.card.uid != b.pending[k].uid)
  {
    var c := b.pending[k];
    var f := RemoveCard(b.feed, c.uid);
    if EmptyState in f {
      assert b.feed == [EmptyState];
      assert b.feed[1..] == [];
      assert RemoveCard(b.feed[1..], c.uid) == [];
      assert f == [EmptyState] + [];
    }
  }

  lemma FireShown(b: Board, k: nat)
    requires Inv(b) && k < |b.pending|
    ensures Shown(Fire(b, k))
  {
    var c := b.pending[k];
    var r := Fire(b, k);
    forall t | t in r.tableCards
      ensures CardItem(r.tableCards[t]) in r.feed
    {
      assert CardItem(b.tableCards[t]) in b.feed;
      assert CardItem(r.tableCards[t]) in RemoveCard(b.feed, c.uid);
    }
  }

  lemma FireIdentified(b: Board, k: nat)
    requires Inv(b) && k < |b.pending|
    ensures Identified(Fire(b, k))
  {
    var r := Fire(b, k);
    assert forall x :: x in r.pending ==> x in b.pending by {
      RemoveAtRestore(b.pending, k);
      assert forall x :: x in r.pending ==> x in multiset(b.pending);
    }
    FireShape(b, k);
  }

  /** The cards of the scenario below: three orders from table 1. */
  const CARD_0: Card := Card(0, 1, [], 0)
  const CARD_1: Card := Card(1, 1, [], 1)
  const CARD_2: Card := Card(2, 1, [], 2)

  /** The board after the first order and the click on its "done". */
  const CLICKED: Board := Board([CardItem(CARD_0)], map[1 := CARD_0], [CARD_0], 1)
  /** ... and after the second order, which replaced the card. */
  const REORDERED: Board := Board([CardItem(CARD_1)], map[1 := CARD_1], [CARD_0], 2)

  lemma ScenarioStart()
    ensures MarkDone(Receive(Init(INITIAL), 1, [], 0), CARD_0) == CLICKED
    ensures Receive(CLICKED, 1, [], 1) == REORDERED
  {
    assert Init(INITIAL).feed == [EmptyState];
    assert Receive(Init(INITIAL), 1, [], 0).feed == [CardItem(CARD_0)];
    assert RemoveCard(CLICKED.feed, 0) == [];
  }

  /** The timeout as written, on that board, forgets the second card. */
  lemma AsWrittenForgets()
    ensures FireAsWritten(REORDERED, 0) == Board([CardItem(CARD_1)], map[], [], 2)
  {
    assert RemoveCard(REORDERED.feed, 0) == [CardItem(CARD_1)];
  }

  /** The corrected timeout leaves the second card recorded. */
  lemma CorrectedKeeps()
    ensures Fire(REORDERED, 0) == Board([CardItem(CARD_1)], map[1 := CARD_1], [], 2)
  {
    assert RemoveCard(REORDERED.feed, 0) == [CardItem(CARD_1)];
  }

  /** The scenario where the timeout as written breaks the invariant:
      table 1 orders, its card is marked done, table 1 orders again before
      the 200 ms pass, the timeout then forgets the new card, and a third
      order from table 1 shows beside it instead of replacing it. */
  lemma FireAsWrittenLosesCard()
    ensures var b := Receive(FireAsWritten(Receive(MarkDone(Receive(Init(INITIAL), 1, [], 0), CARD_0), 1, [], 1), 0), 1, [], 2);
      b.feed == [CardItem(CARD_2), CardItem(CARD_1)] && !Inv(b)
  {
    ScenarioStart();
    AsWrittenForgets();
    var b := Receive(Board([CardItem(CARD_1)], map[], [], 2), 1, [], 2);
    assert b.feed == [CardItem(CARD_2), CardItem(CARD_1)];
    if Inv(b) {
      OneCardPerTable(b, CardItem(CARD_2), CardItem(CARD_1));
    }
  }

  /** The same events with the corrected timeout leave one card, the
      newest, for the table. */
  lemma FireKeepsCard()
    ensures var b := Receive(Fire(Receive(MarkDone(Receive(Init(INITIAL), 1, [], 0), CARD_0), 1, [], 1), 0), 1, [], 2);
      b.feed == [CardItem(CARD_2)] && b.tableCards == map[1 := CARD_2]
  {
    ScenarioStart();
    CorrectedKeeps();
    var b4 := Board([CardItem(CARD_1)], map[1 := CARD_1], [], 2);
    assert RemoveCard(b4.feed, 1) == [];
  }

  /** The module state of js/bartender.js. */
  class Queue {
    var feed: seq<FeedItem>
    var tableCards: map<int, Card>
    var pending: seq<Card>
    var nextId: nat

    function Snap(): Board
      reads this
    {
      Board(feed, tableCards, pending, nextId)
    }

    ghost predicate Valid()
      reads this
    {
      Inv(Snap())
    }

    /** Module load, with an empty feed container. */
    constructor ()
      ensures Snap() == INITIAL && Valid()
    {
      feed := [];
      tableCards := map[];
      pending := [];
      nextId := 0;
    }

    /** `initBartender()`, which renders the placeholder into an empty
        feed. */
    method InitBartender()
      requires Valid()
      modifies this`feed
      ensures Snap() == Init(old(Snap())) && Valid()
    {
      InitInv(Snap());
      feed := CheckEmpty(feed);
    }

    /** `onOrderReceived(data)` for a `new-order` payload. */
    method OnOrderReceived(tableId: int, items: seq<OrderItem>, timestamp: int)
      requires Valid()
      modifies this`feed, this`tableCards, this`nextId
      ensures Snap() == Receive(old(Snap()), tableId, items, timestamp) && Valid()
      ensures feed[0] == CardItem(Card(old(nextId), tableId, items, timestamp))
    {
      ReceiveInv(Snap(), tableId, items, timestamp);
      if tableId in tableCards {
        feed := RemoveCard(feed, tableCards[tableId].uid);
        tableCards := tableCards - {tableId};
      }
      var card := Card(nextId, tableId, items, timestamp);
      tableCards := tableCards[tableId := card];
      feed := [CardItem(card)] + RemoveFirstEmpty(feed);
      nextId := nextId + 1;
    }

    /** The "done" button of card `c`. */
    method ClickDone(c: Card)
      requires Valid()
      modifies this`pending
      ensures Snap() == MarkDone(old(Snap()), c) && Valid()
    {
      ClickInv(Snap(), c);
      if CardItem(c) in feed {
        pending := pending + [c];
      }
    }

    /** The `k`-th scheduled removal firing, corrected as in `Fire`. */
    method FireTimer(k: nat)
      requires Valid()
      modifies this`feed, this`tableCards, this`pending
      ensures Snap() == Fire(old(Snap()), k) && Valid()
    {
      FireInv(Snap(), k);
      if k < |pending| {
        var c := pending[k];
        feed := RemoveCard(feed, c.uid);
        if c.tableId in tableCards && tableCards[c.tableId] == c {
          tableCards := tableCards - {c.tableId};
        }
        feed := CheckEmpty(feed);
        pending := RemoveAt(pending, k);
      }
    }
  }
}
