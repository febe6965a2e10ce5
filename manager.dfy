/** The menu editor of js/manager.js: favourites capped at five, adding
    root items and sub-items, deleting an item and folding a node open.

    The editor changes the node objects of the active menu in place and then
    stores the whole menu again. Here a node is addressed by a `Path` (its
    index among the roots, then among each list of children) and each edit
    is a function from the old forest to the new one; the handlers write
    the result back into the `DataStore`. */
module Manager {
  import opened Common
  import opened Menu
  import opened TableData

  const MAX_FAVORITES: nat := 5

  type Path = seq<nat>

  predicate ValidPath(items: Forest, p: Path)
    decreases p
  {
    |p| > 0 && p[0] < |items| && (|p| == 1 || ValidPath(items[p[0]].children, p[1..]))
  }

  /** The node a path leads to. */
  function At(items: Forest, p: Path): MenuNode
    requires ValidPath(items, p)
    decreases p
  {
    if |p| == 1 then items[p[0]] else At(items[p[0]].children, p[1..])
  }

  /** The forest with the node at `p` replaced by `n`. */
  function Put(items: Forest, p: Path, n: MenuNode): (r: Forest)
    requires ValidPath(items, p)
    ensures |r| == |items|
    decreases p
  {
    var i := p[0];
    items[i := if |p| == 1 then n else items[i].(children := Put(items[i].children, p[1..], n))]
  }

  /** Reading back a written node gives it. */
  lemma {:induction false} AtPut(items: Forest, p: Path, n: MenuNode)
    requires ValidPath(items, p)
    ensures ValidPath(Put(items, p, n), p) && At(Put(items, p, n), p) == n
    decreases p
  {
    if |p| > 1 {
      AtPut(items[p[0]].children, p[1..], n);
    }
  }

  /** Writing back the node that is there changes nothing. */
  lemma {:induction false} PutAt(items: Forest, p: Path)
    requires ValidPath(items, p)
    ensures Put(items, p, At(items, p)) == items
    decreases p
  {
    if |p| > 1 {
      PutAt(items[p[0]].children, p[1..]);
    }
  }

  /** A second write to the same place overrides the first. */
  lemma {:induction false} PutPut(items: Forest, p: Path, a: MenuNode, b: MenuNode)
    requires ValidPath(items, p)
    ensures ValidPath(Put(items, p, a), p) && Put(Put(items, p, a), p, b) == Put(items, p, b)
    decreases p
  {
    AtPut(items, p, a);
    if |p| > 1 {
      PutPut(items[p[0]].children, p[1..], a, b);
    }
  }

  /** Paths to nodes neither of which lies below the other. */
  predicate Apart(p: Path, q: Path) {
    !(p <= q) && !(q <= p)
  }

  /** A write leaves every node apart from it as it was. */
  lemma {:induction false} PutElsewhere(items: Forest, p: Path, q: Path, n: MenuNode)
    requires ValidPath(items, p) && ValidPath(items, q) && Apart(p, q)
    ensures ValidPath(Put(items, p, n), q) && At(Put(items, p, n), q) == At(items, q)
    decreases p
  {
    if p[0] == q[0] {
      assert |p| > 1 && |q| > 1;
      assert Apart(p[1..], q[1..]) by {
        assert p == [p[0]] + p[1..] && q == [q[0]] + q[1..];
      }
      PutElsewhere(items[p[0]].children, p[1..], q[1..], n);
    } else {
      var r := Put(items, p, n);
      assert r[q[0]] == items[q[0]];
      if |q| > 1 {
        assert r[q[0]].children == items[q[0]].children;
      }
    }
  }

  /** The favourite total after a write: the old subtree's favourites go,
      the new one's come in. */
  lemma {:induction false} PutFavorites(items: Forest, p: Path, n: MenuNode)
    requires ValidPath(items, p)
    ensures Favorites(Put(items, p, n)) + SubtreeFavorites(At(items, p)) == Favorites(items) + SubtreeFavorites(n)
    decreases p
  {
    var i := p[0];
    var r := Put(items, p, n);
    FavoritesAround(items, i);
    FavoritesAround(r, i);
    assert r[..i] == items[..i] && r[i + 1..] == items[i + 1..];
    if |p| > 1 {
      var kids := items[i].children;
      PutFavorites(kids, p[1..], n);
      SubtreeFavoritesSplit(items[i]);
      SubtreeFavoritesSplit(r[i]);
    }
  }

  /** Changing a node's own fields but not its children moves the total by
      the change of its own flag. */
  lemma FlagChange(items: Forest, p: Path, n: MenuNode)
    requires ValidPath(items, p) && n.children == At(items, p).children
    ensures Favorites(Put(items, p, n)) ==
      Favorites(items) - (if At(items, p).isFavorite then 1 else 0) + (if n.isFavorite then 1 else 0)
  {
    PutFavorites(items, p, n);
    SubtreeFavoritesSplit(At(items, p));
    SubtreeFavoritesSplit(n);
  }

  /** `countFavorites(items)`: a counting loop that recurses into children. */
  method CountFavorites(items: Forest) returns (count: nat)
    ensures count == Favorites(items)
    decreases items
  {
    count := 0;
    for i := 0 to |items|
      invariant count == Favorites(items[..i])
    {
      var item := items[i];
      if item.isFavorite {
        count := count + 1;
      }
      if item.children != [] {
        var sub := CountFavorites(item.children);
        count := count + sub;
      }
      FavoritesSnoc(items[..i], item);
      SubtreeFavoritesSplit(item);
      assert items[..i + 1] == items[..i] + [item];
    }
    assert items[..|items|] == items;
  }

  /** The favourite button: marking is refused once five favourites exist
      anywhere in the menu; unmarking always goes through. */
  function ToggleFavorite(items: Forest, p: Path): (r: Forest)
    requires ValidPath(items, p)
    ensures |r| == |items| && ValidPath(r, p)
    ensures r == items || At(r, p) == At(items, p).(isFavorite := !At(items, p).isFavorite)
  {
    var n := At(items, p);
    if !n.isFavorite then
      if Favorites(items) >= MAX_FAVORITES then items
      else AtPut(items, p, n.(isFavorite := true)); Put(items, p, n.(isFavorite := true))
    else AtPut(items, p, n.(isFavorite := false)); Put(items, p, n.(isFavorite := false))
  }

  /** A refused mark leaves the menu as it was. */
  lemma FavoriteRefused(items: Forest, p: Path)
    requires ValidPath(items, p) && !At(items, p).isFavorite && Favorites(items) >= MAX_FAVORITES
    ensures ToggleFavorite(items, p) == items
  {
  }

  /** An accepted mark flags that node and adds exactly one favourite. */
  lemma FavoriteAccepted(items: Forest, p: Path)
    requires ValidPath(items, p) && !At(items, p).isFavorite && Favorites(items) < MAX_FAVORITES
    ensures ValidPath(ToggleFavorite(items, p), p) && At(ToggleFavorite(items, p), p).isFavorite
    ensures Favorites(ToggleFavorite(items, p)) == Favorites(items) + 1
  {
    var n := At(items, p);
    AtPut(items, p, n.(isFavorite := true));
    FlagChange(items, p, n.(isFavorite := true));
  }

  /** Unmarking clears the flag and removes exactly one favourite. */
  lemma Unfavorite(items: Forest, p: Path)
    requires ValidPath(items, p) && At(items, p).isFavorite
    ensures ValidPath(ToggleFavorite(items, p), p) && !At(ToggleFavorite(items, p), p).isFavorite
    ensures Favorites(ToggleFavorite(items, p)) == Favorites(items) - 1
  {
    var n := At(items, p);
    AtPut(items, p, n.(isFavorite := false));
    FlagChange(items, p, n.(isFavorite := false));
  }

  /** The cap is kept: from at most five favourites the button never leads
      to more. */
  lemma FavoriteCap(items: Forest, p: Path)
    requires ValidPath(items, p) && Favorites(items) <= MAX_FAVORITES
    ensures Favorites(ToggleFavorite(items, p)) <= MAX_FAVORITES
  {
    if At(items, p).isFavorite {
      Unfavorite(items, p);
    } else if Favorites(items) < MAX_FAVORITES {
      FavoriteAccepted(items, p);
    }
  }

  /** The item "add sub-item" appends. */
  function NewChild(freshId: string): MenuNode {
    MenuNode(freshId, None, "", Some(0.0), [], false, false)
  }

  /** "Add sub-item": one new empty child at the end, and the parent opened. */
  function AddSubItem(items: Forest, p: Path, freshId: string): (r: Forest)
    requires ValidPath(items, p)
    ensures |r| == |items| && ValidPath(r, p)
    ensures |At(r, p).children| == |At(items, p).children| + 1
  {
    var n := At(items, p);
    AtPut(items, p, n.(children := n.children + [NewChild(freshId)], isOpen := true));
    Put(items, p, n.(children := n.children + [NewChild(freshId)], isOpen := true))
  }

  lemma AddSubItemEffect(items: Forest, p: Path, freshId: string)
    requires ValidPath(items, p)
    ensures ValidPath(AddSubItem(items, p, freshId), p)
    ensures At(AddSubItem(items, p, freshId), p).children == At(items, p).children + [NewChild(freshId)]
    ensures At(AddSubItem(items, p, freshId), p).isOpen
    ensures At(AddSubItem(items, p, freshId), p) == At(items, p).(children := At(AddSubItem(items, p, freshId), p).children, isOpen := true)
    ensures Favorites(AddSubItem(items, p, freshId)) == Favorites(items)
  {
    var n := At(items, p);
    var m := n.(children := n.children + [NewChild(freshId)], isOpen := true);
    AtPut(items, p, m);
    PutFavorites(items, p, m);
    SubtreeFavoritesSplit(n);
    SubtreeFavoritesSplit(m);
    FavoritesSnoc(n.children, NewChild(freshId));
    SubtreeFavoritesSplit(NewChild(freshId));
  }

  /** "Add item" at the root: an unnamed node with an empty child list. */
  function NewRoot(freshId: string): MenuNode {
    MenuNode(freshId, None, "", None, [], false, false)
  }

  function AddRoot(items: Forest, freshId: string): (r: Forest)
    ensures |r| == |items| + 1 && r[..|items|] == items && r[|items|] == NewRoot(freshId)
  {
    items + [NewRoot(freshId)]
  }

  lemma AddRootEffect(items: Forest, freshId: string)
    ensures |AddRoot(items, freshId)| == |items| + 1
    ensures AddRoot(items, freshId)[..|items|] == items && AddRoot(items, freshId)[|items|] == NewRoot(freshId)
    ensures Favorites(AddRoot(items, freshId)) == Favorites(items)
  {
    FavoritesSnoc(items, NewRoot(freshId));
    SubtreeFavoritesSplit(NewRoot(freshId));
  }

  /** The sibling list a delete works on: the roots for the empty path,
      otherwise the children of the node at `c`. */
  predicate ValidList(items: Forest, c: Path) {
    c == [] || ValidPath(items, c)
  }

  function ListAt(items: Forest, c: Path): Forest
    requires ValidList(items, c)
  {
    if c == [] then items else At(items, c).children
  }

  /** `items.splice(idx, 1)` after the confirmation dialog; nothing when
      the user cancels. */
  function DeleteItem(items: Forest, c: Path, idx: nat, confirmed: bool): (r: Forest)
    requires ValidList(items, c)
    ensures ValidList(r, c)
    ensures |ListAt(r, c)| == if confirmed && idx < |ListAt(items, c)| then |ListAt(items, c)| - 1 else |ListAt(items, c)|
  {
    if !confirmed then items
    else if c == [] then RemoveAt(items, idx)
    else
      var n := At(items, c);
      AtPut(items, c, n.(children := RemoveAt(n.children, idx)));
      Put(items, c, n.(children := RemoveAt(n.children, idx)))
  }

  /** A confirmed delete takes exactly the node at `idx` out of its list and
      leaves its owner otherwise as it was; a cancelled one changes nothing. */
  lemma DeleteEffect(items: Forest, c: Path, idx: nat, confirmed: bool)
    requires ValidList(items, c)
    ensures ValidList(DeleteItem(items, c, idx, confirmed), c)
    ensures ListAt(DeleteItem(items, c, idx, confirmed), c) ==
      (if confirmed then RemoveAt(ListAt(items, c), idx) else ListAt(items, c))
    ensures !confirmed ==> DeleteItem(items, c, idx, confirmed) == items
    ensures c != [] && confirmed ==>
      At(DeleteItem(items, c, idx, confirmed), c) == At(items, c).(children := RemoveAt(At(items, c).children, idx))
  {
    if confirmed && c != [] {
      var n := At(items, c);
      AtPut(items, c, n.(children := RemoveAt(n.children, idx)));
    }
  }

  /** The fold toggle flips `_isOpen` and nothing else. */
  function ToggleOpen(items: Forest, p: Path): (r: Forest)
    requires ValidPath(items, p)
    ensures |r| == |items| && ValidPath(r, p)
    ensures At(r, p).isOpen == !At(items, p).isOpen
  {
    var n := At(items, p);
    AtPut(items, p, n.(isOpen := !n.isOpen));
    Put(items, p, n.(isOpen := !n.isOpen))
  }

  lemma ToggleOpenEffect(items: Forest, p: Path)
    requires ValidPath(items, p)
    ensures ValidPath(ToggleOpen(items, p), p)
    ensures At(ToggleOpen(items, p), p) == At(items, p).(isOpen := !At(items, p).isOpen)
    ensures forall q :: ValidPath(items, q) && Apart(p, q) ==>
      ValidPath(ToggleOpen(items, p), q) && At(ToggleOpen(items, p), q) == At(items, q)
    ensures Favorites(ToggleOpen(items, p)) == Favorites(items)
  {
    var n := At(items, p);
    AtPut(items, p, n.(isOpen := !n.isOpen));
    FlagChange(items, p, n.(isOpen := !n.isOpen));
    forall q | ValidPath(items, q) && Apart(p, q)
      ensures ValidPath(ToggleOpen(items, p), q) && At(ToggleOpen(items, p), q) == At(items, q)
    {
      PutElsewhere(items, p, q, n.(isOpen := !n.isOpen));
    }
  }

  /** Toggling twice restores the menu. */
  lemma ToggleOpenTwice(items: Forest, p: Path)
    requires ValidPath(items, p)
    ensures ValidPath(ToggleOpen(items, p), p) && ToggleOpen(ToggleOpen(items, p), p) == items
  {
    var n := At(items, p);
    AtPut(items, p, n.(isOpen := !n.isOpen));
    PutPut(items, p, n.(isOpen := !n.isOpen), n);
    PutAt(items, p);
  }

  /** The favourite handler: counts the whole menu, refuses a sixth mark
      without storing anything, and stores the menu otherwise. */
  method FavoriteAction(store: DataStore, p: Path) returns (refused: bool)
    requires ValidPath(store.activeMenu, p)
    modifies store`activeMenu, store`savedMenu
    ensures refused <==> !At(old(store.activeMenu), p).isFavorite && Favorites(old(store.activeMenu)) >= MAX_FAVORITES
    ensures store.activeMenu == ToggleFavorite(old(store.activeMenu), p)
    ensures refused ==> store.savedMenu == old(store.savedMenu)
    ensures !refused ==> store.savedMenu == MenuJson(store.activeMenu)
  {
    var menu := store.GetMenu();
    var item := At(menu, p);
    if !item.isFavorite {
      var total := CountFavorites(menu);
      if total >= MAX_FAVORITES {
        return true;
      }
      store.SaveMenu(Put(menu, p, item.(isFavorite := true)));
    } else {
      store.SaveMenu(Put(menu, p, item.(isFavorite := false)));
    }
    refused := false;
  }

  /** The "add sub-item" handler. */
  method AddSubItemAction(store: DataStore, p: Path, freshId: string)
    requires ValidPath(store.activeMenu, p)
    modifies store`activeMenu, store`savedMenu
    ensures store.activeMenu == AddSubItem(old(store.activeMenu), p, freshId)
    ensures store.savedMenu == MenuJson(store.activeMenu)
  {
    store.SaveMenu(AddSubItem(store.GetMenu(), p, freshId));
  }

  /** The "add item" button. */
  method AddRootAction(store: DataStore, freshId: string)
    modifies store`activeMenu, store`savedMenu
    ensures store.activeMenu == AddRoot(old(store.activeMenu), freshId)
    ensures store.savedMenu == MenuJson(store.activeMenu)
  {
    store.SaveMenu(AddRoot(store.GetMenu(), freshId));
  }

  /** The delete handler, given the answer to the confirmation dialog. */
  method DeleteAction(store: DataStore, c: Path, idx: nat, confirmed: bool)
    requires ValidList(store.activeMenu, c)
    modifies store`activeMenu, store`savedMenu
    ensures store.activeMenu == DeleteItem(old(store.activeMenu), c, idx, confirmed)
    ensures store.savedMenu == (if confirmed then MenuJson(store.activeMenu) else old(store.savedMenu))
  {
    if confirmed {
      store.SaveMenu(DeleteItem(store.GetMenu(), c, idx, confirmed));
    }
  }

  /** The fold toggle: it changes the node in the active menu but, unlike
      the other handlers, does not store the menu. */
  method ToggleOpenAction(store: DataStore, p: Path)
    requires ValidPath(store.activeMenu, p)
    modifies store`activeMenu
    ensures store.activeMenu == ToggleOpen(old(store.activeMenu), p)
  {
    store.activeMenu := ToggleOpen(store.activeMenu, p);
  }
}
