/** The menu tree shared by js/data.js, js/manager.js and js/waiter.js: a
    forest of nodes, each either a category with `children` or an orderable
    item with a `price`. The `_isOpen` editor flag travels with the node, as
    it does in the stored JSON. */
module Menu {
  import opened Common

  /** `caption` is the `label` field and `kind` the `type` field: 'cat' or 'node' in the default menus,
      absent on nodes the editor creates. Prices are decimal numbers; the
      model only carries them. A node without a `children` key is modelled
      with no children: every reader of the tree (`countFavorites`, the
      editor, the waiter's grid) treats the two alike. */
  datatype MenuNode = MenuNode(
    id: string,
    kind: Option<string>,
    caption: string,
    price: Option<real>,
    children: seq<MenuNode>,
    isFavorite: bool,
    isOpen: bool)

  type Forest = seq<MenuNode>

  /** A category as the default menus write it. */
  function Category(id: string, caption: string, children: Forest): MenuNode {
    MenuNode(id, Some("cat"), caption, None, children, false, false)
  }

  /** An orderable item as the default menus write it. */
  function Item(id: string, caption: string, price: real): MenuNode {
    MenuNode(id, Some("node"), caption, Some(price), [], false, false)
  }

  /** The node followed by every node below it, in document order. */
  function Nodes(n: MenuNode): seq<MenuNode>
    decreases n
  {
    [n] + AllNodes(n.children)
  }

  /** Every node of a forest, in document order. */
  function AllNodes(items: Forest): seq<MenuNode>
    decreases items
  {
    if items == [] then [] else Nodes(items[0]) + AllNodes(items[1..])
  }

  /** The number of favourite nodes in a flat list. */
  function FavCount(ns: seq<MenuNode>): nat {
    if ns == [] then 0 else (if ns[0].isFavorite then 1 else 0) + FavCount(ns[1..])
  }

  /** The number of favourites anywhere in a forest. */
  function Favorites(items: Forest): nat {
    FavCount(AllNodes(items))
  }

  /** The number of favourites in a node and its subtree. */
  function SubtreeFavorites(n: MenuNode): nat {
    FavCount(Nodes(n))
  }

  lemma {:induction false} FavCountAppend(a: seq<MenuNode>, b: seq<MenuNode>)
    ensures FavCount(a + b) == FavCount(a) + FavCount(b)
  {
    if a == [] {
      assert a + b == b;
    } else {
      assert (a + b)[1..] == a[1..] + b;
      FavCountAppend(a[1..], b);
    }
  }

  /** `AllNodes` distributes over concatenation of forests. */
  lemma {:induction false} AllNodesAppend(a: Forest, b: Forest)
    ensures AllNodes(a + b) == AllNodes(a) + AllNodes(b)
  {
    if a == [] {
      assert a + b == b;
    } else {
      assert (a + b)[0] == a[0];
      assert (a + b)[1..] == a[1..] + b;
      AllNodesAppend(a[1..], b);
    }
  }

  /** The favourites of a forest are those of its trees. */
  lemma FavoritesAppend(a: Forest, b: Forest)
    ensures Favorites(a + b) == Favorites(a) + Favorites(b)
  {
    AllNodesAppend(a, b);
    FavCountAppend(AllNodes(a), AllNodes(b));
  }

  lemma FavoritesSingle(n: MenuNode)
    ensures Favorites([n]) == SubtreeFavorites(n)
  {
    assert [n][1..] == [];
    assert AllNodes([n]) == Nodes(n) + AllNodes([]);
    assert Nodes(n) + [] == Nodes(n);
  }

  /** A node contributes its own flag plus its children's favourites. */
  lemma SubtreeFavoritesSplit(n: MenuNode)
    ensures SubtreeFavorites(n) == (if n.isFavorite then 1 else 0) + Favorites(n.children)
  {
    FavCountAppend([n], AllNodes(n.children));
    assert [n][1..] == [];
  }

  /** Adding one tree to the end of a forest adds its favourites. */
  lemma FavoritesSnoc(a: Forest, n: MenuNode)
    ensures Favorites(a + [n]) == Favorites(a) + SubtreeFavorites(n)
  {
    FavoritesAppend(a, [n]);
    FavoritesSingle(n);
  }

  /** Splitting a forest around one of its trees. */
  lemma FavoritesAround(items: Forest, i: nat)
    requires i < |items|
    ensures Favorites(items) ==
      Favorites(items[..i]) + SubtreeFavorites(items[i]) + Favorites(items[i + 1..])
  {
    assert items == items[..i] + [items[i]] + items[i + 1..];
    FavoritesAppend(items[..i] + [items[i]], items[i + 1..]);
    FavoritesSnoc(items[..i], items[i]);
  }

  /** A forest whose roots are unflagged and whose subtrees hold no
      favourite holds none. */
  lemma {:induction false} NoFavorites(items: Forest)
    requires forall i :: 0 <= i < |items| ==> !items[i].isFavorite && Favorites(items[i].children) == 0
    ensures Favorites(items) == 0
  {
    if items != [] {
      FavoritesAround(items, 0);
      SubtreeFavoritesSplit(items[0]);
      assert items[..0] == [];
      NoFavorites(items[1..]);
    }
  }
}
