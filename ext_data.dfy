/** chromeExtension/js/data.js: the extension's table and menu store. Its
    functions are those of js/data.js (the `DataStore` of module TableData);
    what differs is the larger default menu, in Croatian, with a nested
    category at the end of each top-level one. */
module ExtData {
  import opened Common
  import opened Menu
  import opened TableData

  const DEFAULT_MENU: Forest := [HOT_DRINKS, SOFT_DRINKS, BEER, SPIRITS, WINES, OTHER]

  const HOT_DRINKS: MenuNode :=
    Category("topli", "Topli napitci", [
      Item("esp", "Espresso", 1.5),
      Item("dbl", "Dupli espresso", 2.2),
      Item("mac", "Macchiato", 1.9),
      Item("cap", "Cappuccino", 2.3),
      Item("lat", "Caffe latte", 2.5),
      Item("kakao", "Kakao", 2.4),
      Category("cajevi", "Čajevi", [
        Item("caj-zeleni", "Zeleni čaj", 2.0),
        Item("caj-crni", "Crni čaj", 2.0),
        Item("caj-vocni", "Voćni čaj", 2.0),
        Item("caj-kamilica", "Kamilica", 2.0)])])

  const SOFT_DRINKS: MenuNode :=
    Category("bezalk", "Bezalkoholna pića", [
      Item("cola", "Coca-Cola", 2.6),
      Item("cola-zero", "Coca-Cola Zero", 2.6),
      Item("fanta", "Fanta", 2.6),
      Item("sprite", "Sprite", 2.6),
      Item("mineralna", "Mineralna voda", 2.0),
      Item("prirodna", "Prirodna voda", 1.6),
      Item("ledeni", "Ledeni čaj", 2.8),
      Category("sokovi", "Sokovi", [
        Item("sok-naranca", "Naranča", 2.6),
        Item("sok-jabuka", "Jabuka", 2.6),
        Item("sok-marelica", "Marelica", 2.6)])])

  const BEER: MenuNode :=
    Category("pivo", "Pivo", [
      Item("ozujsko", "Ožujsko 0,5", 3.0),
      Item("karlovacko", "Karlovačko 0,5", 3.0),
      Item("pan", "Pan 0,5", 3.2),
      Item("heineken", "Heineken", 3.8),
      Item("stella", "Stella Artois", 3.8),
      Category("craft", "Craft", [
        Item("craft-ipa", "IPA", 4.5),
        Item("craft-apa", "APA", 4.5),
        Item("craft-lager", "Lager", 4.2)])])

  const SPIRITS: MenuNode :=
    Category("zestoka", "Žestoka pića", [
      Item("pelinkovac", "Pelinkovac", 2.8),
      Item("rakija-sljiv", "Rakija šljivovica", 2.8),
      Item("rakija-loza", "Rakija loza", 2.8),
      Item("vodka", "Vodka", 3.2),
      Item("gin", "Gin", 3.2),
      Item("rum", "Rum", 3.2),
      Item("whiskey", "Whiskey", 3.6),
      Category("likeri", "Likeri", [
        Item("jager", "Jägermeister", 3.4),
        Item("amaretto", "Amaretto", 3.4),
        Item("baileys", "Baileys", 3.6)])])

  const WINES: MenuNode :=
    Category("vina", "Vina", [
      Item("grasevina", "Graševina", 3.2),
      Item("malvazija", "Malvazija", 3.2),
      Item("plavac", "Plavac", 3.4),
      Item("merlot", "Merlot", 3.4),
      Item("rose", "Rose", 3.2),
      Category("pjenucci", "Pjenušci", [
        Item("prosecco", "Prosecco", 4.2),
        Item("brut", "Brut", 4.0)])])

  const OTHER: MenuNode :=
    Category("ostalo", "Ostalo", [
      Item("energetsko", "Energetsko piće", 3.4),
      Item("tonic", "Tonic", 2.8),
      Item("bitter", "Bitter lemon", 2.8),
      Item("limonada", "Domaća limunada", 2.8),
      Item("led", "Led", 0.8),
      Category("grickalice", "Grickalice", [
        Item("cips", "Čips", 1.8),
        Item("kikiriki", "Kikiriki", 1.8),
        Item("orasci", "Oraščići", 2.0)])])

  /** Loading the extension's data module: `initData` with this default. */
  method Load(storedCount: Option<string>, oldTables: OldTables, storedMenu: StoredMenu) returns (store: DataStore)
    ensures fresh(store)
    ensures store.tableCount == InitialCount(storedCount, oldTables)
    ensures store.activeMenu == InitialMenu(DEFAULT_MENU, storedMenu)
  {
    store := new DataStore.InitData(DEFAULT_MENU, storedCount, oldTables, storedMenu);
  }

  /** Neither default menu marks a favourite, so both start within the
      editor's five-favourite cap. */
  lemma DefaultMenus()
    ensures Favorites(DEFAULT_MENU) == 0 && Favorites(TableData.DEFAULT_MENU) == 0
  {
    FlagFree();
    ThreeLevels(DEFAULT_MENU);
    ThreeLevels(TableData.DEFAULT_MENU);
  }

  lemma FlagFree()
    ensures NoFlags(HOT_DRINKS.children) && NoFlags(SOFT_DRINKS.children) && NoFlags(BEER.children)
    ensures NoFlags(SPIRITS.children) && NoFlags(WINES.children) && NoFlags(OTHER.children)
  {
    FlagFreeHot();
    FlagFreeSoft();
    FlagFreeBeer();
    FlagFreeSpirits();
    FlagFreeWines();
    FlagFreeOther();
  }

  lemma FlagFreeHot()
    ensures NoFlags(HOT_DRINKS.children)
  {
  }

  lemma FlagFreeSoft()
    ensures NoFlags(SOFT_DRINKS.children)
  {
  }

  lemma FlagFreeBeer()
    ensures NoFlags(BEER.children)
  {
  }

  lemma FlagFreeSpirits()
    ensures NoFlags(SPIRITS.children)
  {
  }

  lemma FlagFreeWines()
    ensures NoFlags(WINES.children)
  {
  }

  lemma FlagFreeOther()
    ensures NoFlags(OTHER.children)
  {
  }

  /** A menu at most three levels deep none of whose nodes is flagged. */
  lemma ThreeLevels(items: Forest)
    requires forall i :: 0 <= i < |items| ==> !items[i].isFavorite
    requires forall i :: 0 <= i < |items| ==> NoFlags(items[i].children)
    ensures Favorites(items) == 0
  {
    forall i | 0 <= i < |items|
      ensures Favorites(items[i].children) == 0
    {
      var kids := items[i].children;
      forall j | 0 <= j < |kids|
        ensures Favorites(kids[j].children) == 0
      {
        NoFavorites(kids[j].children);
      }
      NoFavorites(kids);
    }
    NoFavorites(items);
  }

  /** No node of a two-level forest is flagged, and it goes no deeper. */
  ghost predicate NoFlags(kids: Forest) {
    forall j :: 0 <= j < |kids| ==>
      !kids[j].isFavorite &&
      forall k :: 0 <= k < |kids[j].children| ==>
        !kids[j].children[k].isFavorite && kids[j].children[k].children == []
  }
}
