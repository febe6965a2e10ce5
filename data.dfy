/** The table and menu store of js/data.js: a table count from which the
    table list is generated on the fly, and the active menu. Both are loaded
    once from local storage and written back by the setters.

    Storage is represented by what its reads returned (`storedCount`, the
    migration array, `storedMenu`) and by the fields `savedCount` /
    `savedMenu`, the values the setters write back. The extension's copy of
    this file (chromeExtension/js/data.js) differs only in its default menu;
    both build the same `DataStore`, each with its own default (module
    ExtData). */
module TableData {
  import opened Common
  import opened Menu

  const DEFAULT_TABLE_COUNT: int := 20

  /** An entry of `getTables()`. */
  datatype Table = Table(id: int, caption: string)

  /** What `localStorage.getItem('barlink_tables')` and `JSON.parse` gave
      the migration path of `initData`. */
  datatype OldTables = NoOldTables | Unparsable | NotAnArray | OldArray(length: nat)

  /** What the stored menu read gave: nothing (or an empty string), text
      `JSON.parse` rejects, or a parsed menu. */
  datatype StoredMenu = NoMenu | BadMenu | MenuJson(menu: Forest)

  /** The longest prefix of decimal digits. */
  function DigitPrefix(s: string): (r: string)
    ensures r <= s
    ensures forall i :: 0 <= i < |r| ==> IsDigit(r[i])
    ensures |r| < |s| ==> !IsDigit(s[|r|])
  {
    if s != [] && IsDigit(s[0]) then [s[0]] + DigitPrefix(s[1..]) else []
  }

  /** The number a non-empty string of digits denotes. */
  function DigitsValue(d: string): nat
    requires forall i :: 0 <= i < |d| ==> IsDigit(d[i])
  {
    if d == [] then 0
    else
      var last := d[|d| - 1];
      assert IsDigit(last);
      DigitsValue(d[..|d| - 1]) * 10 + (last as int - '0' as int)
  }

  /** `parseInt(s, 10)`: leading white space, an optional sign, then the
      longest run of digits; `None` stands for NaN, when there is no digit. */
  function ParseInt(s: string): (r: Option<int>)
    ensures r.Some? <==> DigitPrefix(Unsigned(TrimStart(s))) != []
  {
    var t := TrimStart(s);
    var d := DigitPrefix(Unsigned(t));
    if d == [] then None
    else if t[0] == '-' then Some(0 - DigitsValue(d))
    else Some(DigitsValue(d))
  }

  /** The text after an optional leading sign. */
  function Unsigned(t: string): (r: string)
    ensures r <= t || (t != [] && r == t[1..])
  {
    if t != [] && (t[0] == '-' || t[0] == '+') then t[1..] else t
  }

  /** The count `initData` settles on. A stored string (non-empty) wins,
      falling back to the default when it parses to 0 or NaN; otherwise an
      array saved by older versions gives its length; otherwise, or when
      the old value fails to parse, the default stays. */
  function InitialCount(storedCount: Option<string>, oldTables: OldTables): (r: int)
    ensures storedCount.Some? && storedCount.value != "" ==>
      (r == DEFAULT_TABLE_COUNT <==> ParseInt(storedCount.value) in {None, Some(0), Some(DEFAULT_TABLE_COUNT)})
    ensures storedCount.Some? && storedCount.value != "" && ParseInt(storedCount.value).Some? &&
            ParseInt(storedCount.value).value != 0 ==>
              r == ParseInt(storedCount.value).value
    ensures (storedCount.None? || storedCount.value == "") ==>
      r == (if oldTables.OldArray? then oldTables.length else DEFAULT_TABLE_COUNT)
  {
    if storedCount.Some? && storedCount.value != "" then
      match ParseInt(storedCount.value)
      case None => DEFAULT_TABLE_COUNT
      case Some(n) => if n == 0 then DEFAULT_TABLE_COUNT else n
    else if oldTables.OldArray? then oldTables.length
    else DEFAULT_TABLE_COUNT
  }

  /** The menu `initData` settles on. */
  function InitialMenu(defaultMenu: Forest, storedMenu: StoredMenu): (r: Forest)
    ensures storedMenu.MenuJson? ==> r == storedMenu.menu
    ensures !storedMenu.MenuJson? ==> r == defaultMenu
  {
    if storedMenu.MenuJson? then storedMenu.menu else defaultMenu
  }

  /** The label of table `i`, `Table ${i}`. */
  function TableCaption(i: nat): string {
    "Table " + NatToString(i)
  }

  /** `getTables()`: `Array.from({ length: count })`, whose length is the
      count clamped at zero. */
  function Tables(count: int): (r: seq<Table>)
    ensures |r| == Max(0, count)
    ensures forall i :: 0 <= i < |r| ==> r[i] == Table(i + 1, TableCaption(i + 1))
  {
    seq(Max(0, count), i requires 0 <= i => Table(i + 1, TableCaption(i + 1)))
  }

  /** The generated list is numbered in strictly increasing order, and its
      tables are exactly the ids 1..count, each with its own label. */
  lemma TablesNumbered(count: int)
    ensures forall i, j :: 0 <= i < j < |Tables(count)| ==> Tables(count)[i].id < Tables(count)[j].id
    ensures forall t :: t in Tables(count) <==> 1 <= t.id <= count && t.caption == TableCaption(t.id)
  {
    var ts := Tables(count);
    forall t: Table | 1 <= t.id <= count && t.caption == TableCaption(t.id)
      ensures t in ts
    {
      assert ts[t.id - 1] == t;
    }
  }

  /** `Math.max(1, parseInt(count) || 1)`, for a number argument (`None`
      stands for NaN). */
  function ClampCount(count: Option<int>): (r: int)
    ensures r >= 1
    ensures count.Some? && count.value >= 1 ==> r == count.value
    ensures count.None? || count.value < 1 ==> r == 1
  {
    Max(1, if count.Some? && count.value != 0 then count.value else 1)
  }

  /** The decimal text of a positive count reads back as that count. */
  lemma {:induction false} DigitsValueOfNat(n: nat)
    ensures DigitsValue(NatToString(n)) == n
  {
    var s := NatToString(n);
    if n >= 10 {
      DigitsValueOfNat(n / 10);
      assert s[..|s| - 1] == NatToString(n / 10);
    }
  }

  lemma {:induction false} DigitPrefixAll(s: string)
    requires forall i :: 0 <= i < |s| ==> IsDigit(s[i])
    ensures DigitPrefix(s) == s
  {
    if s != [] {
      DigitPrefixAll(s[1..]);
    }
  }

  /** Writing a positive count to storage and reloading it gives it back:
      `initData` after `setTableCount(n)`. */
  lemma CountRoundTrip(n: int, oldTables: OldTables)
    requires n >= 1
    ensures ParseInt(NatToString(n)) == Some(n)
    ensures InitialCount(Some(NatToString(n)), oldTables) == n
  {
    var s := NatToString(n);
    assert TrimStart(s) == s by { assert !IsSpace(s[0]); }
    assert Unsigned(s) == s by { assert IsDigit(s[0]); }
    DigitPrefixAll(s);
    DigitsValueOfNat(n);
  }

  /** The module state of js/data.js. */
  class DataStore {
    var tableCount: int
    var activeMenu: Forest
    var savedCount: Option<string>
    var savedMenu: StoredMenu

    /** Module load: `tableCount` starts at the default, then `initData`
        runs on the values storage returned. */
    constructor InitData(defaultMenu: Forest, storedCount: Option<string>, oldTables: OldTables, storedMenu: StoredMenu)
      ensures tableCount == InitialCount(storedCount, oldTables)
      ensures activeMenu == InitialMenu(defaultMenu, storedMenu)
      ensures savedCount == storedCount && savedMenu == storedMenu
    {
      var count := DEFAULT_TABLE_COUNT;
      if storedCount.Some? && storedCount.value != "" {
        var parsed := ParseInt(storedCount.value);
        count := if parsed.Some? && parsed.value != 0 then parsed.value else DEFAULT_TABLE_COUNT;
      } else if oldTables.OldArray? {
        count := oldTables.length;
      }
      tableCount := count;
      activeMenu := if storedMenu.MenuJson? then storedMenu.menu else defaultMenu;
      savedCount := storedCount;
      savedMenu := storedMenu;
    }

    function GetTableCount(): (r: int)
      reads this
      ensures r == tableCount
    {
      tableCount
    }

    /** `getTables()` over the current count. */
    function GetTables(): (r: seq<Table>)
      reads this
      ensures r == Tables(tableCount)
    {
      Tables(tableCount)
    }

    function GetMenu(): (r: Forest)
      reads this
      ensures r == activeMenu
    {
      activeMenu
    }

    /** `setTableCount(count)`: at least one table, a positive count kept
        as given, and the result written to storage. */
    method SetTableCount(count: Option<int>)
      modifies this`tableCount, this`savedCount
      ensures tableCount == ClampCount(count)
      ensures savedCount == Some(NatToString(tableCount))
    {
      var n := Max(1, if count.Some? && count.value != 0 then count.value else 1);
      tableCount := n;
      savedCount := Some(NatToString(n));
    }

    /** `saveTables(arr)`: only an array counts, by its length. */
    method SaveTables(arr: Option<seq<Table>>)
      modifies this`tableCount, this`savedCount
      ensures arr.Some? ==> tableCount == Max(1, |arr.value|) && savedCount == Some(NatToString(tableCount))
      ensures arr.None? ==> tableCount == old(tableCount) && savedCount == old(savedCount)
    {
      if arr.Some? {
        SetTableCount(Some(|arr.value|));
      }
    }

    /** `saveMenu(newMenu)`: `getMenu()` then returns it, and reloading
        reads it back. */
    method SaveMenu(newMenu: Forest)
      modifies this`activeMenu, this`savedMenu
      ensures GetMenu() == newMenu
      ensures savedMenu == MenuJson(newMenu)
    {
      activeMenu := newMenu;
      savedMenu := MenuJson(newMenu);
    }
  }

  /** `saveMenu(m)`, then the next page load: `initData` on what storage
      now holds gives back `m` as the active menu, whatever the default. */
  method SaveMenuThenReload(store: DataStore, m: Forest, defaultMenu: Forest, oldTables: OldTables)
    returns (reloaded: DataStore)
    modifies store
    ensures fresh(reloaded)
    ensures store.GetMenu() == m && reloaded.GetMenu() == m
  {
    store.SaveMenu(m);
    reloaded := new DataStore.InitData(defaultMenu, store.savedCount, oldTables, store.savedMenu);
  }

  /** `setTableCount(count)`, then the next page load: `initData` on what
      storage now holds gives back the count that was set. */
  method SetTableCountThenReload(store: DataStore, count: Option<int>, defaultMenu: Forest, oldTables: OldTables)
    returns (reloaded: DataStore)
    modifies store
    ensures fresh(reloaded)
    ensures store.GetTableCount() == ClampCount(count)
    ensures reloaded.GetTableCount() == store.GetTableCount()
  {
    store.SetTableCount(count);
    CountRoundTrip(store.tableCount, oldTables);
    reloaded := new DataStore.InitData(defaultMenu, store.savedCount, oldTables, store.savedMenu);
  }

  /** The default menu of js/data.js. */
  const DEFAULT_MENU: Forest := [
    Category("coffee", "Coffee", [
      Item("esp", "Espresso", 1.5),
      Item("dbl", "Double Espresso", 2.2),
      Item("amr", "Americano", 2.0)]),
    Category("drinks", "Drinks", [
      Item("coke", "Cola", 2.5),
      Item("water", "Water", 0.0)])
  ]

  /** Loading js/data.js with its own default menu. */
  method Load(storedCount: Option<string>, oldTables: OldTables, storedMenu: StoredMenu) returns (store: DataStore)
    ensures fresh(store)
    ensures store.tableCount == InitialCount(storedCount, oldTables)
    ensures store.activeMenu == InitialMenu(DEFAULT_MENU, storedMenu)
  {
    store := new DataStore.InitData(DEFAULT_MENU, storedCount, oldTables, storedMenu);
  }
}
