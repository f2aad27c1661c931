/**
 importConfig of backend/controllers/configurationController.js: a list of items is merged into a
 table by natural key, creating what is missing and, on request, overwriting what is there.

 The loop calls findAll and update of the model classes.  Whether these exist is the constant
 `storeWorks`: backend/models/_base.js at this commit defines neither, in which case every item of a
 known category ends up in the error list.
 */
module MasterDataImport {
  import opened Wrappers

  type Item = map<string, string>
  datatype Row = Row(id: nat, cols: map<string, string>)
  datatype Results = Results(created: nat, updated: nat, errors: seq<Item>)

  function KeyColumns(category: string): Option<set<string>> {
    if category == "vehicle" then Some({"dataType", "value"})
    else if category == "reference" then Some({"type", "value"})
    else if category == "location" then Some({"locationType", "value", "country"})
    else None
  }

  // The filter of findAll: key columns the item does not have are not compared.
  predicate Matches(keys: set<string>, item: Item, row: Row) {
    forall k | k in keys && k in item :: k in row.cols && row.cols[k] == item[k]
  }

  function FirstMatch(keys: set<string>, rows: seq<Row>, item: Item): (r: Option<nat>)
    ensures r.Some? ==> r.value < |rows| && Matches(keys, item, rows[r.value])
    ensures r.Some? ==> forall i | 0 <= i < r.value :: !Matches(keys, item, rows[i])
    ensures r.None? ==> forall i | 0 <= i < |rows| :: !Matches(keys, item, rows[i])
  {
    if rows == [] then None
    else
      var k := |rows| - 1;
      var r := FirstMatch(keys, rows[..k], item);
      if r.Some? then r else if Matches(keys, item, rows[k]) then Some(k) else None
  }

  // What the table makes of a created row: column defaults under the item, and who created it.
  datatype Settings = Settings(keys: set<string>, overwrite: bool, defaults: map<string, string>, user: Option<string>)

  function NewRow(s: Settings, id: nat, item: Item): Row {
    Row(id, if s.user.Some? then s.defaults + item + map["createdBy" := s.user.value] else s.defaults + item)
  }

  // The caller's contract: items carry no createdBy.
  predicate Plain(item: Item) { "createdBy" !in item }

  function ImportOne(s: Settings, rows: seq<Row>, item: Item): seq<Row> {
    match FirstMatch(s.keys, rows, item)
    case Some(i) => if s.overwrite then rows[i := rows[i].(cols := rows[i].cols + item)] else rows
    case None => rows + [NewRow(s, |rows|, item)]
  }

  function ImportAll(s: Settings, rows: seq<Row>, items: seq<Item>): seq<Row> {
    if items == [] then rows
    else ImportOne(s, ImportAll(s, rows, items[..|items| - 1]), items[|items| - 1])
  }

  function Matched(s: Settings, rows: seq<Row>, items: seq<Item>): nat {
    if items == [] then 0
    else
      var k := |items| - 1;
      Matched(s, rows, items[..k])
      + (if FirstMatch(s.keys, ImportAll(s, rows, items[..k]), items[k]).Some? then 1 else 0)
  }

  lemma NothingImported(s: Settings, rows: seq<Row>)
    ensures ImportAll(s, rows, []) == rows && Matched(s, rows, []) == 0
  {
  }

  lemma ImportNext(s: Settings, rows: seq<Row>, items: seq<Item>, n: nat)
    requires n < |items|
    ensures ImportAll(s, rows, items[..n + 1]) == ImportOne(s, ImportAll(s, rows, items[..n]), items[n])
    ensures Matched(s, rows, items[..n + 1])
         == Matched(s, rows, items[..n]) + if FirstMatch(s.keys, ImportAll(s, rows, items[..n]), items[n]).Some? then 1 else 0
  {
    hide FirstMatch, ImportOne;
    assert items[..n + 1][..n] == items[..n];
  }

  class Table {
    var rows: seq<Row>

    constructor (rows: seq<Row>)
      ensures this.rows == rows
    {
      this.rows := rows;
    }

    method ImportConfig(category: string, items: seq<Item>, overwrite: bool, defaults: map<string, string>,
                        user: Option<string>, storeWorks: bool) returns (results: Results)
      modifies this
      ensures KeyColumns(category).None? ==> rows == old(rows) && results == Results(0, 0, [])
      ensures KeyColumns(category).Some? && !storeWorks ==> rows == old(rows) && results == Results(0, 0, items)
      ensures KeyColumns(category).Some? && storeWorks ==>
        var s := Settings(KeyColumns(category).value, overwrite, defaults, user);
        && rows == ImportAll(s, old(rows), items)
        && results.errors == []
        && results.updated == (if overwrite then Matched(s, old(rows), items) else 0)
        && results.created == |items| - Matched(s, old(rows), items) == |rows| - |old(rows)|
    {
      hide ImportAll, Matched, FirstMatch, NewRow, KeyColumns;
      results := Results(0, 0, []);
      var keys := KeyColumns(category);
      if keys.None? {
        return;
      }
      var s := Settings(keys.value, overwrite, defaults, user);
      NothingImported(s, rows);
      for n := 0 to |items|
        invariant !storeWorks ==> rows == old(rows) && results == Results(0, 0, items[..n])
        invariant storeWorks ==>
          && rows == ImportAll(s, old(rows), items[..n])
          && results.errors == []
          && results.updated == (if overwrite then Matched(s, old(rows), items[..n]) else 0)
          && results.created == n - Matched(s, old(rows), items[..n]) == |rows| - |old(rows)|
      {
        var item := items[n];
        ImportNext(s, old(rows), items, n);
        if !storeWorks {
          results := results.(errors := results.errors + [item]);
          assert items[..n + 1] == items[..n] + [item];
          continue;
        }
        var existing := FirstMatch(keys.value, rows, item);
        if existing.Some? {
          if overwrite {
            rows := rows[existing.value := rows[existing.value].(cols := rows[existing.value].cols + item)];
            results := results.(updated := results.updated + 1);
          }
        } else {
          rows := rows + [NewRow(s, |rows|, item)];
          results := results.(created := results.created + 1);
        }
      }
      assert items[..|items|] == items;
    }
  }

  // ---------- the second import ----------

  predicate SameKeys(keys: set<string>, a: Row, b: Row) {
    forall k | k in keys :: (k in a.cols <==> k in b.cols) && (k in a.cols ==> a.cols[k] == b.cols[k])
  }

  // What the items that belong to row i write over it, the last one winning.
  function Overlay(keys: set<string>, rows: seq<Row>, items: seq<Item>, i: nat): map<string, string> {
    if items == [] then map[]
    else
      var k := |items| - 1;
      var o := Overlay(keys, rows, items[..k], i);
      if FirstMatch(keys, rows, items[k]) == Some(i) then o + items[k] else o
  }

  predicate AllMatched(keys: set<string>, rows: seq<Row>, items: seq<Item>) {
    forall j | 0 <= j < |items| :: FirstMatch(keys, rows, items[j]).Some?
  }

  // The rows already show everything the items would write.
  predicate Settled(s: Settings, rows: seq<Row>, items: seq<Item>) {
    && AllMatched(s.keys, rows, items)
    && (s.overwrite ==> forall i | 0 <= i < |rows| :: rows[i].cols + Overlay(s.keys, rows, items, i) == rows[i].cols)
  }

  predicate KeysKept(keys: set<string>, rows: seq<Row>, rows': seq<Row>) {
    |rows| <= |rows'| && forall i | 0 <= i < |rows| :: SameKeys(keys, rows[i], rows'[i])
  }

  lemma MatchKept(keys: set<string>, rows: seq<Row>, rows': seq<Row>, item: Item)
    requires KeysKept(keys, rows, rows') && (FirstMatch(keys, rows, item).Some? || |rows'| == |rows|)
    ensures FirstMatch(keys, rows', item) == FirstMatch(keys, rows, item)
  {
    forall i | 0 <= i < |rows|
      ensures Matches(keys, item, rows[i]) <==> Matches(keys, item, rows'[i])
    {
      assert SameKeys(keys, rows[i], rows'[i]);
    }
    var r, r' := FirstMatch(keys, rows, item), FirstMatch(keys, rows', item);
    if r.Some? {
      assert Matches(keys, item, rows'[r.value]);
    }
    if r'.Some? && r'.value < |rows| {
      assert Matches(keys, item, rows[r'.value]);
    }
  }

  lemma {:induction false} OverlayKept(keys: set<string>, rows: seq<Row>, rows': seq<Row>, items: seq<Item>, i: nat)
    requires KeysKept(keys, rows, rows') && AllMatched(keys, rows, items)
    ensures Overlay(keys, rows', items, i) == Overlay(keys, rows, items, i)
    ensures AllMatched(keys, rows', items)
  {
    if items != [] {
      var k := |items| - 1;
      assert forall j | 0 <= j < k :: items[..k][j] == items[j];
      OverlayKept(keys, rows, rows', items[..k], i);
      MatchKept(keys, rows, rows', items[k]);
      forall j | 0 <= j < |items|
        ensures FirstMatch(keys, rows', items[j]).Some?
      {
        MatchKept(keys, rows, rows', items[j]);
      }
    }
  }

  // Items never change the key columns of the row they match.
  lemma OneKeepsKeys(s: Settings, rows: seq<Row>, item: Item)
    requires Plain(item)
    ensures KeysKept(s.keys, rows, ImportOne(s, rows, item))
    ensures FirstMatch(s.keys, ImportOne(s, rows, item), item)
         == Some(match FirstMatch(s.keys, rows, item) case Some(i) => i case None => |rows|)
  {
    hide FirstMatch, Matches, SameKeys, KeysKept, NewRow;
    var r := FirstMatch(s.keys, rows, item);
    if r.Some? {
      RowWritten(s.keys, rows, item, r.value);
      SameRows(s.keys, rows);
      MatchKept(s.keys, rows, ImportOne(s, rows, item), item);
    } else {
      NewRowMatches(s, |rows|, item);
      RowAdded(s.keys, rows, item, NewRow(s, |rows|, item));
    }
  }

  lemma SameRows(keys: set<string>, rows: seq<Row>)
    ensures KeysKept(keys, rows, rows)
  {
  }

  lemma RowWritten(keys: set<string>, rows: seq<Row>, item: Item, i: nat)
    requires i < |rows| && Matches(keys, item, rows[i])
    ensures KeysKept(keys, rows, rows[i := rows[i].(cols := rows[i].cols + item)])
  {
  }

  lemma RowAdded(keys: set<string>, rows: seq<Row>, item: Item, row: Row)
    requires FirstMatch(keys, rows, item).None? && Matches(keys, item, row)
    ensures FirstMatch(keys, rows + [row], item) == Some(|rows|) && KeysKept(keys, rows, rows + [row])
  {
    assert (rows + [row])[..|rows|] == rows;
    hide Matches;
  }

  // Writing the same columns again changes nothing, and neither does writing older values first.
  lemma Absorbs(r: map<string, string>, o: map<string, string>, item: map<string, string>)
    requires r + o == r
    ensures (r + item) + (o + item) == r + item
  {
    forall k | k in o
      ensures k in r && r[k] == o[k]
    {
      assert (r + o)[k] == o[k];
    }
  }

  lemma {:induction false} OverlayUntouched(keys: set<string>, rows: seq<Row>, items: seq<Item>, i: nat)
    requires AllMatched(keys, rows, items) && |rows| <= i
    ensures Overlay(keys, rows, items, i) == map[]
  {
    if items != [] {
      assert forall j | 0 <= j < |items| - 1 :: items[..|items| - 1][j] == items[j];
      OverlayUntouched(keys, rows, items[..|items| - 1], i);
    }
  }

  lemma OverlayAppend(keys: set<string>, rows: seq<Row>, items: seq<Item>, item: Item, i: nat)
    ensures Overlay(keys, rows, items + [item], i)
         == if FirstMatch(keys, rows, item) == Some(i) then Overlay(keys, rows, items, i) + item else Overlay(keys, rows, items, i)
  {
    assert (items + [item])[..|items|] == items;
  }

  lemma StaysSettled(s: Settings, rows: seq<Row>, items: seq<Item>, item: Item)
    requires Settled(s, rows, items) && Plain(item)
    ensures Settled(s, ImportOne(s, rows, item), items + [item])
  {
    hide Overlay, Matches, FirstMatch, NewRow;
    var rows' := ImportOne(s, rows, item);
    OneKeepsKeys(s, rows, item);
    OverlayKept(s.keys, rows, rows', items, 0);
    assert AllMatched(s.keys, rows', items + [item]);
    if s.overwrite {
      forall i | 0 <= i < |rows'|
        ensures rows'[i].cols + Overlay(s.keys, rows', items + [item], i) == rows'[i].cols
      {
        OverlayAppend(s.keys, rows', items, item, i);
        OverlayKept(s.keys, rows, rows', items, i);
        if i == |rows| {
          OverlayUntouched(s.keys, rows, items, i);
          CreatedShowsItem(s, |rows|, item);
        } else if FirstMatch(s.keys, rows', item) == Some(i) {
          Absorbs(rows[i].cols, Overlay(s.keys, rows, items, i), item);
        }
      }
    }
  }

  lemma CreatedShowsItem(s: Settings, id: nat, item: Item)
    requires Plain(item)
    ensures NewRow(s, id, item).cols + (map[] + item) == NewRow(s, id, item).cols
  {
  }

  // After one import every row shows what the list would write.
  lemma {:induction false} ImportSettles(s: Settings, rows: seq<Row>, items: seq<Item>)
    requires forall j | 0 <= j < |items| :: Plain(items[j])
    ensures Settled(s, ImportAll(s, rows, items), items)
  {
    if items == [] {
      NothingToSettle(s, rows);
    } else {
      hide Settled, ImportOne;
      var k := |items| - 1;
      ImportSettles(s, rows, items[..k]);
      StaysSettled(s, ImportAll(s, rows, items[..k]), items[..k], items[k]);
      assert items[..k] + [items[k]] == items;
    }
  }

  lemma NothingToSettle(s: Settings, rows: seq<Row>)
    ensures Settled(s, rows, [])
  {
    forall i | 0 <= i < |rows|
      ensures rows[i].cols + Overlay(s.keys, rows, [], i) == rows[i].cols
    {
    }
  }

  // rows' is rows with, over each row, what the list has for it.
  predicate Written(s: Settings, rows: seq<Row>, items: seq<Item>, rows': seq<Row>) {
    && |rows'| == |rows|
    && forall i | 0 <= i < |rows| ::
         rows'[i] == if s.overwrite then rows[i].(cols := rows[i].cols + Overlay(s.keys, rows, items, i)) else rows[i]
  }

  lemma WrittenStep(s: Settings, rows: seq<Row>, items: seq<Item>, before: seq<Row>, item: Item)
    requires Written(s, rows, items, before) && KeysKept(s.keys, rows, before)
    requires FirstMatch(s.keys, rows, item).Some? && Plain(item)
    ensures FirstMatch(s.keys, before, item).Some?
    ensures Written(s, rows, items + [item], ImportOne(s, before, item))
    ensures KeysKept(s.keys, rows, ImportOne(s, before, item))
  {
    hide Overlay, Matches, FirstMatch;
    MatchKept(s.keys, rows, before, item);
    OneKeepsKeys(s, before, item);
    KeysTwice(s.keys, rows, before, ImportOne(s, before, item));
    hide KeysKept;
    forall i | 0 <= i < |rows|
      ensures ImportOne(s, before, item)[i]
           == if s.overwrite then rows[i].(cols := rows[i].cols + Overlay(s.keys, rows, items + [item], i)) else rows[i]
    {
      OverlayAppend(s.keys, rows, items, item, i);
      Associates(rows[i].cols, Overlay(s.keys, rows, items, i), item);
    }
  }

  lemma WrittenNone(s: Settings, rows: seq<Row>)
    ensures Written(s, rows, [], rows) && KeysKept(s.keys, rows, rows)
  {
    forall i | 0 <= i < |rows|
      ensures rows[i].cols + Overlay(s.keys, rows, [], i) == rows[i].cols
    {
    }
  }

  lemma MatchedStep(s: Settings, rows: seq<Row>, items: seq<Item>, item: Item)
    ensures ImportAll(s, rows, items + [item]) == ImportOne(s, ImportAll(s, rows, items), item)
    ensures Matched(s, rows, items + [item])
         == Matched(s, rows, items) + if FirstMatch(s.keys, ImportAll(s, rows, items), item).Some? then 1 else 0
  {
    assert (items + [item])[..|items|] == items;
  }

  // Importing a list whose items all have a row writes, over each row, what the list has for it.
  lemma {:induction false} ImportMatched(s: Settings, rows: seq<Row>, items: seq<Item>)
    requires AllMatched(s.keys, rows, items) && forall j | 0 <= j < |items| :: Plain(items[j])
    ensures Written(s, rows, items, ImportAll(s, rows, items)) && KeysKept(s.keys, rows, ImportAll(s, rows, items))
    ensures Matched(s, rows, items) == |items|
  {
    hide Written, KeysKept, FirstMatch, Matches, Overlay, ImportOne;
    if items == [] {
      WrittenNone(s, rows);
    } else {
      var k := |items| - 1;
      assert forall j | 0 <= j < k :: items[..k][j] == items[j];
      ImportMatched(s, rows, items[..k]);
      WrittenStep(s, rows, items[..k], ImportAll(s, rows, items[..k]), items[k]);
      MatchedStep(s, rows, items[..k], items[k]);
      assert items[..k] + [items[k]] == items;
    }
  }

  lemma Associates(a: map<string, string>, b: map<string, string>, c: map<string, string>)
    ensures (a + b) + c == a + (b + c)
  {
  }

  lemma KeysTwice(keys: set<string>, a: seq<Row>, b: seq<Row>, c: seq<Row>)
    requires KeysKept(keys, a, b) && KeysKept(keys, b, c)
    ensures KeysKept(keys, a, c)
  {
    forall i | 0 <= i < |a| ensures SameKeys(keys, a[i], c[i]) {
      assert SameKeys(keys, a[i], b[i]) && SameKeys(keys, b[i], c[i]);
    }
  }

  // Importing a list a second time changes no row and creates nothing, with or without overwriting, even
  // when the list repeats keys with different values or the two imports are made by different users.
  lemma ImportTwiceIsOnce(s: Settings, rows: seq<Row>, items: seq<Item>, user: Option<string>)
    requires forall j | 0 <= j < |items| :: Plain(items[j])
    ensures var once := ImportAll(s, rows, items);
      && ImportAll(s.(user := user), once, items) == once
      && Matched(s.(user := user), once, items) == |items|
  {
    var once := ImportAll(s, rows, items);
    ImportSettles(s, rows, items);
    ImportMatched(s.(user := user), once, items);
    assert |ImportAll(s.(user := user), once, items)| == |once|;
  }

  // ---------- natural keys ----------

  predicate UniqueKeys(keys: set<string>, rows: seq<Row>) {
    forall i, j | 0 <= i < j < |rows| :: !SameKeys(keys, rows[i], rows[j])
  }

  lemma OneKeepsUnique(s: Settings, rows: seq<Row>, item: Item)
    requires Plain(item) && UniqueKeys(s.keys, rows)
    ensures UniqueKeys(s.keys, ImportOne(s, rows, item))
  {
    var rows' := ImportOne(s, rows, item);
    OneKeepsKeys(s, rows, item);
    forall i, j | 0 <= i < j < |rows'|
      ensures !SameKeys(s.keys, rows'[i], rows'[j])
    {
      assert SameKeys(s.keys, rows[i], rows'[i]);
      if j < |rows| {
        assert SameKeys(s.keys, rows[j], rows'[j]);
        if SameKeys(s.keys, rows'[i], rows'[j]) {
          SameKeysTwice(s.keys, rows[i], rows'[i], rows'[j], rows[j]);
        }
      } else {
        assert !Matches(s.keys, item, rows[i]);
        NewRowMatches(s, |rows|, item);
      }
    }
  }

  lemma NewRowMatches(s: Settings, id: nat, item: Item)
    requires Plain(item)
    ensures Matches(s.keys, item, NewRow(s, id, item))
  {
  }

  lemma SameKeysTwice(keys: set<string>, a: Row, b: Row, c: Row, d: Row)
    requires SameKeys(keys, a, b) && SameKeys(keys, b, c) && SameKeys(keys, d, c)
    ensures SameKeys(keys, a, d)
  {
  }

  // An import never gives two rows the same natural key if there were none before.
  lemma {:induction false} ImportKeepsUnique(s: Settings, rows: seq<Row>, items: seq<Item>)
    requires UniqueKeys(s.keys, rows) && forall j | 0 <= j < |items| :: Plain(items[j])
    ensures UniqueKeys(s.keys, ImportAll(s, rows, items))
  {
    if items != [] {
      hide UniqueKeys, ImportOne;
      ImportKeepsUnique(s, rows, items[..|items| - 1]);
      OneKeepsUnique(s, ImportAll(s, rows, items[..|items| - 1]), items[|items| - 1]);
    }
  }

  // ---------- by category ----------

  // The columns of a row that an import creates: the item's, the defaults for the others, and the user who
  // imported it.
  lemma CreatedShows(s: Settings, rows: seq<Row>, item: Item, column: string)
    requires FirstMatch(s.keys, rows, item).None?
    ensures var rows' := ImportOne(s, rows, item);
      && |rows'| == |rows| + 1 && rows'[..|rows|] == rows && rows'[|rows|].id == |rows|
      && var cols := rows'[|rows|].cols;
         if column == "createdBy" && s.user.Some? then column in cols && cols[column] == s.user.value
         else if column in item then column in cols && cols[column] == item[column]
         else if column in s.defaults then column in cols && cols[column] == s.defaults[column]
         else column !in cols
  {
  }

  predicate SameIn(a: Row, b: Row, column: string) {
    (column in a.cols <==> column in b.cols) && (column in a.cols ==> a.cols[column] == b.cols[column])
  }

  // Two rows that are one entry of their category.
  ghost predicate OneEntry(category: string, a: Row, b: Row) {
    match category
    case "vehicle" => SameIn(a, b, "dataType") && SameIn(a, b, "value")
    case "reference" => SameIn(a, b, "type") && SameIn(a, b, "value")
    case "location" => SameIn(a, b, "locationType") && SameIn(a, b, "value") && SameIn(a, b, "country")
    case _ => false
  }

  lemma OneEntryIs(category: string, a: Row, b: Row)
    requires KeyColumns(category).Some?
    ensures SameKeys(KeyColumns(category).value, a, b) <==> OneEntry(category, a, b)
  {
    var keys := KeyColumns(category).value;
    assert SameKeys(keys, a, b) <==> forall k | k in keys :: SameIn(a, b, k);
  }

  // Exactly three categories are imported, and in each an import leaves no two rows for one entry, if there
  // were none.
  lemma EntriesStayUnique(category: string, s: Settings, rows: seq<Row>, items: seq<Item>)
    requires KeyColumns(category) == Some(s.keys) && forall j | 0 <= j < |items| :: Plain(items[j])
    requires forall i, j | 0 <= i < j < |rows| :: !OneEntry(category, rows[i], rows[j])
    ensures var rows' := ImportAll(s, rows, items);
      forall i, j | 0 <= i < j < |rows'| :: !OneEntry(category, rows'[i], rows'[j])
  {
    var rows' := ImportAll(s, rows, items);
    hide SameKeys, OneEntry, KeyColumns, Plain;
    forall a: Row, b: Row
      ensures SameKeys(s.keys, a, b) <==> OneEntry(category, a, b)
    {
      OneEntryIs(category, a, b);
    }
    ImportKeepsUnique(s, rows, items);
  }

  lemma CategoriesAre(category: string)
    ensures KeyColumns(category).Some? <==> category == "vehicle" || category == "reference" || category == "location"
  {
  }
}
