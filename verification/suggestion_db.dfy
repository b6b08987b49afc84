/**
 * SearchSuggestionDatabase (third generation): the search_suggestions table, whose tag names are
 * UNIQUE ON CONFLICT IGNORE. Each row carries the icon that says where it came from: the
 * built-in tag list or the user's search history.
 */
module SearchSuggestionDatabase {
  import opened UriEncode

  /** The two icon resources a row can carry. */
  datatype Icon = RecentHistory | BuiltIn

  datatype Row = Row(id: int, name: string, icon: Icon)

  /** The rows in ascending id order, and the id AUTOINCREMENT hands out next. */
  datatype Table = Table(rows: seq<Row>, nextId: int)

  predicate Ascending(rows: seq<Row>) {
    forall i, j :: 0 <= i < j < |rows| ==> rows[i].id < rows[j].id
  }

  predicate DistinctNames(rows: seq<Row>) {
    forall i, j :: 0 <= i < j < |rows| ==> rows[i].name != rows[j].name
  }

  predicate Valid(t: Table) {
    0 < t.nextId && Ascending(t.rows) && DistinctNames(t.rows)
    && (forall i :: 0 <= i < |t.rows| ==> 0 < t.rows[i].id < t.nextId)
  }

  /** The tag names in the table, in row order. */
  function Names(rows: seq<Row>): (r: seq<string>)
    ensures |r| == |rows| && forall i :: 0 <= i < |rows| ==> r[i] == rows[i].name
  {
    seq(|rows|, i requires 0 <= i < |rows| => rows[i].name)
  }

  const Empty: Table := Table([], 1)

  /**
   * One INSERT: a name already present is ignored, keeping the existing row and its icon, and
   * insert reports -1; otherwise a new row at the end, under the next id.
   */
  function InsertRow(t: Table, name: string, icon: Icon): (r: (Table, int))
    ensures name in Names(t.rows) ==> r == (t, -1)
    ensures name !in Names(t.rows) ==>
              r.0 == Table(t.rows + [Row(t.nextId, name, icon)], t.nextId + 1) && r.1 == t.nextId
  {
    if name in Names(t.rows) then (t, -1)
    else (Table(t.rows + [Row(t.nextId, name, icon)], t.nextId + 1), t.nextId)
  }

  lemma InsertRowKeepsValid(t: Table, name: string, icon: Icon)
    requires Valid(t)
    ensures Valid(InsertRow(t, name, icon).0)
    ensures Names(InsertRow(t, name, icon).0.rows) == if name in Names(t.rows) then Names(t.rows) else Names(t.rows) + [name]
  {
    if name !in Names(t.rows) {
      var r := InsertRow(t, name, icon).0;
      forall i, j | 0 <= i < j < |r.rows| ensures r.rows[i].name != r.rows[j].name {
        if j == |t.rows| {
          assert r.rows[i].name == Names(t.rows)[i];
        }
      }
    }
  }

  /** The shortest tag worth remembering: the suggestion dropdown opens at three characters. */
  const MinTagLength: nat := 3

  /**
   * insert(tag): a tag shorter than three UTF-16 code units is not stored and gives -1; any
   * other goes in as search history, unless the name is already there.
   */
  function Insert(t: Table, tag: string): (r: (Table, int))
    ensures |Units(tag)| < MinTagLength ==> r == (t, -1)
    ensures |Units(tag)| >= MinTagLength && tag !in Names(t.rows) ==>
              r.0.rows == t.rows + [Row(t.nextId, tag, RecentHistory)] && r.1 == t.nextId
    ensures tag in Names(t.rows) ==> r == (t, -1)
  {
    if |Units(tag)| < MinTagLength then (t, -1) else InsertRow(t, tag, RecentHistory)
  }

  /**
   * Searching again for a remembered tag, or for a built-in one, changes nothing: the existing
   * row keeps its icon.
   */
  lemma InsertExistingKeepsIcon(t: Table, tag: string, i: int)
    requires 0 <= i < |t.rows| && t.rows[i].name == tag
    ensures Insert(t, tag) == (t, -1)
  {
    assert Names(t.rows)[i] == tag;
  }

  // ---------------------------------------------------------------------------------------------
  // Erasing the history

  /** The number of search-history rows. */
  function HistoryCount(rows: seq<Row>): (n: nat)
    ensures n <= |rows|
  {
    if rows == [] then 0 else (if rows[0].icon == RecentHistory then 1 else 0) + HistoryCount(rows[1..])
  }

  /** The rows that are not search history, in their order. */
  function KeepBuiltIn(rows: seq<Row>): (k: seq<Row>)
    ensures |k| + HistoryCount(rows) == |rows|
    ensures forall r :: r in k ==> r in rows && r.icon == BuiltIn
    ensures forall r :: r in rows && r.icon == BuiltIn ==> r in k
  {
    if rows == [] then []
    else
      var tail := KeepBuiltIn(rows[1..]);
      assert rows == [rows[0]] + rows[1..];
      assert forall r :: r in rows <==> r == rows[0] || r in rows[1..];
      if rows[0].icon == RecentHistory then tail else [rows[0]] + tail
  }

  /** The kept rows keep the ids ascending and the names unique. */
  lemma {:induction false} KeepBuiltInOrdered(rows: seq<Row>)
    ensures Ascending(rows) ==> Ascending(KeepBuiltIn(rows))
    ensures DistinctNames(rows) ==> DistinctNames(KeepBuiltIn(rows))
  {
    if rows != [] {
      KeepBuiltInOrdered(rows[1..]);
      var tail := KeepBuiltIn(rows[1..]);
      if rows[0].icon != RecentHistory {
        HeadBelowKept(rows, tail);
        HeadNameNotKept(rows, tail);
      }
    }
  }

  lemma HeadBelowKept(rows: seq<Row>, tail: seq<Row>)
    requires rows != [] && forall r :: r in tail ==> r in rows[1..]
    ensures Ascending(rows) && Ascending(tail) ==> Ascending([rows[0]] + tail)
  {
    if !(Ascending(rows) && Ascending(tail)) {
      return;
    }
    var k := [rows[0]] + tail;
    forall i, j | 0 <= i < j < |k| ensures k[i].id < k[j].id {
      if i == 0 {
        assert k[j] in rows[1..];
        var m :| 0 <= m < |rows[1..]| && rows[1..][m] == k[j];
        assert rows[m + 1] == k[j];
      } else {
        assert k[i] == tail[i - 1] && k[j] == tail[j - 1];
      }
    }
  }

  lemma HeadNameNotKept(rows: seq<Row>, tail: seq<Row>)
    requires rows != [] && forall r :: r in tail ==> r in rows[1..]
    ensures DistinctNames(rows) && DistinctNames(tail) ==> DistinctNames([rows[0]] + tail)
  {
    if !(DistinctNames(rows) && DistinctNames(tail)) {
      return;
    }
    var k := [rows[0]] + tail;
    forall i, j | 0 <= i < j < |k| ensures k[i].name != k[j].name {
      if i == 0 {
        assert k[j] in rows[1..];
        var m :| 0 <= m < |rows[1..]| && rows[1..][m] == k[j];
        assert rows[m + 1] == k[j];
      } else {
        assert k[i] == tail[i - 1] && k[j] == tail[j - 1];
      }
    }
  }

  /**
   * eraseSearchHistory: every search-history row goes, every built-in row stays, and the count
   * returned is the number removed.
   */
  function EraseSearchHistory(t: Table): (r: (Table, nat))
    ensures r.0.nextId == t.nextId
    ensures forall x :: x in r.0.rows <==> x in t.rows && x.icon == BuiltIn
    ensures r.1 == |t.rows| - |r.0.rows|
  {
    (Table(KeepBuiltIn(t.rows), t.nextId), HistoryCount(t.rows))
  }

  /** Erasing the history keeps the table valid, and erasing it twice removes nothing more. */
  lemma EraseKeepsValid(t: Table)
    requires Valid(t)
    ensures Valid(EraseSearchHistory(t).0)
    ensures EraseSearchHistory(EraseSearchHistory(t).0) == (EraseSearchHistory(t).0, 0)
  {
    var e := EraseSearchHistory(t).0;
    KeepBuiltInOrdered(t.rows);
    forall i | 0 <= i < |e.rows| ensures 0 < e.rows[i].id < t.nextId {
      assert e.rows[i] in t.rows;
    }
    NoHistoryKeptWhole(e.rows);
  }

  lemma {:induction false} NoHistoryKeptWhole(rows: seq<Row>)
    requires forall r :: r in rows ==> r.icon == BuiltIn
    ensures KeepBuiltIn(rows) == rows && HistoryCount(rows) == 0
  {
    if rows != [] {
      assert rows[0] in rows;
      assert forall r :: r in rows[1..] ==> r in rows;
      NoHistoryKeptWhole(rows[1..]);
      assert KeepBuiltIn(rows) == [rows[0]] + rows[1..];
      assert HistoryCount(rows) == HistoryCount(rows[1..]);
    }
  }

  // ---------------------------------------------------------------------------------------------
  // onCreate

  /**
   * onCreate: one built-in row per line of the tag asset, duplicates ignored. The lines are
   * those read before the end of the file or a read failure; an asset that cannot be opened
   * gives no lines.
   */
  function Seeded(lines: seq<string>): (t: Table)
    ensures Valid(t)
    ensures forall r :: r in t.rows ==> r.icon == BuiltIn
    ensures forall x :: x in Names(t.rows) <==> x in lines
    decreases |lines|
  {
    if lines == [] then Empty
    else
      var prev := Seeded(lines[..|lines| - 1]);
      SeedStep(prev, lines[..|lines| - 1], lines[|lines| - 1]);
      assert lines == lines[..|lines| - 1] + [lines[|lines| - 1]];
      InsertRow(prev, lines[|lines| - 1], BuiltIn).0
  }

  /** One more line of the asset keeps the table valid, built-in, and naming exactly the lines read. */
  lemma SeedStep(prev: Table, lines: seq<string>, last: string)
    requires Valid(prev)
    requires forall r :: r in prev.rows ==> r.icon == BuiltIn
    requires forall x :: x in Names(prev.rows) <==> x in lines
    ensures var t := InsertRow(prev, last, BuiltIn).0;
            Valid(t) && (forall r :: r in t.rows ==> r.icon == BuiltIn)
            && (forall x :: x in Names(t.rows) <==> x in lines + [last])
  {
    InsertRowKeepsValid(prev, last, BuiltIn);
    var t := InsertRow(prev, last, BuiltIn).0;
    assert forall x :: x in lines + [last] <==> x in lines || x == last;
    if last !in Names(prev.rows) {
      assert forall r :: r in t.rows <==> r in prev.rows || r == Row(prev.nextId, last, BuiltIn);
      assert forall x :: x in Names(t.rows) <==> x in Names(prev.rows) || x == last;
    }
  }

  /** A tag list without repeats gives one row per line, in file order, ids from 1. */
  lemma {:induction false} SeededDistinct(lines: seq<string>)
    requires forall i, j :: 0 <= i < j < |lines| ==> lines[i] != lines[j]
    ensures Names(Seeded(lines).rows) == lines
    ensures Seeded(lines).nextId == |lines| + 1
    decreases |lines|
  {
    if lines != [] {
      var init := lines[..|lines| - 1];
      SeededDistinct(init);
      var last := lines[|lines| - 1];
      assert last !in init;
      InsertRowKeepsValid(Seeded(init), last, BuiltIn);
      assert lines == init + [last];
    }
  }
}
