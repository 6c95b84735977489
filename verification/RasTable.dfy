/** The table generator: one row for each event that fits the database columns, in id order. */
module RasTable {
  import opened Ordering
  import opened RasEvents
  import opened TableText

  /** The columns after the id. */
  function Columns(): seq<string> {
    ["category", "component", "severity", "message", "description", "service_action", "decoder",
     "control_action", "threshold_count", "threshold_period", "relevant_diags"]
  }

  function RowOf(id: string, e: Details): (row: Row)
    ensures row[0] == id && forall i | 0 <= i < 11 :: row[i + 1] == Get(e, Columns()[i])
  {
    [id, Get(e, "category"), Get(e, "component"), Get(e, "severity"), Get(e, "message"), Get(e, "description"),
     Get(e, "service_action"), Get(e, "decoder"), Get(e, "control_action"), Get(e, "threshold_count"),
     Get(e, "threshold_period"), Get(e, "relevant_diags")]
  }

  /** The widths of the database columns. */
  function Limits(): seq<nat> {
    [8, 16, 16, 8, 1024, 1024, 1024, 64, 256, 16, 16, 256]
  }

  ghost predicate Fits(row: Row) {
    forall i | 0 <= i < WIDTH :: |row[i]| <= Limits()[i]
  }

  method LenOk(row: Row) returns (ok: bool)
    ensures ok <==>
            |row[0]| <= 8 && |row[1]| <= 16 && |row[2]| <= 16 && |row[3]| <= 8 && |row[4]| <= 1024 &&
            |row[5]| <= 1024 && |row[6]| <= 1024 && |row[7]| <= 64 && |row[8]| <= 256 && |row[9]| <= 16 &&
            |row[10]| <= 16 && |row[11]| <= 256
    ensures ok <==> Fits(row)
  {
    ok := true;
    if |row[0]| > 8 { ok := false; }
    if |row[1]| > 16 { ok := false; }
    if |row[2]| > 16 { ok := false; }
    if |row[3]| > 8 { ok := false; }
    if |row[4]| > 1024 { ok := false; }
    if |row[5]| > 1024 { ok := false; }
    if |row[6]| > 1024 { ok := false; }
    if |row[7]| > 64 { ok := false; }
    if |row[8]| > 256 { ok := false; }
    if |row[9]| > 16 { ok := false; }
    if |row[10]| > 16 { ok := false; }
    if |row[11]| > 256 { ok := false; }
  }

  ghost predicate InOrder(rows: seq<Row>) {
    forall a, b | 0 <= a < b < |rows| :: Less(rows[a][0], rows[b][0])
  }

  /** The event has what the message about a duplicate id prints. */
  predicate Told(e: Details) {
    "category" in e && "component" in e && "file_name" in e && "line_num" in e
  }

  /** A listed id is a duplicate if the message can be printed; if not, the id is taken for a new one. */
  predicate Duplicate(list: map<string, Details>, id: string, details: Details) {
    id in list && Told(list[id]) && Told(details)
  }

  /** The event of key k gets a row: it fits, and its id is no duplicate. */
  ghost predicate Due(events: map<string, Details>, was: map<string, Details>, k: string) {
    k in events && !Duplicate(was, k, events[k]) && Fits(RowOf(k, events[k]))
  }

  ghost predicate HasRow(rows: seq<Row>, k: string) {
    exists i :: 0 <= i < |rows| && rows[i][0] == k
  }

  /** Rows strictly ascending by id, one for each of the keys that is due and no other. */
  ghost predicate IsTable(events: map<string, Details>, keys: set<string>, was: map<string, Details>, rows: seq<Row>) {
    && InOrder(rows)
    && (forall i | 0 <= i < |rows| ::
          rows[i][0] in keys && Due(events, was, rows[i][0]) && rows[i] == RowOf(rows[i][0], events[rows[i][0]]))
    && forall k | k in keys && Due(events, was, k) :: HasRow(rows, k)
  }

  lemma TableSkips(events: map<string, Details>, keys: set<string>, was: map<string, Details>, rows: seq<Row>,
                   k: string)
    requires IsTable(events, keys, was, rows) && !Due(events, was, k)
    ensures IsTable(events, keys + {k}, was, rows)
  {
  }

  lemma TableTakes(events: map<string, Details>, keys: set<string>, was: map<string, Details>, rows: seq<Row>,
                   k: string, row: Row)
    requires IsTable(events, keys, was, rows) && Due(events, was, k) && row == RowOf(k, events[k])
    requires forall x | x in keys :: Less(x, k)
    ensures IsTable(events, keys + {k}, was, rows + [row])
  {
    var rows' := rows + [row];
    forall x | x in keys + {k} && Due(events, was, x)
      ensures HasRow(rows', x)
    {
      if x == k {
        assert rows'[|rows|][0] == k;
      } else {
        assert HasRow(rows, x);
        var i :| 0 <= i < |rows| && rows[i][0] == x;
        assert rows'[i][0] == x;
      }
    }
  }

  /** The rows written put their events, and nothing else, in the list. */
  ghost predicate Added(events: map<string, Details>, was: map<string, Details>, list: map<string, Details>,
                        rows: seq<Row>) {
    && (forall k :: k in list <==> k in was || HasRow(rows, k))
    && forall k | k in list :: if HasRow(rows, k) then k in events && list[k] == events[k] else list[k] == was[k]
  }

  lemma AddedTakes(events: map<string, Details>, was: map<string, Details>, list: map<string, Details>,
                   rows: seq<Row>, k: string, row: Row)
    requires Added(events, was, list, rows) && k in events && row[0] == k
    ensures Added(events, was, list[k := events[k]], rows + [row])
  {
    var rows' := rows + [row];
    forall x
      ensures HasRow(rows', x) <==> HasRow(rows, x) || x == k
    {
      if i :| 0 <= i < |rows| && rows[i][0] == x {
        assert rows'[i][0] == x;
      }
      assert rows'[|rows|][0] == k;
    }
  }

  /** What is known after some of the keys. */
  ghost predicate Progress(events: map<string, Details>, keys: set<string>, was: map<string, Details>,
                           list: map<string, Details>, rows: seq<Row>, f: string) {
    f == TextOfRows(rows) && IsTable(events, keys, was, rows) && Added(events, was, list, rows)
  }

  /** The next key is listed as it was before. */
  lemma NotListed(events: map<string, Details>, keys: set<string>, was: map<string, Details>,
                  list: map<string, Details>, rows: seq<Row>, k: string)
    requires IsTable(events, keys, was, rows) && Added(events, was, list, rows) && k !in keys
    ensures k in list <==> k in was
    ensures k in list ==> list[k] == was[k]
  {
  }

  lemma Takes(events: map<string, Details>, keys: set<string>, was: map<string, Details>, list: map<string, Details>,
              rows: seq<Row>, f: string, k: string, row: Row)
    requires Progress(events, keys, was, list, rows, f) && Due(events, was, k) && row == RowOf(k, events[k])
    requires forall x | x in keys :: Less(x, k)
    ensures Progress(events, keys + {k}, was, list[k := events[k]], rows + [row], f + RowText(row))
  {
    RowsSnoc(rows, row);
    TableTakes(events, keys, was, rows, k, row);
    AddedTakes(events, was, list, rows, k, row);
  }

  lemma {:induction false} RowsSnoc(rows: seq<Row>, row: Row)
    ensures TextOfRows(rows + [row]) == TextOfRows(rows) + RowText(row)
  {
    if rows == [] {
      assert [row][1..] == [] && RowText(row) + "" == RowText(row);
    } else {
      assert (rows + [row])[1..] == rows[1..] + [row];
      RowsSnoc(rows[1..], row);
    }
  }

  /** Writes column k. */
  method WriteCell(f: string, row: Row, k: nat) returns (g: string)
    requires k < WIDTH && f == Cells(row, k)
    ensures g == Cells(row, k + 1)
  {
    g := f + (Cell(k, row[k]) + [Separator(k)]);
  }

  method WriteRow(row: Row) returns (f: string)
    ensures f == RowText(row)
  {
    f := WriteCell("", row, 0);
    f := WriteCell(f, row, 1);
    f := WriteCell(f, row, 2);
    f := WriteCell(f, row, 3);
    f := WriteCell(f, row, 4);
    f := WriteCell(f, row, 5);
    f := WriteCell(f, row, 6);
    f := WriteCell(f, row, 7);
    f := WriteCell(f, row, 8);
    f := WriteCell(f, row, 9);
    f := WriteCell(f, row, 10);
    f := WriteCell(f, row, 11);
  }

  class RasTableGen {
    /** The ids that have a row, with their events. */
    var idList: map<string, Details>

    constructor ()
      ensures idList == map[]
    {
      idList := map[];
    }

    method IdOk(id: string, details: Details) returns (ok: bool)
      modifies this
      ensures !ok <==>
              && id in old(idList)
              && var o := old(idList)[id];
                 && "category" in o && "component" in o && "file_name" in o && "line_num" in o
                 && "category" in details && "component" in details && "file_name" in details && "line_num" in details
      ensures ok <==> !Duplicate(old(idList), id, details)
      ensures idList == if ok then old(idList)[id := details] else old(idList)
    {
      if id in idList {
        var orig := idList[id];
        if Told(orig) && Told(details) {
          return false;
        }
      }
      idList := idList[id := details];
      return true;
    }

    /** One key of the loop. */
    method WriteEvent(f: string, id: string, details: Details, ghost events: map<string, Details>,
                      ghost keys: set<string>, ghost was: map<string, Details>, ghost rows: seq<Row>)
      returns (g: string, ghost rows': seq<Row>)
      requires Progress(events, keys, was, idList, rows, f) && id in events && details == events[id]
      requires id !in keys && forall x | x in keys :: Less(x, id)
      modifies this
      ensures Progress(events, keys + {id}, was, idList, rows', g)
    {
      g, rows' := f, rows;
      NotListed(events, keys, was, idList, rows, id);
      var row := RowOf(id, details);
      var ok := LenOk(row);
      if ok {
        ok := IdOk(id, details);
      }
      if ok {
        Takes(events, keys, was, old(idList), rows, f, id, row);
        var line := WriteRow(row);
        g, rows' := f + line, rows + [row];
      } else {
        TableSkips(events, keys, was, rows, id);
      }
    }

    method WriteFile(events: map<string, Details>) returns (f: string, ghost rows: seq<Row>)
      requires forall k, n | k in events && n in Columns() :: n in events[k]
      modifies this
      ensures f == TextOfRows(rows) && IsTable(events, events.Keys, old(idList), rows)
      ensures Added(events, old(idList), idList, rows)
      ensures (forall i | 0 <= i < |rows| :: Readable(rows[i])) ==> ReadTable(f) == Table(rows)
    {
      f, rows := "", [];
      var keys := Sorted(events.Keys);
      Starts(events, keys, idList);
      hide Progress, Upto, IsTable, Added, Readable, TextOfRows, ReadTable, Columns;
      for i := 0 to |keys|
        invariant Progress(events, Upto(keys, i), old(idList), idList, rows, f)
      {
        Before(keys, i);
        f, rows := WriteEvent(f, keys[i], events[keys[i]], events, Upto(keys, i), old(idList), rows);
      }
      Completes(events, keys, old(idList), idList, rows, f);
    }
  }

  /** The first i keys. */
  ghost function Upto(keys: seq<string>, i: nat): set<string>
    requires i <= |keys|
  {
    set k | k in keys[..i]
  }

  lemma Starts(events: map<string, Details>, keys: seq<string>, list: map<string, Details>)
    ensures Progress(events, Upto(keys, 0), list, list, [], "")
  {
    assert Upto(keys, 0) == {};
  }

  lemma Completes(events: map<string, Details>, keys: seq<string>, was: map<string, Details>,
                  list: map<string, Details>, rows: seq<Row>, f: string)
    requires Progress(events, Upto(keys, |keys|), was, list, rows, f) && forall k :: k in keys <==> k in events
    ensures f == TextOfRows(rows) && IsTable(events, events.Keys, was, rows) && Added(events, was, list, rows)
    ensures (forall i | 0 <= i < |rows| :: Readable(rows[i])) ==> ReadTable(f) == Table(rows)
  {
    hide IsTable, Added, Readable, TextOfRows, ReadTable;
    assert keys[..|keys|] == keys;
    assert Upto(keys, |keys|) == events.Keys;
    if forall i | 0 <= i < |rows| :: Readable(rows[i]) {
      TableRoundTrip(rows);
    }
  }

  lemma Before(keys: seq<string>, i: nat)
    requires Ascending(keys) && i < |keys|
    ensures keys[i] !in Upto(keys, i) && forall x | x in Upto(keys, i) :: Less(x, keys[i])
    ensures Upto(keys, i + 1) == Upto(keys, i) + {keys[i]}
  {
    forall x | x in Upto(keys, i)
      ensures Less(x, keys[i]) && x != keys[i]
    {
      var j :| 0 <= j < i && keys[..i][j] == x;
      AscendingDistinct(keys, j, i);
    }
    assert keys[..i + 1] == keys[..i] + [keys[i]];
  }

  /** The ids of two rows, in the order of the rows: smaller where they first differ, or a proper prefix. */
  lemma RowsAscend(events: map<string, Details>, keys: set<string>, was: map<string, Details>, rows: seq<Row>,
                   i: nat, j: nat)
    requires IsTable(events, keys, was, rows) && i < j < |rows|
    ensures var a, b := rows[i][0], rows[j][0];
            exists k :: 0 <= k <= |a| && k < |b| && a[..k] == b[..k] && (k == |a| || a[k] < b[k])
  {
    LessExact(rows[i][0], rows[j][0]);
  }

  /** An id listed before gets a row, if it fits, exactly when the message about it could not be printed. */
  lemma ListedAgain(events: map<string, Details>, was: map<string, Details>, rows: seq<Row>, k: string)
    requires IsTable(events, events.Keys, was, rows) && k in events && k in was && Fits(RowOf(k, events[k]))
    ensures HasRow(rows, k) <==> !(Told(was[k]) && Told(events[k]))
  {
    if HasRow(rows, k) {
      var i :| 0 <= i < |rows| && rows[i][0] == k;
      assert Due(events, was, rows[i][0]);
    }
  }

  /** The table of all events that fit. */
  ghost predicate IsTableOf(events: map<string, Details>, f: string) {
    exists rows :: IsTable(events, events.Keys, map[], rows) && f == TextOfRows(rows)
  }

  /** A generator that starts fresh writes a row for every event that fits. */
  method Generate(events: map<string, Details>) returns (f: string)
    requires forall k, n | k in events && n in Columns() :: n in events[k]
    ensures IsTableOf(events, f)
  {
    var gen := new RasTableGen();
    ghost var rows;
    f, rows := gen.WriteFile(events);
    assert IsTable(events, events.Keys, map[], rows);
  }

  function Ids(rows: seq<Row>): (ids: seq<string>)
    ensures |ids| == |rows| && forall i | 0 <= i < |rows| :: ids[i] == rows[i][0]
  {
    if rows == [] then [] else Ids(rows[..|rows| - 1]) + [rows[|rows| - 1][0]]
  }

  lemma SameIds(events: map<string, Details>, keys: set<string>, was: map<string, Details>, a: seq<Row>, b: seq<Row>,
                x: string)
    requires IsTable(events, keys, was, a) && IsTable(events, keys, was, b) && x in Ids(a)
    ensures x in Ids(b)
  {
    var i :| 0 <= i < |a| && Ids(a)[i] == x;
    assert a[i][0] == x && HasRow(b, x);
    var j :| 0 <= j < |b| && b[j][0] == x;
    assert Ids(b)[j] == x;
  }

  /** The table is determined by the events. */
  lemma TableUnique(events: map<string, Details>, keys: set<string>, was: map<string, Details>, a: seq<Row>,
                    b: seq<Row>)
    requires IsTable(events, keys, was, a) && IsTable(events, keys, was, b)
    ensures a == b
  {
    forall x
      ensures x in Ids(a) <==> x in Ids(b)
    {
      if x in Ids(a) {
        SameIds(events, keys, was, a, b, x);
      }
      if x in Ids(b) {
        SameIds(events, keys, was, b, a, x);
      }
    }
    AscendingUnique(Ids(a), Ids(b));
    forall i | 0 <= i < |a|
      ensures a[i] == b[i]
    {
      assert a[i][0] == Ids(a)[i] == b[i][0];
    }
  }
}
