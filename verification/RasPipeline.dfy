/** From events through the event file to the database table. */
module RasPipeline {
  import opened Attributes
  import opened RasFile
  import opened RasEvents
  import opened RasClean
  import opened RasRoundTrip
  import opened TableText
  import opened RasTable

  lemma RecoveredGet(e: Details, n: string)
    requires n in Names()
    ensures Get(Recovered(e), n) == Written(e, n)
  {
  }

  lemma ColumnClean(e: Details, i: nat)
    requires CleanEvent(e) && i < 11
    ensures Clean(Get(Recovered(e), Columns()[i]))
  {
    ColumnNamed(i);
    RecoveredGet(e, Columns()[i]);
  }

  lemma RowClean(row: Row)
    requires (forall i | 0 <= i < WIDTH :: Clean(row[i])) && ',' !in row[9]
    ensures Readable(row)
  {
    forall i, j | 0 <= i < WIDTH && 0 <= j < |row[i]|
      ensures row[i][j] != '"' && row[i][j] != '\n'
    {
      assert Clean(row[i]);
    }
  }

  lemma IdClean(e: Details)
    requires CleanEvent(e)
    ensures Clean(Written(e, "id"))
  {
    assert "id" in Names();
  }

  lemma RowColumn(id: string, e: Details, i: nat)
    requires CleanEvent(e) && id == Written(e, "id") && i < WIDTH
    ensures Clean(RowOf(id, Recovered(e))[i])
  {
    if i == 0 {
      IdClean(e);
    } else {
      ColumnClean(e, i - 1);
      assert RowOf(id, Recovered(e))[i - 1 + 1] == Get(Recovered(e), Columns()[i - 1]);
    }
  }

  lemma CleanReadable(id: string, e: Details)
    requires CleanEvent(e) && ',' !in Get(e, "threshold_count") && id == Written(e, "id")
    ensures Readable(RowOf(id, Recovered(e)))
  {
    forall i | 0 <= i < WIDTH
      ensures Clean(RowOf(id, Recovered(e))[i])
    {
      RowColumn(id, e, i);
    }
    CountColumn(id, e);
    RowClean(RowOf(id, Recovered(e)));
  }

  lemma CountColumn(id: string, e: Details)
    ensures RowOf(id, Recovered(e))[9] == Get(e, "threshold_count")
  {
    assert "threshold_count" in Names();
    RecoveredGet(e, "threshold_count");
  }

  lemma ColumnNamed(i: nat)
    requires i < 11
    ensures Columns()[i] in Names()
  {
  }

  /** What the table of the restored events holds. */
  lemma RowsReadable(events: map<string, Details>, result: map<string, Details>, rows: seq<Row>)
    requires forall k | k in events :: CleanEvent(events[k]) && ',' !in Get(events[k], "threshold_count")
    requires Restored(events, result) && IsTable(result, result.Keys, map[], rows)
    ensures forall i | 0 <= i < |rows| :: Readable(rows[i])
  {
    hide CleanEvent, Recovered, Readable, Written;
    forall i | 0 <= i < |rows|
      ensures Readable(rows[i])
    {
      var x := rows[i][0];
      var k :| k in events && x == NewId(events[k]);
      WrittenAs(events[k], "id");
      CleanReadable(x, events[k]);
    }
  }

  lemma RecoveredColumn(e: Details, n: string)
    requires n in Columns()
    ensures n in Recovered(e)
  {
    hide Written;
    var i :| 0 <= i < 11 && Columns()[i] == n;
    ColumnNamed(i);
  }

  lemma RestoredColumns(events: map<string, Details>, result: map<string, Details>)
    requires Restored(events, result)
    ensures forall k, n | k in result && n in Columns() :: n in result[k]
  {
    hide Recovered, Columns;
    forall x, n | x in result && n in Columns()
      ensures n in result[x]
    {
      var k :| k in events && x == NewId(events[k]);
      RecoveredColumn(events[k], n);
    }
  }

  /** The table read back holds, in id order, exactly the recovered events that fit the database. */
  ghost predicate Reported(events: map<string, Details>, table: string) {
    exists result, rows: seq<Row> ::
      Restored(events, result) && IsTable(result, result.Keys, map[], rows) && ReadTable(table) == Table(rows)
  }

  /** The whole way from events to table. */
  method Pipeline(events: map<string, Details>, prolog: seq<string>, now: string, fileName: string)
    returns (table: string)
    requires forall k | k in events :: Complete(events[k]) && Warned(events[k]) && CleanInput(events[k])
    requires forall k | k in events :: ',' !in Get(events[k], "threshold_count")
    requires DistinctUpper(events) && Frame(prolog, now)
    ensures Reported(events, table)
  {
    hide CleanEvent, CleanInput, Complete, Warned, Restored, IsTable, Readable, Columns, Frame;
    var sorted := RoundTrip(events, prolog, now, fileName);
    RestoredColumns(events, sorted);
    table := Generate(sorted);
    ghost var rows :| IsTable(sorted, sorted.Keys, map[], rows) && table == TextOfRows(rows);
    forall k | k in events
      ensures CleanEvent(events[k])
    {
      CleanExact(events[k]);
    }
    RowsReadable(events, sorted, rows);
    TableRoundTrip(rows);
  }
}
