/** Events written, scanned and sorted come back as they were written. */
module RasRoundTrip {
  import opened Text
  import opened Attributes
  import opened Scanner
  import opened Ordering
  import opened RasFile
  import opened RasEvents
  import opened RasClean
  import opened RasSorter

  // ----- the reader -----

  function Show(n: nat): string {
    if n < 10 then [('0' as int + n) as char] else Show(n / 10) + Show(n % 10)
  }

  /** An element that names no file of its own gets the file and line it was found in. */
  function Sourced(m: Details, fileName: string, line: nat): Details {
    if "file_name" in m then m else m["file_name" := fileName]["line_num" := Show(line)]
  }

  /** The number a string of digits stands for. */
  function Number(s: string): nat
    requires forall i | 0 <= i < |s| :: '0' <= s[i] <= '9'
  {
    if s == "" then 0 else 10 * Number(s[..|s| - 1]) + (s[|s| - 1] as int - '0' as int)
  }

  /** Numbers are shown in decimal, without leading zeros. */
  lemma {:induction false} ShowReads(n: nat)
    ensures Show(n) != "" && (forall i | 0 <= i < |Show(n)| :: '0' <= Show(n)[i] <= '9') && Number(Show(n)) == n
    ensures n > 0 ==> Show(n)[0] != '0'
  {
    if n >= 10 {
      var front, last := Show(n / 10), Show(n % 10);
      ShowReads(n / 10);
      assert |last| == 1 && Show(n) == front + last && Show(n)[..|front|] == front;
    } else {
      assert Show(n)[..0] == "";
    }
  }

  /** The elements that parse, in order. */
  function Extracted(chunks: seq<Chunk>, fileName: string): seq<Details> {
    if chunks == [] then []
    else
      var c := chunks[|chunks| - 1];
      var p := ReadElement(c.text);
      Extracted(chunks[..|chunks| - 1], fileName) + if p.Attrs? then [Sourced(p.attrs, fileName, c.line)] else []
  }

  method ParseChunks(found: seq<Chunk>, fileName: string) returns (elements: seq<Details>)
    ensures elements == Extracted(found, fileName)
  {
    elements := [];
    for i := 0 to |found|
      invariant elements == Extracted(found[..i], fileName)
    {
      assert found[..i + 1][..i] == found[..i];
      var p := ReadElement(found[i].text);
      if p.Attrs? {
        elements := elements + [Sourced(p.attrs, fileName, found[i].line)];
      }
    }
    assert found[..|found|] == found;
  }

  /** What the elements of a file parse to. */
  ghost predicate IsExtract(f: string, fileName: string, elements: seq<Details>) {
    exists chunks :: IsScan(Lines(f), START, END, chunks) && elements == Extracted(chunks, fileName)
  }

  method ReadExtract(f: string, fileName: string) returns (elements: seq<Details>)
    ensures IsExtract(f, fileName, elements)
  {
    var found := Scan(Lines(f), START, END);
    elements := ParseChunks(found, fileName);
  }

  /** An element that names a file names a line too. */
  predicate NamesLine(c: Chunk) {
    var p := ReadElement(c.text);
    p.Attrs? && "file_name" in p.attrs ==> "line_num" in p.attrs
  }

  lemma {:induction false} ExtractedLocated(chunks: seq<Chunk>, fileName: string)
    ensures AllLocated(Extracted(chunks, fileName)) <==> forall i | 0 <= i < |chunks| :: NamesLine(chunks[i])
  {
    if chunks != [] {
      var n := |chunks| - 1;
      var front, c, es := chunks[..n], chunks[n], Extracted(chunks[..n], fileName);
      hide ReadElement, Extracted;
      ExtractedLocated(front, fileName);
      ExtractedNext(chunks, fileName);
      forall i | 0 <= i < n
        ensures front[i] == chunks[i]
      {
      }
      if forall i | 0 <= i < |chunks| :: NamesLine(chunks[i]) {
        assert forall i | 0 <= i < n :: NamesLine(front[i]);
        assert NamesLine(c);
      } else if forall i | 0 <= i < n :: NamesLine(front[i]) {
        assert !NamesLine(c);
      }
    }
  }

  lemma ExtractedNext(chunks: seq<Chunk>, fileName: string)
    requires chunks != []
    ensures var n := |chunks| - 1;
            AllLocated(Extracted(chunks, fileName))
            <==> AllLocated(Extracted(chunks[..n], fileName)) && NamesLine(chunks[n])
  {
    var n := |chunks| - 1;
    var c, es, ms := chunks[n], Extracted(chunks[..n], fileName), Extracted(chunks, fileName);
    var p := ReadElement(c.text);
    hide ReadElement;
    if p.Attrs? {
      assert ms == es + [Sourced(p.attrs, fileName, c.line)];
      assert ms[|es|] == Sourced(p.attrs, fileName, c.line);
      assert forall i | 0 <= i < |es| :: ms[i] == es[i];
      if AllLocated(ms) {
        assert forall i | 0 <= i < |es| :: Located(ms[i]);
        assert Located(ms[|es|]);
      }
    } else {
      assert ms == es;
    }
  }

  /** A written element that names no file gets the file and the line it was found in. */
  lemma GetsSource(fs: seq<Field>, line: nat, fileName: string)
    requires Writable(fs) && !Named(fs, "file_name")
    ensures Extracted([Chunk(Element(fs), line)], fileName) ==
            [MapOf(fs)["file_name" := fileName]["line_num" := Show(line)]]
  {
    ElementRoundTrip(fs);
    MapOfNames(fs, "file_name");
    var c := Chunk(Element(fs), line);
    hide ReadElement, Element, MapOf, Show;
    assert [c][..0] == [] && [c][0] == c;
    assert Extracted([], fileName) == [];
  }

  /** Elements read from a file sort exactly when each that names a file names its line, and definitions agree. */
  lemma ReadSorts(chunks: seq<Chunk>, fileName: string)
    ensures var es := Extracted(chunks, fileName);
            SortAll(map[], es).Kept? <==> (forall i | 0 <= i < |chunks| :: NamesLine(chunks[i])) && Consistent(es)
  {
    SortExact(Extracted(chunks, fileName));
    ExtractedLocated(chunks, fileName);
  }

  /** One written element that names a file and no line ends the run. */
  lemma LostLine(fs: seq<Field>, chunks: seq<Chunk>, i: nat, fileName: string)
    requires Writable(fs) && Named(fs, "file_name") && !Named(fs, "line_num")
    requires i < |chunks| && chunks[i].text == Element(fs)
    ensures SortAll(map[], Extracted(chunks, fileName)).Crashed?
  {
    ElementRoundTrip(fs);
    MapOfNames(fs, "file_name");
    MapOfNames(fs, "line_num");
    hide ReadElement, Element, MapOf, Extracted;
    assert !NamesLine(chunks[i]);
    ReadSorts(chunks, fileName);
  }

  /** An element that gives an id and a file. */
  function ExampleFields(): seq<Field> {
    [Field("id", "1"), Field("file_name", "a.h")]
  }

  lemma ExampleClean()
    ensures Clean("1") && Clean("a.h")
  {
    NoSlash("1");
    NoSlash("a.h");
  }

  lemma ExampleProper()
    ensures Proper(ExampleFields())
  {
    hide IsName;
    NamesProper(0);
    NamesProper(12);
    assert Names()[0] == "id" && Names()[12] == "file_name" && |"id"| != |"file_name"|;
  }

  lemma ExampleNames()
    ensures Named(ExampleFields(), "file_name") && !Named(ExampleFields(), "line_num")
  {
    assert ExampleFields()[1].name == "file_name";
    assert |"id"| != |"line_num"| && |"file_name"| != |"line_num"|;
  }

  lemma {:induction false} LostExample(line: nat, fileName: string)
    ensures var c := Chunk(Element([Field("id", "1"), Field("file_name", "a.h")]), line);
            SortAll(map[], Extracted([c], fileName)).Crashed?
  {
    var fs := ExampleFields();
    ExampleClean();
    ExampleProper();
    ExampleNames();
    hide Clean, Proper, Named, Element, Extracted, SortAll;
    LostLine(fs, [Chunk(Element(fs), line)], 0, fileName);
  }

  // ----- what was written comes back -----

  lemma {:induction false} MapOfAt(fs: seq<Field>, i: nat)
    requires i < |fs| && forall a, b | 0 <= a < b < |fs| :: fs[a].name != fs[b].name
    ensures fs[i].name in MapOf(fs) && MapOf(fs)[fs[i].name] == fs[i].value
  {
    if i > 0 {
      assert fs[1..][i - 1] == fs[i];
      MapOfAt(fs[1..], i - 1);
    }
  }

  lemma FieldsWritable(e: Details)
    requires CleanEvent(e)
    ensures Writable(Fields(e)) && Encodes(Fields(e))
  {
    var fs := Fields(e);
    forall i | 0 <= i < |fs|
      ensures IsName(fs[i].name) && Clean(fs[i].value)
    {
      NamesProper(i);
      assert Names()[i] in Names();
    }
    forall i, j | 0 <= i < j < |fs|
      ensures fs[i].name != fs[j].name
    {
      NamesDistinct(i, j);
    }
  }

  lemma MapIs(fs: seq<Field>, r: Details)
    requires forall a, b | 0 <= a < b < |fs| :: fs[a].name != fs[b].name
    requires forall i | 0 <= i < |fs| :: fs[i].name in r && r[fs[i].name] == fs[i].value
    requires forall n | n in r :: Named(fs, n)
    ensures MapOf(fs) == r
  {
    var m := MapOf(fs);
    forall n
      ensures n in m <==> n in r
      ensures n in m ==> m[n] == r[n]
    {
      MapOfNames(fs, n);
      if Named(fs, n) {
        var i :| 0 <= i < |fs| && fs[i].name == n;
        MapOfAt(fs, i);
      }
    }
  }

  lemma FieldsRecovered(e: Details)
    requires Writable(Fields(e))
    ensures MapOf(Fields(e)) == Recovered(e)
  {
    hide Written, Clean;
    var fs, r := Fields(e), Recovered(e);
    forall i | 0 <= i < |fs|
      ensures fs[i].name in r && r[fs[i].name] == fs[i].value
    {
      assert Names()[i] in Names();
    }
    forall n | n in r
      ensures Named(fs, n)
    {
      var i :| 0 <= i < |Names()| && Names()[i] == n;
      assert fs[i].name == n;
    }
    MapIs(fs, r);
  }

  lemma RecoveredSorts(e: Details)
    ensures Accepted(Recovered(e)) && Id(Recovered(e)) == NewId(e) && Record(Recovered(e)) == Recovered(e)
  {
    WrittenAs(e, "id");
    NamesAre("id");
    RecoveredNeeded(e);
    hide Written, Names, Accepted;
  }

  lemma RecoveredNeeded(e: Details)
    ensures Accepted(Recovered(e))
  {
    hide Written;
    forall n | n in Needed()
      ensures n in Names()
    {
    }
  }

  /** The chunk parses and names its own file. */
  predicate Parses(c: Chunk) {
    ReadElement(c.text).Attrs? && "file_name" in ReadElement(c.text).attrs
  }

  lemma {:induction false} ExtractsAll(chunks: seq<Chunk>, fileName: string)
    requires forall i | 0 <= i < |chunks| :: Parses(chunks[i])
    ensures var ms := Extracted(chunks, fileName);
            |ms| == |chunks| && forall i | 0 <= i < |chunks| :: ReadElement(chunks[i].text) == Attrs(ms[i])
  {
    if chunks != [] {
      var n := |chunks| - 1;
      assert Parses(chunks[n]);
      ExtractsAll(chunks[..n], fileName);
    }
  }

  /** The id under which an event comes back. */
  function NewId(e: Details): string {
    Upper(Get(e, "id"))
  }

  /** The distinct ids the round trip needs: distinct still in upper case. */
  ghost predicate DistinctUpper(events: map<string, Details>) {
    forall a, b | a in events && b in events && a != b :: NewId(events[a]) != NewId(events[b])
  }

  /** ms are the events of the keys as they are recovered. */
  ghost predicate RecoveredList(events: map<string, Details>, keys: seq<string>, ms: seq<Details>) {
    |ms| == |keys| && forall i | 0 <= i < |keys| :: keys[i] in events && ms[i] == Recovered(events[keys[i]])
  }

  /** The element written for an event reads as the recovered event. */
  lemma EventReads(e: Details, fs: seq<Field>)
    requires CleanEvent(e) && fs == Fields(e)
    ensures Writable(fs) && ReadElement(Element(fs)) == Attrs(Recovered(e)) && "file_name" in Recovered(e)
  {
    FieldsWritable(e);
    FieldsRecovered(e);
    ElementRoundTrip(fs);
    assert "file_name" in Names();
  }

  /** Reading the file back yields the events, in key order. */
  lemma ReadsBack(events: map<string, Details>, keys: seq<string>, es: seq<seq<Field>>, prolog: seq<string>,
                  now: string, chunks: seq<Chunk>, fileName: string)
    requires Frame(prolog, now) && InKeyOrder(events, keys, es)
    requires forall k | k in events :: CleanEvent(events[k])
    requires IsScan(Lines(Concat(FileLines(prolog, now, es))), START, END, chunks)
    ensures RecoveredList(events, keys, Extracted(chunks, fileName))
  {
    hide CleanEvent, Writable, Fields, Recovered, Element, Extracted, IsScan, FileLines;
    forall i | 0 <= i < |es|
      ensures Writable(es[i])
    {
      EventReads(events[keys[i]], es[i]);
    }
    FileFound(prolog, now, es, chunks);
    ChunksRead(events, keys, es, chunks, fileName);
  }

  lemma ChunksRead(events: map<string, Details>, keys: seq<string>, es: seq<seq<Field>>, chunks: seq<Chunk>,
                   fileName: string)
    requires |es| == |keys| == |chunks| && Listed(events, keys, es) && forall k | k in events :: CleanEvent(events[k])
    requires forall i | 0 <= i < |es| :: chunks[i].text == Element(es[i])
    ensures RecoveredList(events, keys, Extracted(chunks, fileName))
  {
    hide CleanEvent, Writable, Fields, Recovered, Element, Extracted, ReadElement;
    forall i | 0 <= i < |es|
      ensures Parses(chunks[i]) && ReadElement(chunks[i].text) == Attrs(Recovered(events[keys[i]]))
    {
      EventReads(events[keys[i]], es[i]);
    }
    ExtractsAll(chunks, fileName);
  }

  lemma FileFound(prolog: seq<string>, now: string, es: seq<seq<Field>>, chunks: seq<Chunk>)
    requires Frame(prolog, now) && forall i | 0 <= i < |es| :: Writable(es[i])
    requires IsScan(Lines(Concat(FileLines(prolog, now, es))), START, END, chunks)
    ensures |chunks| == |es| && forall i | 0 <= i < |es| :: chunks[i].text == Element(es[i])
  {
    var ls, els := FileLines(prolog, now, es), Elements(es);
    FileHolds(prolog, now, es);
    FileSplits(ls, |prolog| + 1, els);
    ScanFinds(ls, |prolog| + 1, els, chunks);
  }

  /** result holds the recovered events, each under its id in upper case, and nothing else. */
  ghost predicate Restored(events: map<string, Details>, result: map<string, Details>) {
    && (forall k | k in events :: var x := NewId(events[k]); x in result && result[x] == Recovered(events[k]))
    && forall x | x in result :: exists k :: k in events && x == NewId(events[k])
  }

  lemma SortsBack(events: map<string, Details>, keys: seq<string>, ms: seq<Details>)
    requires RecoveredList(events, keys, ms) && DistinctUpper(events) && Ascending(keys)
    ensures DistinctIds(ms) && forall i | 0 <= i < |ms| :: Accepted(ms[i])
    ensures forall i | 0 <= i < |ms| :: Id(ms[i]) == NewId(events[keys[i]]) && Record(ms[i]) == ms[i]
  {
    hide Accepted, Recovered, Record, NewId, Id;
    forall i | 0 <= i < |ms|
      ensures Accepted(ms[i]) && Id(ms[i]) == NewId(events[keys[i]]) && Record(ms[i]) == ms[i]
    {
      RecoveredSorts(events[keys[i]]);
    }
    forall i, j | 0 <= i < j < |ms|
      ensures Id(ms[i]) != Id(ms[j])
    {
      AscendingDistinct(keys, i, j);
    }
  }

  lemma RestoredAt(events: map<string, Details>, keys: seq<string>, ms: seq<Details>, m: map<string, Details>, i: nat)
    requires RecoveredList(events, keys, ms) && Holding(m, ms) && i < |ms|
    requires Id(ms[i]) == NewId(events[keys[i]]) && Record(ms[i]) == ms[i]
    ensures NewId(events[keys[i]]) in m && m[NewId(events[keys[i]])] == Recovered(events[keys[i]])
  {
    assert Id(ms[i]) in m;
  }

  lemma RestoredBy(events: map<string, Details>, keys: seq<string>, ms: seq<Details>, m: map<string, Details>)
    requires RecoveredList(events, keys, ms) && (forall k :: k in keys <==> k in events) && Holding(m, ms)
    requires forall i | 0 <= i < |ms| :: Id(ms[i]) == NewId(events[keys[i]]) && Record(ms[i]) == ms[i]
    ensures Restored(events, m)
  {
    hide Written;
    forall k | k in events
      ensures NewId(events[k]) in m && m[NewId(events[k])] == Recovered(events[k])
    {
      var i :| 0 <= i < |keys| && keys[i] == k;
      RestoredAt(events, keys, ms, m, i);
    }
    forall x | x in m
      ensures exists k :: k in events && x == NewId(events[k])
    {
      var i :| 0 <= i < |ms| && Id(ms[i]) == x;
      assert keys[i] in events;
    }
  }

  lemma SortRestores(events: map<string, Details>, keys: seq<string>, ms: seq<Details>)
    requires RecoveredList(events, keys, ms) && DistinctUpper(events) && Ascending(keys)
    requires forall k :: k in keys <==> k in events
    ensures SortAll(map[], ms).Kept? && Restored(events, SortAll(map[], ms).events)
  {
    hide Accepted, Recovered, Record, NewId, Id, SortAll;
    SortsBack(events, keys, ms);
    SortKeeps(ms);
    RestoredBy(events, keys, ms, SortAll(map[], ms).events);
  }

  /** What is read of a written file sorts to the events. */
  lemma FileRestores(events: map<string, Details>, prolog: seq<string>, now: string, f: string, fileName: string,
                     elements: seq<Details>)
    requires IsFile(events, prolog, now, f) && IsExtract(f, fileName, elements)
    requires Frame(prolog, now) && DistinctUpper(events) && forall k | k in events :: CleanEvent(events[k])
    ensures SortAll(map[], elements).Kept? && Restored(events, SortAll(map[], elements).events)
  {
    hide CleanEvent, Recovered, SortAll, Restored, Extracted, IsScan, Frame, Listed, FileLines;
    var keys, es :| InKeyOrder(events, keys, es) && f == Concat(FileLines(prolog, now, es));
    var chunks :| IsScan(Lines(f), START, END, chunks) && elements == Extracted(chunks, fileName);
    ReadsBack(events, keys, es, prolog, now, chunks, fileName);
    SortRestores(events, keys, elements);
  }

  /**
   * Writing events, reading the file and sorting what was read: every event comes back under its id in upper case,
   * with the service action expanded, missing optional attributes empty, and its own file name and line number.
   */
  method RoundTrip(events: map<string, Details>, prolog: seq<string>, now: string, fileName: string)
    returns (result: map<string, Details>)
    requires forall k | k in events :: Complete(events[k]) && Warned(events[k]) && CleanInput(events[k])
    requires DistinctUpper(events) && Frame(prolog, now)
    ensures Restored(events, result)
  {
    hide CleanEvent, CleanInput, Complete, Warned, Encodes, Fields, Writable, SortAll, Restored;
    forall k | k in events
      ensures CleanEvent(events[k])
    {
      CleanExact(events[k]);
    }
    var ok, f := WriteEvents(events, prolog, now);
    forall k | k in events
      ensures Writes(events[k])
    {
      FieldsWritable(events[k]);
    }
    var elements := ReadExtract(f, fileName);
    FileRestores(events, prolog, now, f, fileName, elements);
    var sorter := new RasEventSorter();
    var crashed := sorter.Sort(elements);
    result := sorter.events;
  }
}
