/** The event file and the table in the strings of the source. */
module Formats {
  import opened Text
  import opened Rewriting
  import opened ServiceText
  import opened Attributes
  import opened RasFile
  import opened RasEvents
  import opened TableText
  import opened RasTable

  // ----- the line of an event -----

  lemma PairsStep(fs: seq<Field>, i: nat)
    requires i < |fs|
    ensures Pairs(fs[i..]) == Pair(fs[i]) + Pairs(fs[i + 1..])
  {
    assert fs[i..][0] == fs[i] && fs[i..][1..] == fs[i + 1..];
  }

  lemma FieldIs(e: Details, i: nat, n: string)
    requires i < 14 && Names()[i] == n
    ensures |Fields(e)| == 14 && Fields(e)[i] == Field(n, Written(e, n))
  {
    hide Written;
  }

  lemma PairAt(e: Details, i: nat, n: string)
    requires i < 14 && Names()[i] == n
    ensures |Fields(e)| == 14
    ensures Pairs(Fields(e)[i..]) == (n + ("=\"" + (Written(e, n) + "\" "))) + Pairs(Fields(e)[i + 1..])
  {
    hide Written, Fields, Names, Pairs;
    FieldIs(e, i, n);
    PairsStep(Fields(e), i);
  }

  lemma FirstPairs(e: Details)
    ensures |Fields(e)| == 14
    ensures Pairs(Fields(e)[0..]) ==
            ("id" + ("=\"" + (Written(e, "id") + "\" "))) + (
            ("category" + ("=\"" + (Written(e, "category") + "\" "))) + (
            ("component" + ("=\"" + (Written(e, "component") + "\" "))) + (
            ("severity" + ("=\"" + (Written(e, "severity") + "\" "))) + (
            ("message" + ("=\"" + (Written(e, "message") + "\" "))) + Pairs(Fields(e)[5..])))))
  {
    hide Written, Fields, Pairs;
    PairAt(e, 0, "id");
    PairAt(e, 1, "category");
    PairAt(e, 2, "component");
    PairAt(e, 3, "severity");
    PairAt(e, 4, "message");
  }

  lemma MiddlePairs(e: Details)
    ensures |Fields(e)| == 14
    ensures Pairs(Fields(e)[5..]) ==
            ("description" + ("=\"" + (Written(e, "description") + "\" "))) + (
            ("service_action" + ("=\"" + (Written(e, "service_action") + "\" "))) + (
            ("decoder" + ("=\"" + (Written(e, "decoder") + "\" "))) + (
            ("control_action" + ("=\"" + (Written(e, "control_action") + "\" "))) + (
            ("threshold_count" + ("=\"" + (Written(e, "threshold_count") + "\" "))) + Pairs(Fields(e)[10..])))))
  {
    hide Written, Fields, Pairs;
    PairAt(e, 5, "description");
    PairAt(e, 6, "service_action");
    PairAt(e, 7, "decoder");
    PairAt(e, 8, "control_action");
    PairAt(e, 9, "threshold_count");
  }

  lemma LastPairs(e: Details)
    ensures |Fields(e)| == 14
    ensures Pairs(Fields(e)[10..]) ==
            ("threshold_period" + ("=\"" + (Written(e, "threshold_period") + "\" "))) + (
            ("relevant_diags" + ("=\"" + (Written(e, "relevant_diags") + "\" "))) + (
            ("file_name" + ("=\"" + (Written(e, "file_name") + "\" "))) + (
            ("line_num" + ("=\"" + (Written(e, "line_num") + "\" "))) + Pairs(Fields(e)[14..]))))
  {
    hide Written, Fields, Pairs;
    PairAt(e, 10, "threshold_period");
    PairAt(e, 11, "relevant_diags");
    PairAt(e, 12, "file_name");
    PairAt(e, 13, "line_num");
  }

  /** What is written for each attribute. */
  lemma ValuesWritten(e: Details)
    ensures Written(e, "id") == Upper(Get(e, "id"))
    ensures Written(e, "service_action") ==
            Sequential(
              Get(e, "service_action"),
              Rules(Supply(Get(e, "threshold_count"), Get(e, "threshold_period"), Get(e, "relevant_diags"))), 7)
    ensures forall n | n != "id" && n != "service_action" :: Written(e, n) == Get(e, n)
  {
    hide Rules, Sequential, Upper, Get;
  }

  /** The line of an event: fourteen pairs in this order, each with a space behind it. */
  lemma EventLine(e: Details)
    ensures Element(Fields(e)) == "\t" + ("<rasevent " + ((
            ("id" + ("=\"" + (Written(e, "id") + "\" "))) + (
            ("category" + ("=\"" + (Written(e, "category") + "\" "))) + (
            ("component" + ("=\"" + (Written(e, "component") + "\" "))) + (
            ("severity" + ("=\"" + (Written(e, "severity") + "\" "))) + (
            ("message" + ("=\"" + (Written(e, "message") + "\" "))) + (
            ("description" + ("=\"" + (Written(e, "description") + "\" "))) + (
            ("service_action" + ("=\"" + (Written(e, "service_action") + "\" "))) + (
            ("decoder" + ("=\"" + (Written(e, "decoder") + "\" "))) + (
            ("control_action" + ("=\"" + (Written(e, "control_action") + "\" "))) + (
            ("threshold_count" + ("=\"" + (Written(e, "threshold_count") + "\" "))) + (
            ("threshold_period" + ("=\"" + (Written(e, "threshold_period") + "\" "))) + (
            ("relevant_diags" + ("=\"" + (Written(e, "relevant_diags") + "\" "))) + (
            ("file_name" + ("=\"" + (Written(e, "file_name") + "\" "))) + (
            ("line_num" + ("=\"" + (Written(e, "line_num") + "\" "))) + "")))))))))))))) + "/>"))
  {
    hide Written, Fields, Pairs, Element;
    ElementIs(Fields(e));
    FirstPairs(e);
    MiddlePairs(e);
    LastPairs(e);
    NoPairs(Fields(e));
  }

  lemma ElementIs(fs: seq<Field>)
    ensures Element(fs) == "\t" + ("<rasevent " + (Pairs(fs[0..]) + "/>"))
  {
    assert fs[0..] == fs;
  }

  lemma NoPairs(fs: seq<Field>)
    ensures Pairs(fs[|fs|..]) == ""
  {
  }

  /** The file: prolog, header, a line for each event, footer. */
  lemma FileText(prolog: seq<string>, now: string, es: seq<seq<Field>>)
    ensures Concat(FileLines(prolog, now, es)) ==
            Concat(prolog) + ("<rasevents gen=\"" + (now + "\" >\n")) + Concat(ElementLines(es)) + "</rasevents>\n"
  {
    RasEvents.FileText(prolog, now, es);
  }

  // ----- the row of an event -----

  lemma QuotedStep(row: Row, k: nat)
    requires k < 5
    ensures Cells(row, k + 1) == Cells(row, k) + (("\"" + (row[k] + "\"")) + ",")
  {
  }

  lemma OptionalStep(row: Row, k: nat)
    requires 5 <= k < 12 && k != 9
    ensures Cells(row, k + 1) ==
            Cells(row, k) + ((if row[k] == "" then "" else "\"" + (row[k] + "\"")) + if k == 11 then "\n" else ",")
  {
  }

  lemma BareStep(row: Row)
    ensures Cells(row, 10) == Cells(row, 9) + (row[9] + ",")
  {
  }

  /** Which attribute is in which column. */
  lemma RowColumns(id: string, e: Details)
    ensures var row := RowOf(id, e);
            && row[0] == id && row[1] == Get(e, "category") && row[2] == Get(e, "component")
            && row[3] == Get(e, "severity") && row[4] == Get(e, "message") && row[5] == Get(e, "description")
            && row[6] == Get(e, "service_action") && row[7] == Get(e, "decoder") && row[8] == Get(e, "control_action")
            && row[9] == Get(e, "threshold_count") && row[10] == Get(e, "threshold_period")
            && row[11] == Get(e, "relevant_diags")
  {
    hide Get;
  }

  /** Twelve columns: five always in quotes, the count never, the others unless they are empty. */
  lemma RowWritten(id: string, e: Details)
    ensures RowText(RowOf(id, e)) ==
            "" +
            (("\"" + (id + "\"")) + ",") +
            (("\"" + (Get(e, "category") + "\"")) + ",") +
            (("\"" + (Get(e, "component") + "\"")) + ",") +
            (("\"" + (Get(e, "severity") + "\"")) + ",") +
            (("\"" + (Get(e, "message") + "\"")) + ",") +
            ((if Get(e, "description") == "" then "" else "\"" + (Get(e, "description") + "\"")) + ",") +
            ((if Get(e, "service_action") == "" then "" else "\"" + (Get(e, "service_action") + "\"")) + ",") +
            ((if Get(e, "decoder") == "" then "" else "\"" + (Get(e, "decoder") + "\"")) + ",") +
            ((if Get(e, "control_action") == "" then "" else "\"" + (Get(e, "control_action") + "\"")) + ",") +
            (Get(e, "threshold_count") + ",") +
            ((if Get(e, "threshold_period") == "" then "" else "\"" + (Get(e, "threshold_period") + "\"")) + ",") +
            ((if Get(e, "relevant_diags") == "" then "" else "\"" + (Get(e, "relevant_diags") + "\"")) + "\n")
  {
    var row := RowOf(id, e);
    assert Cells(row, 0) == "";
    hide Cells, RowOf, Get;
    RowColumns(id, e);
    QuotedStep(row, 0);
    QuotedStep(row, 1);
    QuotedStep(row, 2);
    QuotedStep(row, 3);
    QuotedStep(row, 4);
    OptionalStep(row, 5);
    OptionalStep(row, 6);
    OptionalStep(row, 7);
    OptionalStep(row, 8);
    BareStep(row);
    OptionalStep(row, 10);
    OptionalStep(row, 11);
  }

  // ----- what the writer needs of an event -----

  lemma WritesIs(e: Details)
    ensures Writes(e) <==>
            && "id" in e && "category" in e && "component" in e && "severity" in e && "message" in e
            && "description" in e
            && (Contains(Written(e, "service_action"), "$(") ==> "file_name" in e && "line_num" in e)
            && (forall n, i | n in Names() && n != "file_name" && 0 <= i < |Written(e, n)| ::
                  Written(e, n)[i] as int < 128)
  {
    hide Written, Contains;
    var fs := Fields(e);
    if Encodes(fs) {
      forall n, i | n in Names() && n != "file_name" && 0 <= i < |Written(e, n)|
        ensures Written(e, n)[i] as int < 128
      {
        var k :| 0 <= k < |Names()| && Names()[k] == n;
        assert Encoded(fs[k]);
      }
    }
  }

  /** Letters become capitals, other characters of ASCII stay. */
  lemma UpperIs(i: nat)
    ensures i < 26 ==> UpperChar("abcdefghijklmnopqrstuvwxyz"[i]) == "ABCDEFGHIJKLMNOPQRSTUVWXYZ"[i]
    ensures i < 128 && !('a' as int <= i <= 'z' as int) ==> UpperChar(i as char) == i as char
  {
  }

  // ----- which values come back -----

  lemma CleanIs(v: string)
    ensures Clean(v) <==>
            && (forall i | 0 <= i < |v| :: 32 <= v[i] as int < 128 && v[i] != '"' && v[i] != '<' && v[i] != '&')
            && forall i | 0 <= i < |v| - 1 :: !(v[i] == '/' && v[i + 1] == '>')
  {
    if Holds(v, END) {
      var i :| At(v, END, i);
      assert |END| <= |v[i..]|;
      EndAt(v, i);
    } else {
      forall i | 0 <= i < |v| - 1
        ensures !(v[i] == '/' && v[i + 1] == '>')
      {
        EndAt(v, i);
        assert !At(v, END, i);
      }
    }
  }

  lemma ReadableIs(row: Row)
    ensures Readable(row) <==>
            && (forall i | 0 <= i < 12 :: '"' !in row[i] && '\n' !in row[i])
            && ',' !in row[9]
  {
  }
}
