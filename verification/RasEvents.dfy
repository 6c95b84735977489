/** Events written to a file by one script and read back and sorted by another. */
module RasEvents {
  import opened Text
  import opened Rewriting
  import opened ServiceText
  import opened Attributes
  import opened Ordering
  import opened RasFile

  /** An event: its attributes with their values. */
  type Details = map<string, string>

  /** The attributes written, in order. */
  function Names(): seq<string> {
    ["id", "category", "component", "severity", "message", "description", "service_action", "decoder",
     "control_action", "threshold_count", "threshold_period", "relevant_diags", "file_name", "line_num"]
  }

  /** dict.get with the empty string as default. */
  function Get(e: Details, n: string): (v: string)
    ensures n in e ==> v == e[n]
    ensures n !in e ==> v == ""
  {
    if n in e then e[n] else ""
  }

  /** Two letters outside ASCII have capitals in it. The others stay outside, where none can be written. */
  function UpperChar(c: char): char {
    if 'a' <= c <= 'z' then 'A' + (c - 'a')
    else if c == '\U{131}' then 'I'
    else if c == '\U{17F}' then 'S'
    else c
  }

  function Upper(s: string): (r: string)
    ensures |r| == |s| && forall i | 0 <= i < |s| :: r[i] == UpperChar(s[i])
  {
    if s == "" then "" else Upper(s[..|s| - 1]) + [UpperChar(s[|s| - 1])]
  }

  function SupplyOf(e: Details): Supply {
    Supply(Get(e, "threshold_count"), Get(e, "threshold_period"), Get(e, "relevant_diags"))
  }

  /** What is written for an attribute: the id in upper case, the service action expanded, the rest as it is. */
  function Written(e: Details, n: string): string {
    if n == "id" then Upper(Get(e, n))
    else if n == "service_action" then Sequential(Get(e, n), Rules(SupplyOf(e)), 7)
    else Get(e, n)
  }

  function FieldsOf(e: Details, names: seq<string>): (fs: seq<Field>)
    ensures |fs| == |names| && forall i | 0 <= i < |fs| :: fs[i] == Field(names[i], Written(e, names[i]))
  {
    seq(|names|, i requires 0 <= i < |names| => Field(names[i], Written(e, names[i])))
  }

  function Fields(e: Details): seq<Field> {
    FieldsOf(e, Names())
  }

  /** The event as a reader of the file should see it. */
  function Recovered(e: Details): Details {
    map n | n in Names() :: Written(e, n)
  }

  /** Every value written is clean, the expanded service action and the id in upper case included. */
  ghost predicate CleanEvent(e: Details) {
    forall n | n in Names() :: Clean(Written(e, n))
  }

  lemma NamesProper(i: nat)
    requires i < 14
    ensures |Names()| == 14 && IsName(Names()[i])
  {
  }

  lemma NamesDistinct(i: nat, j: nat)
    requires i < j < 14
    ensures |Names()| == 14 && Names()[i] != Names()[j]
  {
    assert |Names()[i]| != |Names()[j]| || Names()[i][0] != Names()[j][0];
  }

  // ----- the writer -----

  /** Attributes the writer reads without a default. */
  predicate Complete(e: Details) {
    forall n | n in ["id", "category", "component", "severity", "message", "description"] :: n in e
  }

  /** Messages about an event name its file and line. */
  predicate Located(e: Details) {
    "file_name" in e && "line_num" in e
  }

  /** The message about a variable that was not replaced can be printed. */
  predicate Warned(e: Details) {
    Contains(Written(e, "service_action"), "$(") ==> Located(e)
  }

  /** Pairs built up from the left. */
  lemma {:induction false} PairsSnoc(fs: seq<Field>, f: Field)
    ensures Pairs(fs + [f]) == Pairs(fs) + Pair(f)
  {
    if fs == [] {
      assert [f][1..] == [] && Pair(f) + "" == Pair(f) && "" + Pair(f) == Pair(f);
    } else {
      assert (fs + [f])[1..] == fs[1..] + [f];
      PairsSnoc(fs[1..], f);
    }
  }

  method WriteValue(e: Details, n: string) returns (v: string)
    ensures v == Written(e, n)
  {
    v := Get(e, n);
    if n == "id" {
      v := Upper(v);
    } else if n == "service_action" {
      v := Transform(v, SupplyOf(e));
    }
  }

  method MakeFields(e: Details) returns (fs: seq<Field>)
    ensures fs == Fields(e)
  {
    hide Written, Names;
    fs := [];
    var names := Names();
    for i := 0 to |names|
      invariant |fs| == i && forall j | 0 <= j < i :: fs[j] == Field(names[j], Written(e, names[j]))
    {
      var v := WriteValue(e, names[i]);
      fs := fs + [Field(names[i], v)];
    }
  }

  /** str() of a text raises on a character outside ASCII; a file name is no text but bytes. */
  predicate Encoded(f: Field) {
    f.name == "file_name" || forall i | 0 <= i < |f.value| :: Ascii(f.value[i])
  }

  predicate Encodes(fs: seq<Field>) {
    forall i | 0 <= i < |fs| :: Encoded(fs[i])
  }

  /** The writer gets through the event. */
  predicate Writes(e: Details) {
    Complete(e) && Warned(e) && Encodes(Fields(e))
  }

  method WriteElement(fs: seq<Field>) returns (ok: bool, s: string)
    ensures ok <==> Encodes(fs)
    ensures ok ==> s == Element(fs) + "\n"
  {
    ok, s := WritePairs(fs, "\t" + START);
    if ok {
      s := s + "/>\n";
      Terminated("\t", START, Pairs(fs));
    }
  }

  lemma Terminated(a: string, b: string, c: string)
    ensures ((a + b) + c) + "/>\n" == (a + (b + (c + END))) + "\n"
  {
  }

  method WritePairs(fs: seq<Field>, before: string) returns (ok: bool, s: string)
    ensures ok <==> Encodes(fs)
    ensures ok ==> s == before + Pairs(fs)
  {
    s := before;
    for i := 0 to |fs|
      invariant s == before + Pairs(fs[..i]) && forall j | 0 <= j < i :: Encoded(fs[j])
    {
      if !Encoded(fs[i]) {
        return false, s;
      }
      assert fs[..i + 1] == fs[..i] + [fs[i]];
      PairsSnoc(fs[..i], fs[i]);
      s := s + Pair(fs[i]);
    }
    assert fs[..|fs|] == fs;
    ok := true;
  }

  method WriteEvent(e: Details) returns (ok: bool, s: string)
    ensures ok <==> Writes(e)
    ensures ok ==> s == Element(Fields(e)) + "\n"
  {
    hide Complete, Warned, Encodes, Fields, Element;
    if !Complete(e) || !Warned(e) {
      return false, "";
    }
    var fs := MakeFields(e);
    ok, s := WriteElement(fs);
  }

  lemma ElementLinesSnoc(es: seq<seq<Field>>, e: seq<Field>)
    ensures Concat(ElementLines(es + [e])) == Concat(ElementLines(es)) + (Element(e) + "\n")
  {
    var line := Element(e) + "\n";
    assert (es + [e])[..|es|] == es;
    assert ElementLines(es + [e]) == ElementLines(es) + [line];
    ConcatSnoc(ElementLines(es), line);
  }

  /** es are the fields of the events of the first |es| keys. */
  ghost predicate Listed(events: map<string, Details>, keys: seq<string>, es: seq<seq<Field>>) {
    |es| <= |keys| && forall i | 0 <= i < |es| :: keys[i] in events && es[i] == Fields(events[keys[i]])
  }

  lemma ListedSnoc(events: map<string, Details>, keys: seq<string>, es: seq<seq<Field>>, fs: seq<Field>)
    requires Listed(events, keys, es) && |es| < |keys| && keys[|es|] in events && fs == Fields(events[keys[|es|]])
    ensures Listed(events, keys, es + [fs])
  {
  }

  /** The events of the first n keys can be written. */
  ghost predicate AllWrite(events: map<string, Details>, keys: seq<string>, n: nat) {
    n <= |keys| && forall i | 0 <= i < n :: keys[i] in events && Writes(events[keys[i]])
  }

  lemma WriteNext(events: map<string, Details>, keys: seq<string>, n: nat)
    requires AllWrite(events, keys, n) && n < |keys| && keys[n] in events
    ensures if Writes(events[keys[n]]) then AllWrite(events, keys, n + 1) else !AllWrite(events, keys, |keys|)
  {
    hide Writes;
  }

  lemma NoRows(events: map<string, Details>, keys: seq<string>)
    ensures Concat(ElementLines([])) == "" && Listed(events, keys, []) && AllWrite(events, keys, 0)
  {
    hide Writes, Fields;
  }

  method WriteRows(events: map<string, Details>, keys: seq<string>)
    returns (ok: bool, f: string, ghost es: seq<seq<Field>>)
    requires forall k | k in keys :: k in events
    ensures ok <==> AllWrite(events, keys, |keys|)
    ensures ok ==> |es| == |keys| && Listed(events, keys, es) && f == Concat(ElementLines(es))
  {
    hide *;
    NoRows(events, keys);
    f, es := "", [];
    for i := 0 to |keys|
      invariant |es| == i && Listed(events, keys, es) && f == Concat(ElementLines(es))
      invariant AllWrite(events, keys, i)
    {
      WriteNext(events, keys, i);
      var done, line := WriteEvent(events[keys[i]]);
      f := f + line;
      if !done {
        return false, f, es;
      }
      ghost var fs := Fields(events[keys[i]]);
      ElementLinesSnoc(es, fs);
      ListedSnoc(events, keys, es, fs);
      es := es + [fs];
    }
    ok := true;
  }

  lemma {:induction false} ConcatAppend(a: seq<string>, b: seq<string>)
    ensures Concat(a + b) == Concat(a) + Concat(b)
  {
    if a == [] {
      assert a + b == b;
    } else {
      assert (a + b)[1..] == a[1..] + b;
      ConcatAppend(a[1..], b);
    }
  }

  lemma FileText(prolog: seq<string>, now: string, es: seq<seq<Field>>)
    ensures Concat(FileLines(prolog, now, es)) == Concat(prolog) + Header(now) + Concat(ElementLines(es)) + FOOTER
  {
    ConcatSnoc(prolog + [Header(now)] + ElementLines(es), FOOTER);
    ConcatAppend(prolog + [Header(now)], ElementLines(es));
    ConcatSnoc(prolog, Header(now));
  }

  /** es are the fields of all events, in the ascending order of the keys. */
  ghost predicate InKeyOrder(events: map<string, Details>, keys: seq<string>, es: seq<seq<Field>>) {
    Ascending(keys) && (forall k :: k in keys <==> k in events) && |es| == |keys| && Listed(events, keys, es)
  }

  /** The prolog, the header, the elements of the events in key order and the footer. */
  ghost predicate IsFile(events: map<string, Details>, prolog: seq<string>, now: string, f: string) {
    exists keys, es :: InKeyOrder(events, keys, es) && f == Concat(FileLines(prolog, now, es))
  }

  /** The keys of two elements, in the order of the file: smaller where they first differ, or a proper prefix. */
  lemma ElementsAscend(events: map<string, Details>, keys: seq<string>, es: seq<seq<Field>>, i: nat, j: nat)
    requires InKeyOrder(events, keys, es) && i < j < |es|
    ensures var a, b := keys[i], keys[j];
            exists k :: 0 <= k <= |a| && k < |b| && a[..k] == b[..k] && (k == |a| || a[k] < b[k])
  {
    LessExact(keys[i], keys[j]);
  }

  /** The file, unless an event cannot be written, which ends the run. */
  method WriteEvents(events: map<string, Details>, prolog: seq<string>, now: string) returns (ok: bool, f: string)
    ensures ok <==> forall k | k in events :: Writes(events[k])
    ensures ok ==> IsFile(events, prolog, now, f)
  {
    hide Writes, Fields, ElementLines, AllWrite, Listed, Header;
    var idKeys := Sorted(events.Keys);
    f := Concat(prolog);
    f := f + Header(now);
    var rows;
    ghost var es;
    ok, rows, es := WriteRows(events, idKeys);
    f := f + rows;
    EveryKey(events, idKeys);
    if ok {
      f := f + FOOTER;
      FileText(prolog, now, es);
      assert InKeyOrder(events, idKeys, es);
    }
  }

  lemma EveryKey(events: map<string, Details>, keys: seq<string>)
    requires forall k :: k in keys <==> k in events
    ensures AllWrite(events, keys, |keys|) <==> forall k | k in events :: Writes(events[k])
  {
    hide Writes;
    if AllWrite(events, keys, |keys|) {
      forall k | k in events
        ensures Writes(events[k])
      {
        var i :| 0 <= i < |keys| && keys[i] == k;
      }
    }
  }
}
