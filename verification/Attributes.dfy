/** The attributes of one element: written as name="value" pairs and read back by a small reader. */
module Attributes {
  import opened Text

  const START := "<rasevent "
  const END := "/>"

  datatype Field = Field(name: string, value: string)

  datatype Parsed = Attrs(attrs: map<string, string>) | Malformed

  function Pair(f: Field): string {
    f.name + ("=\"" + (f.value + "\" "))
  }

  function Pairs(fs: seq<Field>): string {
    if fs == [] then "" else Pair(fs[0]) + Pairs(fs[1..])
  }

  predicate White(c: char) {
    c == '\t' || c == '\n' || c == '\r'
  }

  predicate Ascii(c: char) {
    c < '\U{80}'
  }

  /** Sections 2.2 and 3.1 of XML 1.0, for ASCII: no control characters but white space, no `<`, and no `&`, which
      would begin a reference. */
  predicate LegalChar(c: char) {
    Ascii(c) && (White(c) || ' ' <= c) && c != '<' && c != '&'
  }

  predicate Legal(value: string) {
    forall i | 0 <= i < |value| :: LegalChar(value[i])
  }

  /** Attribute-value normalization, section 3.3.3 of XML 1.0. */
  function Normal(value: string): (r: string)
    ensures |r| == |value|
    ensures forall i | 0 <= i < |r| :: r[i] == if White(value[i]) then ' ' else value[i]
  {
    if value == "" then ""
    else
      var n := |value| - 1;
      Normal(value[..n]) + [if White(value[n]) then ' ' else value[n]]
  }

  datatype Cut = Cut(name: string, value: string, rest: string) | NoPair

  /** A name before `="`, a value before `"`, and what follows. */
  function CutPair(s: string): (c: Cut)
    ensures c.Cut? ==> |c.rest| < |s|
  {
    var e := Find(s, "=\"");
    if e < 0 then NoPair
    else
      var v := s[e + 2..];
      var q := Find(v, "\"");
      if q < 0 then NoPair else Cut(s[..e], v[..q], v[q + 1..])
  }

  predicate Separated(rest: string) {
    rest != "" && (rest[0] == ' ' || rest[0] == '/')
  }

  /** Pairs up to the end of the element; no name may come twice. */
  function ReadAttrs(s: string): Parsed {
    if s == END then Attrs(map[])
    else if s != "" && s[0] == ' ' then ReadAttrs(s[1..])
    else
      var c := CutPair(s);
      if c.NoPair? || !Separated(c.rest) || !Legal(c.value) then Malformed
      else
        var p := ReadAttrs(c.rest);
        if p.Malformed? || c.name in p.attrs then Malformed
        else Attrs(p.attrs[c.name := Normal(c.value)])
  }

  /** An element, possibly after white space. */
  function ReadElement(s: string): Parsed {
    if s != "" && (White(s[0]) || s[0] == ' ') then ReadElement(s[1..])
    else if START <= s then ReadAttrs(s[|START|..])
    else Malformed
  }

  predicate NameChar(c: char) {
    'a' <= c <= 'z' || c == '_'
  }

  ghost predicate IsName(n: string) {
    n != "" && forall i | 0 <= i < |n| :: NameChar(n[i])
  }

  /** Characters that come back as they are: ASCII without control characters, quote, `<` and `&`. */
  predicate Allowed(c: char) {
    ' ' <= c && Ascii(c) && c != '"' && c != '<' && c != '&'
  }

  /** A value of such characters without `/>`. */
  ghost predicate Clean(v: string) {
    (forall i | 0 <= i < |v| :: Allowed(v[i])) && !Holds(v, END)
  }

  /** Proper and distinct names. */
  ghost predicate Proper(fs: seq<Field>) {
    && (forall i | 0 <= i < |fs| :: IsName(fs[i].name))
    && forall i, j | 0 <= i < j < |fs| :: fs[i].name != fs[j].name
  }

  ghost predicate AllClean(fs: seq<Field>) {
    forall i | 0 <= i < |fs| :: Clean(fs[i].value)
  }

  ghost predicate Writable(fs: seq<Field>) {
    Proper(fs) && AllClean(fs)
  }

  ghost predicate Named(fs: seq<Field>, k: string) {
    exists i :: 0 <= i < |fs| && fs[i].name == k
  }

  function MapOf(fs: seq<Field>): map<string, string> {
    if fs == [] then map[] else MapOf(fs[1..])[fs[0].name := fs[0].value]
  }

  lemma {:induction false} MapOfNames(fs: seq<Field>, k: string)
    ensures k in MapOf(fs) <==> Named(fs, k)
  {
    if fs != [] {
      var rest := fs[1..];
      MapOfNames(rest, k);
      if i :| 0 <= i < |rest| && rest[i].name == k {
        assert fs[i + 1].name == k;
      }
      if i :| 0 <= i < |fs| && fs[i].name == k {
        assert i > 0 ==> rest[i - 1].name == k;
      }
    }
  }

  // ----- reading back what was written -----

  lemma FindFirst(s: string, pat: string, i: nat)
    requires At(s, pat, i) && forall j | 0 <= j < i :: !At(s, pat, j)
    ensures Find(s, pat) == i
  {
  }

  lemma NameEnds(n: string, u: string)
    requires IsName(n) && "=\"" <= u
    ensures Find(n + u, "=\"") == |n|
  {
    var s := n + u;
    assert s[|n|..] == u;
    forall j | 0 <= j < |n|
      ensures !At(s, "=\"", j)
    {
      assert s[j..][0] == n[j];
    }
    FindFirst(s, "=\"", |n|);
  }

  lemma ValueEnds(v: string, u: string)
    requires (forall i | 0 <= i < |v| :: v[i] != '"') && "\"" <= u
    ensures Find(v + u, "\"") == |v|
  {
    var s := v + u;
    assert s[|v|..] == u;
    forall j | 0 <= j < |v|
      ensures !At(s, "\"", j)
    {
      assert s[j..][0] == v[j];
    }
    FindFirst(s, "\"", |v|);
  }

  lemma CleanIsNormal(v: string)
    requires Clean(v)
    ensures Legal(v) && Normal(v) == v
  {
  }

  lemma CutWritten(n: string, v: string, rest: string)
    requires IsName(n) && forall i | 0 <= i < |v| :: v[i] != '"'
    ensures CutPair(n + ("=\"" + (v + ("\"" + rest)))) == Cut(n, v, rest)
  {
    var tail := "\"" + rest;
    var u := "=\"" + (v + tail);
    var s := n + u;
    NameEnds(n, u);
    ValueEnds(v, tail);
    assert s[..|n|] == n && s[|n| + 2..] == v + tail;
    assert (v + tail)[..|v|] == v && (v + tail)[|v| + 1..] == rest;
  }

  lemma Blank(rest: string)
    ensures ReadAttrs(" " + rest) == ReadAttrs(rest)
  {
    assert (" " + rest)[1..] == rest;
    assert (" " + rest)[0] == ' ';
  }

  lemma ReadCut(s: string, c: Cut, attrs: map<string, string>)
    requires s != "" && s[0] != ' ' && s[0] != '/' && c == CutPair(s) && c.Cut? && Separated(c.rest) && Legal(c.value)
    requires ReadAttrs(c.rest) == Attrs(attrs) && c.name !in attrs
    ensures ReadAttrs(s) == Attrs(attrs[c.name := Normal(c.value)])
  {
  }

  /** One pair is read off the front. */
  lemma ReadPair(f: Field, rest: string)
    requires IsName(f.name) && Clean(f.value)
    requires ReadAttrs(rest).Attrs? && f.name !in ReadAttrs(rest).attrs
    ensures ReadAttrs(Pair(f) + rest) == Attrs(ReadAttrs(rest).attrs[f.name := f.value])
  {
    var n, v := f.name, f.value;
    var s := n + ("=\"" + (v + ("\"" + (" " + rest))));
    assert Pair(f) + rest == s;
    assert s[0] == n[0] && NameChar(n[0]);
    CutWritten(n, v, " " + rest);
    CleanIsNormal(v);
    Blank(rest);
    ReadCut(s, Cut(n, v, " " + rest), ReadAttrs(rest).attrs);
  }

  lemma {:induction false} ReadPairs(fs: seq<Field>)
    requires Writable(fs)
    ensures ReadAttrs(Pairs(fs) + END) == Attrs(MapOf(fs))
  {
    if fs == [] {
      assert "" + END == END;
    } else {
      assert forall i | 0 <= i < |fs| - 1 :: fs[1..][i] == fs[i + 1];
      ReadPairs(fs[1..]);
      MapOfNames(fs[1..], fs[0].name);
      ReadPair(fs[0], Pairs(fs[1..]) + END);
      assert Pairs(fs) + END == Pair(fs[0]) + (Pairs(fs[1..]) + END);
    }
  }

  /** The element as it stands in the file, without its line end. */
  function Element(fs: seq<Field>): string {
    "\t" + (START + (Pairs(fs) + END))
  }

  lemma SkipTab(t: string)
    ensures ReadElement("\t" + t) == ReadElement(t)
  {
    assert ("\t" + t)[1..] == t && ("\t" + t)[0] == '\t';
  }

  lemma AfterStart(body: string)
    ensures ReadElement(START + body) == ReadAttrs(body)
  {
    assert (START + body)[|START|..] == body && (START + body)[0] == '<';
  }

  /** Reading back an element yields the names with their values. */
  lemma ElementRoundTrip(fs: seq<Field>)
    requires Writable(fs)
    ensures ReadElement(Element(fs)) == Attrs(MapOf(fs))
  {
    SkipTab(START + (Pairs(fs) + END));
    AfterStart(Pairs(fs) + END);
    ReadPairs(fs);
  }

  // ----- the element as a line -----

  lemma EndAt(s: string, i: int)
    requires 0 <= i <= |s| - 2
    ensures At(s, END, i) <==> s[i] == '/' && s[i + 1] == '>'
  {
    var t := s[i..];
    assert t[0] == s[i] && t[1] == s[i + 1];
    assert END <= t <==> t[0] == '/' && t[1] == '>';
  }

  /** `/>` is put together across no joint of which one side is neither `/` nor `>`. */
  lemma EndJoined(a: string, b: string)
    requires a == "" || b == "" || a[|a| - 1] != '/' || b[0] != '>'
    requires !Holds(a, END) && !Holds(b, END)
    ensures !Holds(a + b, END)
  {
    forall i
      ensures !At(a + b, END, i)
    {
      if 0 <= i <= |a + b| - 2 {
        EndAt(a + b, i);
        if i >= |a| {
          EndAt(b, i - |a|);
          assert !At(b, END, i - |a|);
        } else if i + 1 < |a| {
          EndAt(a, i);
          assert !At(a, END, i);
        }
      }
    }
  }

  lemma NoSlash(s: string)
    requires '/' !in s
    ensures !Holds(s, END)
  {
    forall i
      ensures !At(s, END, i)
    {
      if 0 <= i <= |s| - 2 {
        EndAt(s, i);
      }
    }
  }

  /** Inside the pairs neither `/>` nor a line end nor `<` occurs. */
  lemma {:induction false} PairsInside(fs: seq<Field>)
    requires Writable(fs)
    ensures !Holds(Pairs(fs), END) && '\n' !in Pairs(fs) && '<' !in Pairs(fs)
    ensures Pairs(fs) == "" || Pairs(fs)[|Pairs(fs)| - 1] == ' '
  {
    if fs == [] {
      NoSlash("");
    } else {
      assert forall i | 0 <= i < |fs| - 1 :: fs[1..][i] == fs[i + 1];
      PairsInside(fs[1..]);
      PairInside(fs[0]);
      EndJoined(Pair(fs[0]), Pairs(fs[1..]));
    }
  }

  lemma PairInside(f: Field)
    requires IsName(f.name) && Clean(f.value)
    ensures !Holds(Pair(f), END) && '\n' !in Pair(f) && '<' !in Pair(f) && Pair(f)[|Pair(f)| - 1] == ' '
  {
    PairNoEnd(f);
  }

  lemma PairNoEnd(f: Field)
    requires IsName(f.name) && !Holds(f.value, END)
    ensures !Holds(Pair(f), END)
  {
    NoSlash(f.name);
    NoSlash("=\"");
    NoSlash("\" ");
    EndJoined(f.value, "\" ");
    EndJoined("=\"", f.value + "\" ");
    EndJoined(f.name, "=\"" + (f.value + "\" "));
  }
}
