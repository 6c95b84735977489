/** Which elements come back: those all of whose values are clean, and no others. */
module ElementExact {
  import opened Text
  import opened Attributes
  import opened Scanner
  import opened RasFile

  // ----- where an element is cut off -----

  lemma NoEndAcross(a: string, b: string, j: nat)
    requires !Holds(a, END) && (a == "" || a[|a| - 1] != '/') && j < |a|
    ensures !At(a + b, END, j)
  {
    if j + 1 < |a + b| {
      EndAt(a + b, j);
      if j + 1 < |a| {
        EndAt(a, j);
        assert !At(a, END, j);
      }
    }
  }

  /** Text without `/>`, not ending in `/`, is kept whole. */
  lemma CutBehind(a: string, b: string)
    requires !Holds(a, END) && (a == "" || a[|a| - 1] != '/') && Contains(b, END)
    ensures UpToEnd(a + b, END) == a + UpToEnd(b, END)
  {
    var e := Find(b, END);
    var s := a + b;
    assert s[|a| + e..] == b[e..];
    forall j | 0 <= j < |a| + e
      ensures !At(s, END, j)
    {
      if j < |a| {
        NoEndAcross(a, b, j);
      } else {
        assert s[j..] == b[j - |a|..];
        assert !At(b, END, j - |a|);
      }
    }
    FindFirst(s, END, |a| + e);
    assert s[..|a| + e + 2] == a + b[..e + 2];
  }

  lemma CutEarly(a: string, b: string)
    requires Contains(a, END)
    ensures UpToEnd(a + b, END) == UpToEnd(a, END)
  {
    var e, s := Find(a, END), a + b;
    assert s[e..] == a[e..] + b;
    forall j | 0 <= j < e
      ensures !At(s, END, j)
    {
      assert !At(a, END, j);
      EndAt(a, j);
      EndAt(s, j);
    }
    FindFirst(s, END, e);
  }

  // ----- reading what is left -----

  lemma CutHead(n: string, t: string)
    requires IsName(n)
    ensures var q := Find(t, "\"");
            CutPair(n + ("=\"" + t)) == if q < 0 then NoPair else Cut(n, t[..q], t[q + 1..])
  {
    var u := "=\"" + t;
    var s := n + u;
    NameEnds(n, u);
    assert s[..|n|] == n && s[|n| + 2..] == t;
  }

  /** What is read of text that begins with a name. */
  lemma ReadHead(n: string, t: string, m: map<string, string>)
    requires IsName(n) && ReadAttrs(n + ("=\"" + t)) == Attrs(m)
    ensures var q := Find(t, "\"");
            && q >= 0 && Legal(t[..q]) && ReadAttrs(t[q + 1..]).Attrs? && n !in ReadAttrs(t[q + 1..]).attrs
            && m == ReadAttrs(t[q + 1..]).attrs[n := Normal(t[..q])]
  {
    var s := n + ("=\"" + t);
    assert s[0] == n[0] && NameChar(n[0]);
    CutHead(n, t);
    Unfolded(s, m);
  }

  lemma Unfolded(s: string, m: map<string, string>)
    requires s != "" && s[0] != ' ' && s[0] != '/' && ReadAttrs(s) == Attrs(m)
    ensures var c := CutPair(s);
            && c.Cut? && Legal(c.value) && ReadAttrs(c.rest).Attrs? && c.name !in ReadAttrs(c.rest).attrs
            && m == ReadAttrs(c.rest).attrs[c.name := Normal(c.value)]
  {
  }

  /** A quote in the value, or none behind it, keeps it from coming back. */
  lemma QuoteLast(n: string, v: string, t: string, m: map<string, string>)
    requires IsName(n) && ReadAttrs(n + ("=\"" + t)) == Attrs(m) && n in m && m[n] == v
    ensures Find(t, "\"") == |v| && Legal(t[..|v|]) && Normal(t[..|v|]) == v
    ensures var p := ReadAttrs(t[|v| + 1..]); p.Attrs? && n !in p.attrs && m == p.attrs[n := v]
  {
    ReadHead(n, t, m);
  }

  lemma LegalClean(v: string)
    requires Legal(v) && Normal(v) == v && (forall i | 0 <= i < |v| :: v[i] != '"') && !Holds(v, END)
    ensures Clean(v)
  {
    forall i | 0 <= i < |v|
      ensures Allowed(v[i])
    {
      assert LegalChar(v[i]) && Normal(v)[i] == v[i];
    }
  }

  function Body(fs: seq<Field>): string {
    Pairs(fs) + END
  }

  lemma BodyEnds(fs: seq<Field>)
    ensures Contains(Body(fs), END)
  {
    var s, n := Body(fs), |Pairs(fs)|;
    assert s[n..] == END;
    assert At(s, END, n);
    ContainsHolds(s, END);
  }

  lemma BodyHead(fs: seq<Field>)
    requires fs != []
    ensures Body(fs) == Pair(fs[0]) + Body(fs[1..])
  {
  }

  /** A value that holds `/>` is cut off in the middle. */
  lemma CutInside(fs: seq<Field>)
    requires Proper(fs) && fs != [] && Holds(fs[0].value, END)
    ensures UpToEnd(Body(fs), END) == fs[0].name + ("=\"" + UpToEnd(fs[0].value, END))
  {
    var n, v := fs[0].name, fs[0].value;
    var open, tail := n + "=\"", "\" " + Body(fs[1..]);
    BodyHead(fs);
    PairBefore(fs[0], Body(fs[1..]));
    Opened(n, v + tail);
    Opened(n, UpToEnd(v, END));
    NoSlash(open);
    ContainsHolds(v, END);
    CutEarly(v, tail);
    KeepsEnd(v, tail);
    CutBehind(open, v + tail);
  }

  lemma Opened(n: string, t: string)
    ensures n + ("=\"" + t) == (n + "=\"") + t
  {
  }

  lemma KeepsEnd(a: string, b: string)
    requires Contains(a, END)
    ensures Contains(a + b, END)
  {
    var e := Find(a, END);
    assert (a + b)[e..] == a[e..] + b;
    assert At(a + b, END, e);
    ContainsHolds(a + b, END);
  }

  lemma NotCutInside(fs: seq<Field>, m: map<string, string>)
    requires Proper(fs) && fs != [] && ReadAttrs(UpToEnd(Body(fs), END)) == Attrs(m)
    requires fs[0].name in m && m[fs[0].name] == fs[0].value
    ensures !Holds(fs[0].value, END)
  {
    if Holds(fs[0].value, END) {
      CutInside(fs);
      QuoteLast(fs[0].name, fs[0].value, UpToEnd(fs[0].value, END), m);
      assert false;
    }
  }

  lemma CutLater(fs: seq<Field>)
    requires Proper(fs) && fs != [] && !Holds(fs[0].value, END)
    ensures UpToEnd(Body(fs), END) == fs[0].name + ("=\"" + (fs[0].value + ("\" " + UpToEnd(Body(fs[1..]), END))))
  {
    BodyHead(fs);
    BodyEnds(fs[1..]);
    PairNoEnd(fs[0]);
    CutBehind(Pair(fs[0]), Body(fs[1..]));
    PairBefore(fs[0], UpToEnd(Body(fs[1..]), END));
  }

  lemma PairBefore(f: Field, r: string)
    ensures Pair(f) + r == f.name + ("=\"" + (f.value + ("\" " + r)))
  {
    var a, b := f.name, f.value;
    assert (b + "\" ") + r == b + ("\" " + r);
    assert ("=\"" + (b + "\" ")) + r == "=\"" + ((b + "\" ") + r);
  }

  lemma NoQuoteBefore(v: string, u: string)
    requires Find(v + u, "\"") == |v|
    ensures forall i | 0 <= i < |v| :: v[i] != '"'
  {
    var t := v + u;
    forall i | 0 <= i < |v|
      ensures v[i] != '"'
    {
      assert !At(t, "\"", i);
      assert t[i..][0] == v[i];
      assert "\"" <= t[i..] <==> t[i..][0] == '"';
    }
  }

  lemma Split(v: string, rest: string)
    ensures var t := v + ("\" " + rest); t[..|v|] == v && t[|v| + 1..] == " " + rest
  {
  }

  /** The first value, and the map the rest reads as. */
  lemma FirstBack(n: string, v: string, rest: string, m: map<string, string>)
    requires IsName(n) && !Holds(v, END) && ReadAttrs(n + ("=\"" + (v + ("\" " + rest)))) == Attrs(m)
    requires n in m && m[n] == v
    ensures Clean(v) && ReadAttrs(rest).Attrs? && n !in ReadAttrs(rest).attrs && m == ReadAttrs(rest).attrs[n := v]
  {
    var t := v + ("\" " + rest);
    QuoteLast(n, v, t, m);
    Split(v, rest);
    Blank(rest);
    NoQuoteBefore(v, "\" " + rest);
    LegalClean(v);
  }

  lemma ProperRest(fs: seq<Field>)
    requires Proper(fs) && fs != []
    ensures Proper(fs[1..]) && fs[0].name !in MapOf(fs[1..])
  {
    assert forall i | 0 <= i < |fs| - 1 :: fs[1..][i] == fs[i + 1];
    MapOfNames(fs[1..], fs[0].name);
  }

  lemma Cancelled(p: map<string, string>, q: map<string, string>, n: string, v: string)
    requires n !in p && n !in q && p[n := v] == q[n := v]
    ensures p == q
  {
    assert forall k | k in p :: k in p[n := v] && p[k] == p[n := v][k];
    assert forall k | k in q :: k in q[n := v] && q[k] == q[n := v][k];
  }

  lemma CleanFirst(fs: seq<Field>)
    requires fs != [] && Clean(fs[0].value) && AllClean(fs[1..])
    ensures AllClean(fs)
  {
    forall i | 0 <= i < |fs|
      ensures Clean(fs[i].value)
    {
      assert i > 0 ==> fs[i] == fs[1..][i - 1];
    }
  }

  lemma {:induction false} ReadsOnlyClean(fs: seq<Field>)
    requires Proper(fs) && ReadAttrs(UpToEnd(Body(fs), END)) == Attrs(MapOf(fs))
    ensures AllClean(fs)
  {
    if fs != [] {
      var n, v, rest := fs[0].name, fs[0].value, fs[1..];
      NotCutInside(fs, MapOf(fs));
      CutLater(fs);
      FirstBack(n, v, UpToEnd(Body(rest), END), MapOf(fs));
      ProperRest(fs);
      Cancelled(ReadAttrs(UpToEnd(Body(rest), END)).attrs, MapOf(rest), n, v);
      ReadsOnlyClean(rest);
      CleanFirst(fs);
    }
  }

  /** The line of an element, cut off where the scanner does, reads as its names and values iff all values are clean. */
  lemma LineExact(fs: seq<Field>)
    requires Proper(fs)
    ensures ReadElement(UpToEnd(Element(fs) + "\n", END)) == Attrs(MapOf(fs)) <==> AllClean(fs)
  {
    if AllClean(fs) {
      ElementLine(fs);
      ElementRoundTrip(fs);
    }
    LineCut(fs);
    SkipTab(START + UpToEnd(Body(fs), END));
    AfterStart(UpToEnd(Body(fs), END));
    if ReadElement(UpToEnd(Element(fs) + "\n", END)) == Attrs(MapOf(fs)) {
      ReadsOnlyClean(fs);
    }
  }

  lemma Regrouped(a: string, b: string, c: string, d: string)
    ensures (a + (b + c)) + d == (a + b) + (c + d)
  {
  }

  lemma LineCut(fs: seq<Field>)
    ensures UpToEnd(Element(fs) + "\n", END) == "\t" + (START + UpToEnd(Body(fs), END))
  {
    var open := "\t" + START;
    BodyEnds(fs);
    CutEarly(Body(fs), "\n");
    KeepsEnd(Body(fs), "\n");
    NoSlash(open);
    CutBehind(open, Body(fs) + "\n");
    Regrouped("\t", START, Body(fs), "\n");
    assert open + UpToEnd(Body(fs), END) == "\t" + (START + UpToEnd(Body(fs), END));
  }
}
