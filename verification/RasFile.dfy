/** The event file: a prolog, a header, one element a line, a footer; and what a scan of it finds. */
module RasFile {
  import opened Text
  import opened Attributes
  import opened Scanner

  /** The lines a file iterates over, each with its line end. */
  function Lines(s: string): seq<string> {
    if s == "" then []
    else
      var i := Find(s, "\n");
      if i < 0 then [s] else [s[..i + 1]] + Lines(s[i + 1..])
  }

  ghost predicate IsLine(s: string) {
    s != "" && forall i | 0 <= i < |s| :: s[i] == '\n' <==> i == |s| - 1
  }

  lemma FirstLine(a: string, b: string)
    requires IsLine(a)
    ensures Lines(a + b) == [a] + Lines(b)
  {
    var s, n := a + b, |a| - 1;
    assert s[n..][..1] == "\n";
    forall j | 0 <= j < n
      ensures !At(s, "\n", j)
    {
      assert s[j..][0] == a[j];
    }
    FindFirst(s, "\n", n);
    assert s[..n + 1] == a && s[n + 1..] == b;
  }

  lemma {:induction false} LinesOfConcat(ls: seq<string>)
    requires forall i | 0 <= i < |ls| :: IsLine(ls[i])
    ensures Lines(Concat(ls)) == ls
  {
    if ls != [] {
      FirstLine(ls[0], Concat(ls[1..]));
      LinesOfConcat(ls[1..]);
    }
  }

  function Header(now: string): string {
    "<rasevents gen=\"" + (now + "\" >\n")
  }

  const FOOTER := "</rasevents>\n"

  function ElementLines(es: seq<seq<Field>>): (ls: seq<string>)
    ensures |ls| == |es| && forall i | 0 <= i < |es| :: ls[i] == Element(es[i]) + "\n"
  {
    if es == [] then [] else ElementLines(es[..|es| - 1]) + [Element(es[|es| - 1]) + "\n"]
  }

  function FileLines(prolog: seq<string>, now: string, es: seq<seq<Field>>): seq<string> {
    prolog + [Header(now)] + ElementLines(es) + [FOOTER]
  }

  /** No `<` opens an element in the prolog, and the time stamp stays inside its quotes. */
  ghost predicate Frame(prolog: seq<string>, now: string) {
    && (forall i | 0 <= i < |prolog| :: IsLine(prolog[i]) && !Holds(prolog[i], START))
    && '<' !in now && '\n' !in now
  }

  lemma OnlyOpening(s: string)
    requires s != "" && '<' !in s[1..] && !(START <= s)
    ensures !Holds(s, START)
  {
    assert s[0..] == s;
    forall i
      ensures !At(s, START, i)
    {
      if 0 < i < |s| {
        assert s[i..][0] == s[i] == s[1..][i - 1];
      }
    }
  }

  /** The header and the footer do not open an element: the start pattern ends in a space. */
  lemma FrameLines(now: string)
    requires '<' !in now && '\n' !in now
    ensures IsLine(Header(now)) && !Holds(Header(now), START)
    ensures IsLine(FOOTER) && !Holds(FOOTER, START)
  {
    var h := Header(now);
    assert h[9] == 's';
    OnlyOpening(h);
    assert FOOTER[1] == '/';
    OnlyOpening(FOOTER);
  }

  lemma FirstEnd(front: string)
    requires !Holds(front, END) && front != "" && front[|front| - 1] != '/'
    ensures Find(front + "/>\n", END) == |front|
  {
    var l, n := front + "/>\n", |front|;
    assert l[n..] == "/>\n";
    forall j | 0 <= j < n
      ensures !At(l, END, j)
    {
      EndAt(l, j);
      if j < n - 1 {
        EndAt(front, j);
        assert !At(front, END, j);
      }
    }
    FindFirst(l, END, n);
  }

  /** What stands before the end of an element. */
  lemma BeforeEnd(fs: seq<Field>)
    requires Writable(fs)
    ensures var front := "\t" + (START + Pairs(fs));
            !Holds(front, END) && '\n' !in front && front[|front| - 1] == ' ' && At(front, START, 1)
  {
    var p, open := Pairs(fs), "\t" + START;
    PairsInside(fs);
    NoSlash(open);
    EndJoined(open, p);
    var front := "\t" + (START + p);
    assert open + p == front;
    assert front[1..] == START + p;
  }

  /** An element's line opens one element and ends it at the end of the line. */
  lemma ElementLine(fs: seq<Field>)
    requires Writable(fs)
    ensures var l := Element(fs) + "\n";
            IsLine(l) && Contains(l, START) && Contains(l, END) && UpToEnd(l, END) == Element(fs)
  {
    var front := "\t" + (START + Pairs(fs));
    BeforeEnd(fs);
    FirstEnd(front);
    Terminated(front);
    assert Element(fs) == front + END;
    assert Element(fs) + "\n" == front + "/>\n";
  }

  lemma Terminated(front: string)
    requires '\n' !in front && At(front, START, 1)
    ensures IsLine(front + "/>\n") && Contains(front + "/>\n", START)
    ensures (front + "/>\n")[..|front| + 2] == front + END
  {
    var l := front + "/>\n";
    assert l[1..] == front[1..] + "/>\n";
    assert At(l, START, 1);
  }

  // ----- scanning the file -----

  /** One line for each element, from line p on. */
  function OneLineEach(p: nat, n: nat): (spans: seq<Span>)
    ensures |spans| == n && forall i | 0 <= i < n :: spans[i] == Span(p + i, p + i)
  {
    if n == 0 then [] else OneLineEach(p, n - 1) + [Span(p + n - 1, p + n - 1)]
  }

  /** Exactly lines p to p + n - 1 hold the start pattern, and each of them the end pattern. */
  ghost predicate Rows(starts: seq<bool>, ends: seq<bool>, p: nat, n: nat) {
    && |starts| == |ends| && p + n <= |starts|
    && (forall k | 0 <= k < |starts| :: starts[k] <==> p <= k < p + n)
    && forall k | p <= k < p + n :: ends[k]
  }

  lemma RowsSegmented(starts: seq<bool>, ends: seq<bool>, p: nat, n: nat)
    requires Rows(starts, ends, p, n)
    ensures IsSegmentation(starts, ends, OneLineEach(p, n))
  {
    var spans := OneLineEach(p, n);
    forall k: nat | k < |starts| && starts[k]
      ensures Covered(spans, k)
    {
      assert spans[k - p].first <= k <= spans[k - p].last;
    }
  }

  /** Line k, where els are the elements of lines p to p + |els| - 1. */
  ghost predicate RowOk(l: string, k: nat, p: nat, els: seq<string>) {
    && IsLine(l) && (Contains(l, START) <==> p <= k < p + |els|)
    && (p <= k < p + |els| ==> Contains(l, END) && UpToEnd(l, END) == els[k - p])
  }

  ghost predicate Hold(ls: seq<string>, p: nat, els: seq<string>) {
    p + |els| <= |ls| && forall k | 0 <= k < |ls| :: RowOk(ls[k], k, p, els)
  }

  lemma HoldRows(ls: seq<string>, p: nat, els: seq<string>)
    requires Hold(ls, p, els)
    ensures Rows(Marks(ls, START), Marks(ls, END), p, |els|)
  {
    var starts, ends := Marks(ls, START), Marks(ls, END);
    forall k | 0 <= k < |ls|
      ensures (starts[k] <==> p <= k < p + |els|) && (p <= k < p + |els| ==> ends[k])
    {
      assert RowOk(ls[k], k, p, els);
    }
  }

  lemma OneRow(ls: seq<string>, k: nat, starts: seq<bool>, c: Chunk, el: string)
    requires |starts| == |ls| && k < |ls| && ChunkOf(ls, END, starts, Span(k, k), c) && UpToEnd(ls[k], END) == el
    ensures c.text == el
  {
    assert "" + el == el;
  }

  lemma ScanSpans(ls: seq<string>, p: nat, els: seq<string>, spans: seq<Span>)
    requires Hold(ls, p, els) && IsSegmentation(Marks(ls, START), Marks(ls, END), spans)
    ensures spans == OneLineEach(p, |els|)
  {
    HoldRows(ls, p, els);
    RowsSegmented(Marks(ls, START), Marks(ls, END), p, |els|);
    SegmentationUnique(Marks(ls, START), Marks(ls, END), spans, OneLineEach(p, |els|));
  }

  ghost predicate Texts(ls: seq<string>, p: nat, els: seq<string>) {
    p + |els| <= |ls| && forall i | 0 <= i < |els| :: UpToEnd(ls[p + i], END) == els[i]
  }

  lemma HoldTexts(ls: seq<string>, p: nat, els: seq<string>)
    requires Hold(ls, p, els)
    ensures Texts(ls, p, els)
  {
    forall i | 0 <= i < |els|
      ensures UpToEnd(ls[p + i], END) == els[i]
    {
      assert RowOk(ls[p + i], p + i, p, els);
    }
  }

  lemma ChunkTexts(ls: seq<string>, p: nat, els: seq<string>, starts: seq<bool>, spans: seq<Span>, chunks: seq<Chunk>)
    requires Texts(ls, p, els) && |starts| == |ls| && spans == OneLineEach(p, |els|)
    requires AllChunks(ls, END, starts, spans, chunks)
    ensures |chunks| == |els| && forall i | 0 <= i < |els| :: chunks[i].text == els[i]
  {
    forall i | 0 <= i < |els|
      ensures chunks[i].text == els[i]
    {
      assert ChunkOf(ls, END, starts, spans[i], chunks[i]);
      OneRow(ls, p + i, starts, chunks[i], els[i]);
    }
  }

  /** The scan of such lines finds the elements, in order. */
  lemma ScanFinds(ls: seq<string>, p: nat, els: seq<string>, chunks: seq<Chunk>)
    requires Hold(ls, p, els) && IsScan(ls, START, END, chunks)
    ensures |chunks| == |els| && forall i | 0 <= i < |els| :: chunks[i].text == els[i]
  {
    var spans :| IsSegmentation(Marks(ls, START), Marks(ls, END), spans)
                 && AllChunks(ls, END, Marks(ls, START), spans, chunks);
    ScanSpans(ls, p, els, spans);
    HoldTexts(ls, p, els);
    ChunkTexts(ls, p, els, Marks(ls, START), spans, chunks);
  }

  function Elements(es: seq<seq<Field>>): (els: seq<string>)
    ensures |els| == |es| && forall i | 0 <= i < |es| :: els[i] == Element(es[i])
  {
    if es == [] then [] else Elements(es[..|es| - 1]) + [Element(es[|es| - 1])]
  }

  lemma ElementRow(fs: seq<Field>, k: nat, p: nat, els: seq<string>)
    requires p <= k < p + |els| && Writable(fs) && els[k - p] == Element(fs)
    ensures RowOk(Element(fs) + "\n", k, p, els)
  {
    ElementLine(fs);
  }

  lemma OtherRow(l: string, k: nat, p: nat, els: seq<string>)
    requires IsLine(l) && !Holds(l, START) && !(p <= k < p + |els|)
    ensures RowOk(l, k, p, els)
  {
    ContainsHolds(l, START);
  }

  /** Consecutive lines, from line k on, are as they should be. */
  ghost predicate RowsOk(ls: seq<string>, k: nat, p: nat, els: seq<string>) {
    forall i | 0 <= i < |ls| :: RowOk(ls[i], k + i, p, els)
  }

  lemma RowsJoined(a: seq<string>, b: seq<string>, k: nat, p: nat, els: seq<string>)
    requires RowsOk(a, k, p, els) && RowsOk(b, k + |a|, p, els)
    ensures RowsOk(a + b, k, p, els)
  {
    forall i | 0 <= i < |a + b|
      ensures RowOk((a + b)[i], k + i, p, els)
    {
      if i >= |a| {
        assert RowOk(b[i - |a|], k + |a| + (i - |a|), p, els);
      }
    }
  }

  lemma PrologRows(prolog: seq<string>, p: nat, els: seq<string>)
    requires |prolog| < p && forall i | 0 <= i < |prolog| :: IsLine(prolog[i]) && !Holds(prolog[i], START)
    ensures RowsOk(prolog, 0, p, els)
  {
    forall i | 0 <= i < |prolog|
      ensures RowOk(prolog[i], 0 + i, p, els)
    {
      OtherRow(prolog[i], i, p, els);
    }
  }

  lemma ElementRows(es: seq<seq<Field>>, ls: seq<string>, p: nat, els: seq<string>)
    requires |es| == |ls| == |els| && forall i | 0 <= i < |es| :: Writable(es[i])
    requires forall i | 0 <= i < |es| :: ls[i] == Element(es[i]) + "\n" && els[i] == Element(es[i])
    ensures RowsOk(ls, p, p, els)
  {
    forall i | 0 <= i < |es|
      ensures RowOk(ls[i], p + i, p, els)
    {
      ElementRow(es[i], p + i, p, els);
    }
  }

  lemma Assembled(prolog: seq<string>, h: string, rows: seq<string>, f: string, p: nat, els: seq<string>)
    requires p == |prolog| + 1 && |rows| == |els| && RowsOk(prolog, 0, p, els) && RowOk(h, |prolog|, p, els)
    requires RowsOk(rows, p, p, els) && RowOk(f, p + |rows|, p, els)
    ensures Hold(prolog + [h] + rows + [f], p, els)
  {
    assert RowsOk([h], |prolog|, p, els) && RowsOk([f], p + |rows|, p, els);
    RowsJoined(prolog, [h], 0, p, els);
    RowsJoined(prolog + [h], rows, 0, p, els);
    RowsJoined(prolog + [h] + rows, [f], 0, p, els);
    RowsHold(prolog + [h] + rows + [f], p, els);
  }

  lemma FileHolds(prolog: seq<string>, now: string, es: seq<seq<Field>>)
    requires Frame(prolog, now) && (forall i | 0 <= i < |es| :: Writable(es[i]))
    ensures Hold(FileLines(prolog, now, es), |prolog| + 1, Elements(es))
  {
    var p, els := |prolog| + 1, Elements(es);
    hide Header, Writable, RowsOk, RowOk, Hold;
    FrameLines(now);
    OtherRow(Header(now), |prolog|, p, els);
    OtherRow(FOOTER, p + |es|, p, els);
    PrologRows(prolog, p, els);
    ElementRows(es, ElementLines(es), p, els);
    Assembled(prolog, Header(now), ElementLines(es), FOOTER, p, els);
  }

  lemma RowsHold(ls: seq<string>, p: nat, els: seq<string>)
    requires RowsOk(ls, 0, p, els) && p + |els| <= |ls|
    ensures Hold(ls, p, els)
  {
    forall k | 0 <= k < |ls|
      ensures RowOk(ls[k], k, p, els)
    {
      assert RowOk(ls[k], 0 + k, p, els);
    }
  }

  /** A written file comes apart into the lines written. */
  lemma FileSplits(ls: seq<string>, p: nat, els: seq<string>)
    requires Hold(ls, p, els)
    ensures Lines(Concat(ls)) == ls
  {
    assert forall k | 0 <= k < |ls| :: RowOk(ls[k], k, p, els);
    LinesOfConcat(ls);
  }
}
