/** The line scanner both scripts use to cut elements out of a file. */
module Scanner {
  import opened Text

  /** An element and the line number reported for it. */
  datatype Chunk = Chunk(text: string, line: nat)

  /** The lines an element takes, first and last included, numbered from 0. */
  datatype Span = Span(first: nat, last: nat)

  /** Which lines hold a pattern. */
  function Marks(lines: seq<string>, pat: string): (m: seq<bool>)
    ensures |m| == |lines| && forall k | 0 <= k < |lines| :: m[k] == Contains(lines[k], pat)
  {
    if lines == [] then [] else Marks(lines[..|lines| - 1], pat) + [Contains(lines[|lines| - 1], pat)]
  }

  /** From a line holding the start pattern to the first line from there on holding the end pattern. */
  ghost predicate IsElement(starts: seq<bool>, ends: seq<bool>, sp: Span)
    requires |starts| == |ends|
  {
    && sp.first <= sp.last < |starts|
    && starts[sp.first] && ends[sp.last]
    && forall k | sp.first <= k < sp.last :: !ends[k]
  }

  ghost predicate Covered(spans: seq<Span>, k: nat) {
    exists i :: 0 <= i < |spans| && spans[i].first <= k <= spans[i].last
  }

  ghost predicate Past(spans: seq<Span>, k: nat) {
    spans != [] ==> spans[|spans| - 1].last < k
  }

  /** An element begins in line t, past every span, and never ends. */
  ghost predicate Unfinished(starts: seq<bool>, ends: seq<bool>, spans: seq<Span>, t: nat)
    requires |starts| == |ends|
  {
    t < |starts| && starts[t] && Past(spans, t) && forall j | t <= j < |ends| :: !ends[j]
  }

  /** Disjoint elements in file order that between them and one unfinished tail hold every start pattern. */
  ghost predicate IsSegmentation(starts: seq<bool>, ends: seq<bool>, spans: seq<Span>)
    requires |starts| == |ends|
  {
    && (forall i | 0 <= i < |spans| :: IsElement(starts, ends, spans[i]))
    && (forall i, j | 0 <= i < j < |spans| :: spans[i].last < spans[j].first)
    && (forall k: nat {:trigger Covered(spans, k)} | k < |starts| && starts[k] ::
          Covered(spans, k) || exists t: nat :: t <= k && Unfinished(starts, ends, spans, t))
  }

  /** The text of lines first to n - 1. */
  function Collected(lines: seq<string>, first: nat, n: nat): string
    requires n <= |lines|
  {
    if n <= first then "" else Collected(lines, first, n - 1) + lines[n - 1]
  }

  /** The text of an element: whole lines, the last one up to and including the end pattern. */
  function TextOf(lines: seq<string>, en: string, sp: Span): string
    requires sp.first <= sp.last < |lines|
  {
    Collected(lines, sp.first, sp.last) + UpToEnd(lines[sp.last], en)
  }

  function UpToEnd(line: string, en: string): string {
    var e := Find(line, en);
    if e >= 0 then line[..e + |en|] else line
  }

  /** The reported line (counted from 1) is the last line of the element that holds the start pattern. */
  ghost predicate IsLastStart(starts: seq<bool>, first: nat, upto: nat, line: nat)
    requires upto <= |starts|
  {
    first + 1 <= line <= upto && starts[line - 1] && forall k | line <= k < upto :: !starts[k]
  }

  ghost predicate ChunkOf(lines: seq<string>, en: string, starts: seq<bool>, sp: Span, c: Chunk)
    requires |starts| == |lines|
  {
    && sp.first <= sp.last < |lines| && c.text == TextOf(lines, en, sp)
    && IsLastStart(starts, sp.first, sp.last + 1, c.line)
  }

  /** Elements emitted after n lines. */
  ghost predicate Emitted(starts: seq<bool>, ends: seq<bool>, n: nat, spans: seq<Span>)
    requires |starts| == |ends|
  {
    && (forall i | 0 <= i < |spans| :: spans[i].last < n && IsElement(starts, ends, spans[i]))
    && (forall i, j | 0 <= i < j < |spans| :: spans[i].last < spans[j].first)
  }

  /** Start patterns before line n are in a span or from line `first` on. */
  ghost predicate Accounted(starts: seq<bool>, n: nat, spans: seq<Span>, first: nat)
    requires n <= |starts|
  {
    forall k: nat {:trigger Covered(spans, k)} | k < n && starts[k] :: Covered(spans, k) || first <= k
  }

  /** An element that began in line `first` is open, no end pattern seen before line n. */
  ghost predicate Open(starts: seq<bool>, ends: seq<bool>, n: nat, spans: seq<Span>, first: nat)
    requires |starts| == |ends| && n <= |ends|
  {
    first < |starts| && starts[first] && Past(spans, first) && forall k | first <= k < n :: !ends[k]
  }

  /** Line n is inside an element; its start pattern, if any, is now the last one seen. */
  lemma Enter(starts: seq<bool>, ends: seq<bool>, n: nat, spans: seq<Span>, was: bool, first: nat, startLine: nat)
    requires |starts| == |ends| && n < |starts| && (was || starts[n]) && Emitted(starts, ends, n, spans)
    requires Accounted(starts, n, spans, if was then first else n)
    requires was ==> first < n && Open(starts, ends, n, spans, first) && IsLastStart(starts, first, n, startLine)
    ensures var first', startLine' := if was then first else n, if starts[n] then n + 1 else startLine;
            && Open(starts, ends, n, spans, first') && IsLastStart(starts, first', n + 1, startLine')
            && Accounted(starts, n + 1, spans, first')
  {
  }

  lemma Stay(starts: seq<bool>, ends: seq<bool>, n: nat, spans: seq<Span>, first: nat)
    requires |starts| == |ends| && n < |starts| && !ends[n]
    requires Emitted(starts, ends, n, spans) && Open(starts, ends, n, spans, first)
    ensures Emitted(starts, ends, n + 1, spans) && Open(starts, ends, n + 1, spans, first)
  {
  }

  lemma Skip(starts: seq<bool>, ends: seq<bool>, n: nat, spans: seq<Span>)
    requires |starts| == |ends| && n < |starts| && !starts[n]
    requires Emitted(starts, ends, n, spans) && Accounted(starts, n, spans, n)
    ensures Emitted(starts, ends, n + 1, spans) && Accounted(starts, n + 1, spans, n + 1)
  {
  }

  lemma Close(starts: seq<bool>, ends: seq<bool>, n: nat, spans: seq<Span>, first: nat)
    requires |starts| == |ends| && first <= n < |starts| && ends[n]
    requires Emitted(starts, ends, n, spans) && Open(starts, ends, n, spans, first)
    requires Accounted(starts, n + 1, spans, first)
    ensures Emitted(starts, ends, n + 1, spans + [Span(first, n)])
    ensures Accounted(starts, n + 1, spans + [Span(first, n)], n + 1)
  {
    var spans' := spans + [Span(first, n)];
    forall k: nat | k < n + 1 && starts[k] ensures Covered(spans', k) {
      if first <= k { assert spans'[|spans|].first <= k <= spans'[|spans|].last; }
      else {
        assert Covered(spans, k);
        var i :| 0 <= i < |spans| && spans[i].first <= k <= spans[i].last;
        assert spans'[i] == spans[i];
      }
    }
  }

  lemma Finish(starts: seq<bool>, ends: seq<bool>, spans: seq<Span>, inElement: bool, first: nat)
    requires |starts| == |ends| && Emitted(starts, ends, |starts|, spans)
    requires Accounted(starts, |starts|, spans, if inElement then first else |starts|)
    requires inElement ==> Open(starts, ends, |starts|, spans, first)
    ensures IsSegmentation(starts, ends, spans)
  {
    forall k: nat | k < |starts| && starts[k]
      ensures Covered(spans, k) || exists t: nat :: t <= k && Unfinished(starts, ends, spans, t)
    {
      if !Covered(spans, k) { assert first <= k && Unfinished(starts, ends, spans, first); }
    }
  }

  ghost predicate AllChunks(lines: seq<string>, en: string, starts: seq<bool>, spans: seq<Span>, chunks: seq<Chunk>)
    requires |starts| == |lines|
  {
    |chunks| == |spans| && forall i | 0 <= i < |spans| :: ChunkOf(lines, en, starts, spans[i], chunks[i])
  }

  lemma AddChunk(lines: seq<string>, en: string, starts: seq<bool>, spans: seq<Span>, chunks: seq<Chunk>, sp: Span,
                 c: Chunk)
    requires |starts| == |lines| && AllChunks(lines, en, starts, spans, chunks) && ChunkOf(lines, en, starts, sp, c)
    ensures AllChunks(lines, en, starts, spans + [sp], chunks + [c])
  {
  }

  lemma MakeChunk(lines: seq<string>, en: string, starts: seq<bool>, first: nat, n: nat, startLine: nat)
    requires |starts| == |lines| && first <= n < |lines| && Contains(lines[n], en)
    requires IsLastStart(starts, first, n + 1, startLine)
    ensures var text := Collected(lines, first, n) + lines[n][0..Find(lines[n], en) + |en|];
            ChunkOf(lines, en, starts, Span(first, n), Chunk(text, startLine))
  {
  }

  /** The scanner between two lines, n of them read. */
  ghost predicate Scanned(lines: seq<string>, en: string, starts: seq<bool>, ends: seq<bool>, n: nat, spans: seq<Span>,
                          chunks: seq<Chunk>, inElement: bool, first: nat, startLine: nat, element: string) {
    && |starts| == |ends| == |lines| && n <= |lines|
    && Emitted(starts, ends, n, spans) && AllChunks(lines, en, starts, spans, chunks)
    && Accounted(starts, n, spans, if inElement then first else n)
    && (inElement ==> first < n && Open(starts, ends, n, spans, first) && IsLastStart(starts, first, n, startLine))
    && element == if inElement then Collected(lines, first, n) else ""
  }

  lemma SkipsLine(lines: seq<string>, en: string, starts: seq<bool>, ends: seq<bool>, n: nat, spans: seq<Span>,
                  chunks: seq<Chunk>, first: nat, startLine: nat)
    requires Scanned(lines, en, starts, ends, n, spans, chunks, false, first, startLine, "") && n < |lines|
    requires !starts[n]
    ensures Scanned(lines, en, starts, ends, n + 1, spans, chunks, false, first, startLine, "")
  {
    Skip(starts, ends, n, spans);
  }

  lemma EndsElement(lines: seq<string>, en: string, starts: seq<bool>, ends: seq<bool>, n: nat, spans: seq<Span>,
                    chunks: seq<Chunk>, was: bool, first: nat, startLine: nat, element: string, first': nat,
                    startLine': nat, text: string)
    requires Scanned(lines, en, starts, ends, n, spans, chunks, was, first, startLine, element) && n < |lines|
    requires (was || starts[n]) && ends[n] && Contains(lines[n], en)
    requires text == element + lines[n][0..Find(lines[n], en) + |en|]
    requires first' == (if was then first else n) && startLine' == if starts[n] then n + 1 else startLine
    ensures Scanned(lines, en, starts, ends, n + 1, spans + [Span(first', n)], chunks + [Chunk(text, startLine')],
                    false, first', startLine', "")
  {
    Enter(starts, ends, n, spans, was, first, startLine);
    Close(starts, ends, n, spans, first');
    MakeChunk(lines, en, starts, first', n, startLine');
    AddChunk(lines, en, starts, spans, chunks, Span(first', n), Chunk(text, startLine'));
  }

  lemma KeepsElement(lines: seq<string>, en: string, starts: seq<bool>, ends: seq<bool>, n: nat, spans: seq<Span>,
                     chunks: seq<Chunk>, was: bool, first: nat, startLine: nat, element: string, first': nat,
                     startLine': nat)
    requires Scanned(lines, en, starts, ends, n, spans, chunks, was, first, startLine, element) && n < |lines|
    requires (was || starts[n]) && !ends[n]
    requires first' == (if was then first else n) && startLine' == if starts[n] then n + 1 else startLine
    ensures Scanned(lines, en, starts, ends, n + 1, spans, chunks, true, first', startLine', element + lines[n])
  {
    Enter(starts, ends, n, spans, was, first, startLine);
    Stay(starts, ends, n, spans, first');
  }

  lemma Finished(lines: seq<string>, en: string, starts: seq<bool>, ends: seq<bool>, spans: seq<Span>,
                 chunks: seq<Chunk>, inElement: bool, first: nat, startLine: nat, element: string)
    requires Scanned(lines, en, starts, ends, |lines|, spans, chunks, inElement, first, startLine, element)
    ensures IsSegmentation(starts, ends, spans) && AllChunks(lines, en, starts, spans, chunks)
  {
    Finish(starts, ends, spans, inElement, first);
  }

  lemma Starts(lines: seq<string>, en: string, starts: seq<bool>, ends: seq<bool>)
    requires |starts| == |ends| == |lines|
    ensures Scanned(lines, en, starts, ends, 0, [], [], false, 0, 0, "")
  {
  }

  /** What the scanner keeps between two lines. */
  datatype Scanning = Scanning(chunks: seq<Chunk>, inElement: bool, startLine: nat, element: string)

  ghost predicate After(lines: seq<string>, en: string, starts: seq<bool>, ends: seq<bool>, n: nat, spans: seq<Span>,
                        first: nat, s: Scanning) {
    Scanned(lines, en, starts, ends, n, spans, s.chunks, s.inElement, first, s.startLine, s.element)
  }

  /** One line of the file. */
  method ScanLine(line: string, n: nat, st: string, en: string, s: Scanning,
                  ghost lines: seq<string>, ghost starts: seq<bool>, ghost ends: seq<bool>,
                  ghost spans: seq<Span>, ghost first: nat)
    returns (s': Scanning, ghost spans': seq<Span>, ghost first': nat)
    requires n < |lines| == |starts| == |ends| && line == lines[n]
    requires starts[n] == Contains(line, st) && ends[n] == Contains(line, en)
    requires After(lines, en, starts, ends, n, spans, first, s)
    ensures After(lines, en, starts, ends, n + 1, spans', first', s')
  {
    var chunks, inElement, startLine, element := s.chunks, s.inElement, s.startLine, s.element;
    first', spans' := first, spans;
    if Contains(line, st) {
      if !inElement { first' := n; }
      inElement := true;
      startLine := n + 1;
    }
    if inElement {
      var endex := Find(line, en);
      if endex >= 0 {
        element := element + line[0..endex + |en|];
        inElement := false;
        EndsElement(lines, en, starts, ends, n, spans, chunks, s.inElement, first, s.startLine, s.element, first',
                    startLine, element);
        chunks, spans' := chunks + [Chunk(element, startLine)], spans + [Span(first', n)];
        element := "";
      } else {
        KeepsElement(lines, en, starts, ends, n, spans, chunks, s.inElement, first, s.startLine, element, first',
                     startLine);
        element := element + line;
      }
    } else {
      SkipsLine(lines, en, starts, ends, n, spans, chunks, first, startLine);
    }
    s' := Scanning(chunks, inElement, startLine, element);
  }

  /** Every chunk is the text of an element, from a start pattern to the first end pattern, with the line of
      its last start pattern; the elements are disjoint, in order, and leave out no start pattern. */
  ghost predicate IsScan(lines: seq<string>, st: string, en: string, chunks: seq<Chunk>) {
    exists spans ::
      IsSegmentation(Marks(lines, st), Marks(lines, en), spans) && AllChunks(lines, en, Marks(lines, st), spans, chunks)
  }

  method Scan(lines: seq<string>, st: string, en: string) returns (chunks: seq<Chunk>)
    ensures IsScan(lines, st, en, chunks)
  {
    ghost var spans: seq<Span> := [];
    ghost var first: nat := 0;
    ghost var starts, ends := Marks(lines, st), Marks(lines, en);
    var s := Scanning([], false, 0, "");
    Starts(lines, en, starts, ends);
    for n := 0 to |lines|
      invariant After(lines, en, starts, ends, n, spans, first, s)
    {
      s, spans, first := ScanLine(lines[n], n, st, en, s, lines, starts, ends, spans, first);
    }
    Finished(lines, en, starts, ends, spans, s.chunks, s.inElement, first, s.startLine, s.element);
    chunks := s.chunks;
  }

  lemma BehindAll(starts: seq<bool>, ends: seq<bool>, spans: seq<Span>, i: nat, t: nat)
    requires |starts| == |ends| && IsSegmentation(starts, ends, spans) && Past(spans, t) && i <= |spans|
    ensures i == |spans| || spans[i].first < t
  {
    if i < |spans| - 1 {
      assert spans[i].last < spans[|spans| - 1].first;
    }
    assert i < |spans| ==> IsElement(starts, ends, spans[i]);
  }

  /** A line that holds the start pattern and is in no span lies behind all of them and is never ended. */
  lemma NotCovered(starts: seq<bool>, ends: seq<bool>, spans: seq<Span>, k: nat, i: nat)
    requires |starts| == |ends| && IsSegmentation(starts, ends, spans)
    requires k < |starts| && starts[k] && i <= |spans|
    requires i < |spans| ==> k < spans[i].first
    requires i > 0 ==> spans[i - 1].last < k
    ensures i == |spans| && forall j | k <= j < |ends| :: !ends[j]
  {
    forall j | 0 <= j < |spans|
      ensures !(spans[j].first <= k <= spans[j].last)
    {
      assert j < i - 1 ==> spans[j].last < spans[i - 1].first;
      assert i < j ==> spans[i].last < spans[j].first;
    }
    assert !Covered(spans, k);
    var t: nat :| t <= k && Unfinished(starts, ends, spans, t);
    BehindAll(starts, ends, spans, i, t);
  }

  lemma SameSpan(starts: seq<bool>, ends: seq<bool>, a: seq<Span>, b: seq<Span>, i: nat)
    requires |starts| == |ends| && IsSegmentation(starts, ends, a) && IsSegmentation(starts, ends, b)
    requires i < |a| && i <= |b| && forall j | 0 <= j < i :: a[j] == b[j]
    ensures i < |b| && a[i].first >= b[i].first
  {
    assert IsElement(starts, ends, a[i]);
    if i == |b| || a[i].first < b[i].first {
      NotCovered(starts, ends, b, a[i].first, i);
    }
  }

  /** The elements of a file are determined: two segmentations are the same. */
  lemma SegmentationUnique(starts: seq<bool>, ends: seq<bool>, a: seq<Span>, b: seq<Span>)
    requires |starts| == |ends| && IsSegmentation(starts, ends, a) && IsSegmentation(starts, ends, b)
    ensures a == b
  {
    var i := 0;
    while i < |a|
      invariant i <= |a| && i <= |b| && forall j | 0 <= j < i :: a[j] == b[j]
    {
      SameSpan(starts, ends, a, b, i);
      SameSpan(starts, ends, b, a, i);
      assert IsElement(starts, ends, a[i]) && IsElement(starts, ends, b[i]);
      i := i + 1;
    }
    if |a| < |b| { SameSpan(starts, ends, b, a, |a|); }
  }

  lemma SameChunk(lines: seq<string>, en: string, starts: seq<bool>, sp: Span, c: Chunk, d: Chunk)
    requires |starts| == |lines| && ChunkOf(lines, en, starts, sp, c) && ChunkOf(lines, en, starts, sp, d)
    ensures c == d
  {
    assert starts[c.line - 1] && starts[d.line - 1];
  }

  /** A file has one scan. */
  lemma ScanUnique(lines: seq<string>, st: string, en: string, a: seq<Chunk>, b: seq<Chunk>)
    requires IsScan(lines, st, en, a) && IsScan(lines, st, en, b)
    ensures a == b
  {
    var starts, ends := Marks(lines, st), Marks(lines, en);
    var x :| IsSegmentation(starts, ends, x) && AllChunks(lines, en, starts, x, a);
    var y :| IsSegmentation(starts, ends, y) && AllChunks(lines, en, starts, y, b);
    SegmentationUnique(starts, ends, x, y);
    forall i | 0 <= i < |a|
      ensures a[i] == b[i]
    {
      SameChunk(lines, en, starts, x[i], a[i], b[i]);
    }
  }
}
