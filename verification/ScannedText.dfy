/** What the scanner makes of an element over several lines, in terms of the text. */
module ScannedText {
  import opened Text
  import opened Scanner

  lemma {:induction false} CollectedIs(lines: seq<string>, first: nat, n: nat)
    requires first <= n <= |lines|
    ensures Collected(lines, first, n) == Concat(lines[first..n])
    decreases n
  {
    if first < n {
      CollectedIs(lines, first, n - 1);
      assert lines[first..n] == lines[first..n - 1] + [lines[n - 1]];
      ConcatSnoc(lines[first..n - 1], lines[n - 1]);
    }
  }

  /** One element in the lines first to last, and no other start pattern. */
  ghost predicate Alone(lines: seq<string>, st: string, en: string, first: nat, last: nat) {
    && first <= last < |lines|
    && (forall k | 0 <= k < |lines| :: Contains(lines[k], st) <==> k == first)
    && Contains(lines[last], en) && forall k | first <= k < last :: !Contains(lines[k], en)
  }

  lemma AloneScan(lines: seq<string>, st: string, en: string, first: nat, last: nat, chunks: seq<Chunk>)
    requires Alone(lines, st, en, first, last) && IsScan(lines, st, en, chunks)
    ensures chunks == [Chunk(Concat(lines[first..last]) + UpToEnd(lines[last], en), first + 1)]
  {
    hide Contains, Find, UpToEnd, Concat;
    var starts, ends, spans := Marks(lines, st), Marks(lines, en), [Span(first, last)];
    var c := Chunk(Concat(lines[first..last]) + UpToEnd(lines[last], en), first + 1);
    CollectedIs(lines, first, last);
    assert IsElement(starts, ends, spans[0]);
    assert Covered(spans, first) by {
      assert spans[0].first <= first <= spans[0].last;
    }
    assert IsSegmentation(starts, ends, spans);
    assert ChunkOf(lines, en, starts, spans[0], c);
    assert AllChunks(lines, en, starts, spans, [c]);
    ScanUnique(lines, st, en, chunks, [c]);
  }

  /** An element that begins in the first line of body and ends behind u, in a file without another start pattern. */
  lemma OneElement(before: seq<string>, body: seq<string>, u: string, v: string, behind: seq<string>,
                   st: string, en: string, chunks: seq<Chunk>)
    requires IsScan(before + body + [u + (en + v)] + behind, st, en, chunks)
    requires body != [] && Contains(body[0], st) && forall i | 0 < i < |body| :: !Contains(body[i], st)
    requires !Contains(u + (en + v), st) && Find(u + (en + v), en) == |u|
    requires forall i | 0 <= i < |body| :: !Contains(body[i], en)
    requires forall i | 0 <= i < |before| :: !Contains(before[i], st)
    requires forall i | 0 <= i < |behind| :: !Contains(behind[i], st)
    ensures chunks == [Chunk(Concat(body) + (u + en), |before| + 1)]
  {
    EndOf(u, en, v);
    hide *;
    ElementAt(before, body, u + (en + v), behind, st, en, chunks);
  }

  lemma EndOf(u: string, en: string, v: string)
    requires Find(u + (en + v), en) == |u|
    ensures UpToEnd(u + (en + v), en) == u + en && Contains(u + (en + v), en)
  {
    assert (u + (en + v))[..|u| + |en|] == u + en;
  }

  lemma ElementAt(before: seq<string>, body: seq<string>, end: string, behind: seq<string>, st: string, en: string,
                  chunks: seq<Chunk>)
    requires IsScan(before + body + [end] + behind, st, en, chunks)
    requires body != [] && Contains(body[0], st) && forall i | 0 < i < |body| :: !Contains(body[i], st)
    requires !Contains(end, st) && Contains(end, en)
    requires forall i | 0 <= i < |body| :: !Contains(body[i], en)
    requires forall i | 0 <= i < |before| :: !Contains(before[i], st)
    requires forall i | 0 <= i < |behind| :: !Contains(behind[i], st)
    ensures chunks == [Chunk(Concat(body) + UpToEnd(end, en), |before| + 1)]
  {
    hide Contains, UpToEnd, Concat, IsScan;
    var lines, first, last := before + body + [end] + behind, |before|, |before| + |body|;
    forall k | 0 <= k < |lines|
      ensures Contains(lines[k], st) <==> k == first
      ensures first <= k < last ==> !Contains(lines[k], en)
    {
      LineAt(before, body, end, behind, k);
    }
    LineAt(before, body, end, behind, last);
    BodyAt(before, body, [end] + behind);
    assert lines == before + body + ([end] + behind);
    AloneScan(lines, st, en, first, last, chunks);
  }

  lemma BodyAt(before: seq<string>, body: seq<string>, behind: seq<string>)
    ensures (before + body + behind)[|before|..|before| + |body|] == body
  {
  }

  lemma LineAt(before: seq<string>, body: seq<string>, end: string, behind: seq<string>, k: nat)
    requires k < |before| + |body| + 1 + |behind|
    ensures var lines, n := before + body + [end] + behind, |before| + |body|;
            lines[k] == if k < |before| then before[k] else if k < n then body[k - |before|]
                        else if k == n then end else behind[k - n - 1]
  {
  }
}
