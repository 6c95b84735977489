/** Searching in text, as Python's str.find and str.replace do. */
module Text {
  predicate At(s: string, pat: string, i: int) {
    0 <= i <= |s| && pat <= s[i..]
  }

  /** pat occurs in s (str.find returns an index). */
  ghost predicate Holds(s: string, pat: string) {
    exists i :: At(s, pat, i)
  }

  /** str.find: the first index from k on, or -1. */
  function FindFrom(s: string, pat: string, k: nat): (r: int)
    requires k <= |s|
    ensures r == -1 || (k <= r && At(s, pat, r))
    ensures forall i | k <= i && (r == -1 || i < r) :: !At(s, pat, i)
    decreases |s| - k
  {
    if At(s, pat, k) then k
    else if k == |s| then -1
    else FindFrom(s, pat, k + 1)
  }

  function Find(s: string, pat: string): (r: int)
    ensures r == -1 || At(s, pat, r)
    ensures forall i | r == -1 || i < r :: !At(s, pat, i)
  {
    FindFrom(s, pat, 0)
  }

  /** s.find(pat) >= 0 */
  predicate Contains(s: string, pat: string) {
    Find(s, pat) >= 0
  }

  lemma ContainsHolds(s: string, pat: string)
    ensures Contains(s, pat) <==> Holds(s, pat)
  {
  }

  function Concat(parts: seq<string>): string {
    if parts == [] then "" else parts[0] + Concat(parts[1..])
  }

  lemma {:induction false} ConcatSnoc(parts: seq<string>, p: string)
    ensures Concat(parts + [p]) == Concat(parts) + p
  {
    if parts == [] {
      assert [p][1..] == [];
    } else {
      assert (parts + [p])[1..] == parts[1..] + [p];
      ConcatSnoc(parts[1..], p);
    }
  }
}
