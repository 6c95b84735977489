/** DuplicateReservations: taking over the attributes of another core's record. */
module Duplication {
  import opened CoreRecord

  const ORDER: seq<Attr> := [L1p, Qfpu, Xu, Sqrt, Div, Ctx]

  function Code(a: Attr): int {
    match a
    case L1p => -1008
    case Qfpu => -2032
    case Xu => -2033
    case Sqrt => -2034
    case Div => -2035
    case Ctx => -2029
  }

  predicate Requested(mask: set<Bit>, a: Attr) {
    Has(a) in mask || (a == Ctx && CtxBoth in mask)
  }

  function CopyOf(src: Core, a: Attr): Call {
    RsvAttr(a, src.vals[a])
  }

  /** From attribute number k on, until one is refused; the mixed flag last. */
  function Duplicate(env: int -> int, core: Core, mask: set<Bit>, src: Core, k: nat): (Core, int)
    requires k <= 6
    decreases 6 - k, mask
  {
    if k == 6 then (if CtxMixed in mask then After(env, core, 0, SetMixed) else core, 0)
    else if !Requested(mask, ORDER[k]) then Duplicate(env, core, mask, src, k + 1)
    else
      var core' := After(env, core, 0, CopyOf(src, ORDER[k]));
      if Result(env, core, 0, CopyOf(src, ORDER[k])) then Duplicate(env, core', mask, src, k + 1)
      else (core', Code(ORDER[k]))
  }

  /** The turn of attribute number k: skipped, or asked for with answer ok. */
  predicate Turn(env: int -> int, core: Core, mask: set<Bit>, src: Core, k: nat, next: Core, ok: bool)
    requires k < 6
  {
    if Requested(mask, ORDER[k])
    then next == After(env, core, 0, CopyOf(src, ORDER[k])) && ok == Result(env, core, 0, CopyOf(src, ORDER[k]))
    else next == core && ok
  }

  /** The record after the first k turns, if all are granted. */
  function Granted(env: int -> int, core: Core, mask: set<Bit>, src: Core, k: nat): Option<Core>
    requires k <= 6
    decreases k, mask
  {
    if k == 0 then Some(core)
    else
      var prev := Granted(env, core, mask, src, k - 1);
      if prev.None? || !Requested(mask, ORDER[k - 1]) then prev
      else if Result(env, prev.value, 0, CopyOf(src, ORDER[k - 1]))
      then Some(After(env, prev.value, 0, CopyOf(src, ORDER[k - 1])))
      else None
  }

  ghost predicate Going(env: int -> int, core: Core, mask: set<Bit>, src: Core, k: nat, now: Core)
    requires k <= 6
  {
    Granted(env, core, mask, src, k) == Some(now)
  }

  lemma OneTurn(env: int -> int, core: Core, mask: set<Bit>, src: Core, k: nat, next: Core, ok: bool)
    requires k < 6 && Turn(env, core, mask, src, k, next, ok)
    ensures Duplicate(env, core, mask, src, k) ==
              if ok then Duplicate(env, next, mask, src, k + 1) else (next, Code(ORDER[k]))
  {
  }

  lemma {:induction false} GoingOn(env: int -> int, core: Core, mask: set<Bit>, src: Core, k: nat, now: Core)
    requires k <= 6 && Going(env, core, mask, src, k, now)
    ensures Duplicate(env, core, mask, src, 0) == Duplicate(env, now, mask, src, k)
    decreases k
  {
    hide After, Result, Requested, CopyOf, Duplicate;
    if k > 0 {
      var prev := Granted(env, core, mask, src, k - 1).value;
      GoingOn(env, core, mask, src, k - 1, prev);
      OneTurn(env, prev, mask, src, k - 1, now, true);
    }
  }

  lemma Refused(env: int -> int, core: Core, mask: set<Bit>, src: Core, k: nat, now: Core, next: Core)
    requires k < 6 && Going(env, core, mask, src, k, now) && Turn(env, now, mask, src, k, next, false)
    ensures Duplicate(env, core, mask, src, 0) == (next, Code(ORDER[k]))
  {
    GoingOn(env, core, mask, src, k, now);
    OneTurn(env, now, mask, src, k, next, false);
  }

  lemma Finished(env: int -> int, core: Core, mask: set<Bit>, src: Core, now: Core)
    requires Going(env, core, mask, src, 6, now)
    ensures Duplicate(env, core, mask, src, 0) == (if CtxMixed in mask then After(env, now, 0, SetMixed) else now, 0)
  {
    GoingOn(env, core, mask, src, 6, now);
  }

  /** Attribute a is requested and already has another value (or the environment insists on another). */
  predicate Conflict(env: int -> int, core: Core, mask: set<Bit>, src: Core, a: Attr) {
    Requested(mask, a) && !Result(env, core, 0, CopyOf(src, a))
  }

  function FirstConflict(env: int -> int, core: Core, mask: set<Bit>, src: Core, k: nat): (f: nat)
    requires k <= 6
    ensures k <= f <= 6
    ensures f < 6 ==> Conflict(env, core, mask, src, ORDER[f])
    ensures forall j | k <= j < f :: !Conflict(env, core, mask, src, ORDER[j])
    decreases 6 - k, mask
  {
    if k == 6 || Conflict(env, core, mask, src, ORDER[k]) then k else FirstConflict(env, core, mask, src, k + 1)
  }

  /** The attribute is as the source has it (or the source asks for nothing). */
  predicate Agrees(core: Core, src: Core, a: Attr) {
    Noop(a, src.vals[a]) || (Has(a) in core.alloc && core.vals[a] == src.vals[a])
  }

  predicate SameAttr(core: Core, core': Core, a: Attr) {
    (Has(a) in core'.alloc <==> Has(a) in core.alloc) && core'.vals[a] == core.vals[a]
  }

  /** Copying one attribute settles it and nothing else. */
  lemma CopyOne(env: int -> int, core: Core, src: Core, a: Attr, b: Attr)
    ensures var core' := After(env, core, 0, CopyOf(src, a));
            && (a != b ==> SameAttr(core, core', b)
                           && Result(env, core', 0, CopyOf(src, b)) == Result(env, core, 0, CopyOf(src, b)))
            && (Result(env, core, 0, CopyOf(src, a)) ==> Agrees(core', src, a))
            && (a != Ctx ==> (CtxBoth in core'.alloc <==> CtxBoth in core.alloc))
            && core'.refs == core.refs && core'.cnt == core.cnt && core'.mask == core.mask && core'.att == core.att
            && (CtxMixed in core'.alloc <==> CtxMixed in core.alloc)
  {
  }

  /** The turn of attribute number j comes, with the turns from k on and f the first conflicting one. */
  predicate Asked(mask: set<Bit>, k: nat, f: nat, j: nat)
    requires j < 6
  {
    k <= j <= f && Requested(mask, ORDER[j])
  }

  /** The record as asking for attribute number j alone leaves it, if its turn comes. */
  function Alone(env: int -> int, core: Core, mask: set<Bit>, src: Core, k: nat, f: nat, j: nat): Core
    requires j < 6
  {
    if Asked(mask, k, f, j) then After(env, core, 0, CopyOf(src, ORDER[j])) else core
  }

  /** What the call leaves: every attribute, and the both bit with the context, as asking for that attribute alone
      would; the mixed bit if no attribute conflicts; nothing else changed. */
  ghost predicate Outcome(env: int -> int, core: Core, mask: set<Bit>, src: Core, k: nat, f: nat, core': Core, rc: int)
    requires k <= f <= 6
  {
    && rc == (if f == 6 then 0 else Code(ORDER[f]))
    && (forall j: nat | j < 6 :: SameAttr(Alone(env, core, mask, src, k, f, j), core', ORDER[j]))
    && (CtxBoth in core'.alloc <==> CtxBoth in Alone(env, core, mask, src, k, f, 5).alloc)
    && (forall j | k <= j < f && Requested(mask, ORDER[j]) :: Agrees(core', src, ORDER[j]))
    && core'.refs == core.refs && core'.cnt == core.cnt && core'.mask == core.mask && core'.att == core.att
    && (CtxMixed in core'.alloc <==> CtxMixed in core.alloc || (f == 6 && CtxMixed in mask))
  }

  lemma FirstConflictKept(env: int -> int, core: Core, core': Core, mask: set<Bit>, src: Core, k: nat)
    requires k <= 6
    requires forall j | k <= j < 6 ::
               Conflict(env, core', mask, src, ORDER[j]) == Conflict(env, core, mask, src, ORDER[j])
    ensures FirstConflict(env, core', mask, src, k) == FirstConflict(env, core, mask, src, k)
  {
  }

  function IndexOf(a: Attr): (j: nat)
    ensures j < 6 && ORDER[j] == a
  {
    match a
    case L1p => 0
    case Qfpu => 1
    case Xu => 2
    case Sqrt => 3
    case Div => 4
    case Ctx => 5
  }

  lemma CopyLeavesOthers(env: int -> int, core: Core, src: Core, k: nat, j: nat)
    requires k < 6 && j < 6 && j != k
    ensures var core' := After(env, core, 0, CopyOf(src, ORDER[k]));
            && SameAttr(core, core', ORDER[j])
            && Result(env, core', 0, CopyOf(src, ORDER[j])) == Result(env, core, 0, CopyOf(src, ORDER[j]))
  {
    CopyOne(env, core, src, ORDER[k], ORDER[j]);
  }

  lemma AloneSame(env: int -> int, core: Core, mid: Core, src: Core, b: Attr)
    requires SameAttr(core, mid, b)
    ensures SameAttr(After(env, core, 0, CopyOf(src, b)), After(env, mid, 0, CopyOf(src, b)), b)
    ensures b == Ctx && (CtxBoth in mid.alloc <==> CtxBoth in core.alloc) ==>
            (CtxBoth in After(env, core, 0, CopyOf(src, b)).alloc
             <==> CtxBoth in After(env, mid, 0, CopyOf(src, b)).alloc)
  {
  }

  /** An attribute whose turn is not this one. */
  lemma OtherTurn(env: int -> int, core: Core, mid: Core, mask: set<Bit>, src: Core, k: nat, f: nat, core': Core,
                  j: nat)
    requires k < 6 && k + 1 <= f <= 6 && j < 6 && j != k && SameAttr(core, mid, ORDER[j])
    requires SameAttr(Alone(env, mid, mask, src, k + 1, f, j), core', ORDER[j])
    ensures SameAttr(Alone(env, core, mask, src, k, f, j), core', ORDER[j])
  {
    hide After;
    AloneSame(env, core, mid, src, ORDER[j]);
  }

  lemma BothTurn(env: int -> int, core: Core, mid: Core, mask: set<Bit>, src: Core, k: nat, f: nat, core': Core)
    requires k < 6 && k + 1 <= f <= 6 && Requested(mask, ORDER[k])
    requires mid == After(env, core, 0, CopyOf(src, ORDER[k])) && (k < 5 ==> SameAttr(core, mid, Ctx))
    requires k < 5 ==> (CtxBoth in mid.alloc <==> CtxBoth in core.alloc)
    requires CtxBoth in core'.alloc <==> CtxBoth in Alone(env, mid, mask, src, k + 1, f, 5).alloc
    ensures CtxBoth in core'.alloc <==> CtxBoth in Alone(env, core, mask, src, k, f, 5).alloc
  {
    hide After;
    if k < 5 {
      AloneSame(env, core, mid, src, Ctx);
    }
  }

  /** One attribute granted, the rest as the recursive call leaves them. */
  lemma OutcomeStep(env: int -> int, core: Core, mid: Core, mask: set<Bit>, src: Core, k: nat, f: nat, core': Core,
                    rc: int)
    requires k < 6 && k + 1 <= f <= 6 && Requested(mask, ORDER[k])
    requires mid == After(env, core, 0, CopyOf(src, ORDER[k])) && Result(env, core, 0, CopyOf(src, ORDER[k]))
    requires Outcome(env, mid, mask, src, k + 1, f, core', rc)
    requires forall j: nat | j < 6 && j != k :: SameAttr(core, mid, ORDER[j])
    ensures Outcome(env, core, mask, src, k, f, core', rc)
  {
    CopyOne(env, core, src, ORDER[k], ORDER[k]);
    hide After, Result;
    assert SameAttr(Alone(env, mid, mask, src, k + 1, f, k), core', ORDER[k]);
    forall j: nat | j < 6
      ensures SameAttr(Alone(env, core, mask, src, k, f, j), core', ORDER[j])
    {
      if j != k {
        OtherTurn(env, core, mid, mask, src, k, f, core', j);
      }
    }
    BothTurn(env, core, mid, mask, src, k, f, core');
    assert Agrees(core', src, ORDER[k]);
  }

  lemma OthersKept(env: int -> int, core: Core, mask: set<Bit>, src: Core, k: nat, mid: Core)
    requires k < 6 && mid == After(env, core, 0, CopyOf(src, ORDER[k]))
    ensures forall j: nat | j < 6 && j != k :: SameAttr(core, mid, ORDER[j])
    ensures FirstConflict(env, mid, mask, src, k + 1) == FirstConflict(env, core, mask, src, k + 1)
  {
    forall j: nat | j < 6 && j != k
      ensures SameAttr(core, mid, ORDER[j])
      ensures Conflict(env, mid, mask, src, ORDER[j]) == Conflict(env, core, mask, src, ORDER[j])
    {
      CopyLeavesOthers(env, core, src, k, j);
    }
    FirstConflictKept(env, core, mid, mask, src, k + 1);
  }

  lemma OneGranted(env: int -> int, core: Core, mask: set<Bit>, src: Core, k: nat, mid: Core, core': Core, rc: int)
    requires k < 6 && mid == After(env, core, 0, CopyOf(src, ORDER[k]))
    requires Requested(mask, ORDER[k]) && Result(env, core, 0, CopyOf(src, ORDER[k]))
    requires Outcome(env, mid, mask, src, k + 1, FirstConflict(env, mid, mask, src, k + 1), core', rc)
    ensures Outcome(env, core, mask, src, k, FirstConflict(env, core, mask, src, k), core', rc)
  {
    hide After, Result;
    OthersKept(env, core, mask, src, k, mid);
    OutcomeStep(env, core, mid, mask, src, k, FirstConflict(env, core, mask, src, k + 1), core', rc);
  }

  lemma OneRefused(env: int -> int, core: Core, mask: set<Bit>, src: Core, k: nat, mid: Core)
    requires k < 6 && mid == After(env, core, 0, CopyOf(src, ORDER[k])) && Conflict(env, core, mask, src, ORDER[k])
    ensures Outcome(env, core, mask, src, k, FirstConflict(env, core, mask, src, k), mid, Code(ORDER[k]))
  {
    CopyOne(env, core, src, ORDER[k], ORDER[k]);
    OthersKept(env, core, mask, src, k, mid);
    hide After, Result;
    assert FirstConflict(env, core, mask, src, k) == k;
  }

  lemma OutcomeSkips(env: int -> int, core: Core, mask: set<Bit>, src: Core, k: nat, f: nat, core': Core, rc: int)
    requires k < 6 && !Requested(mask, ORDER[k]) && k + 1 <= f <= 6
    requires Outcome(env, core, mask, src, k + 1, f, core', rc)
    ensures Outcome(env, core, mask, src, k, f, core', rc)
  {
    hide After, SameAttr, Agrees, Requested;
    forall j: nat | j < 6
      ensures Alone(env, core, mask, src, k, f, j) == Alone(env, core, mask, src, k + 1, f, j)
    {
    }
    hide Alone;
  }

  lemma OneSkipped(env: int -> int, core: Core, mask: set<Bit>, src: Core, k: nat, core': Core, rc: int)
    requires k < 6 && !Requested(mask, ORDER[k])
    requires Outcome(env, core, mask, src, k + 1, FirstConflict(env, core, mask, src, k + 1), core', rc)
    ensures Outcome(env, core, mask, src, k, FirstConflict(env, core, mask, src, k), core', rc)
  {
    hide Outcome, Result;
    OutcomeSkips(env, core, mask, src, k, FirstConflict(env, core, mask, src, k + 1), core', rc);
  }

  /** DuplicateReservations returns 0 iff no requested attribute conflicts, and otherwise the code of the
      first that does; every attribute asked for is as asking for it alone would leave it, those before the conflict
      agree with the source, and all others are as they were. */
  lemma {:induction false} DuplicateExact(env: int -> int, core: Core, mask: set<Bit>, src: Core, k: nat)
    requires k <= 6
    ensures var (core', rc) := Duplicate(env, core, mask, src, k);
            Outcome(env, core, mask, src, k, FirstConflict(env, core, mask, src, k), core', rc)
    decreases 6 - k
  {
    if k < 6 {
      var mid := After(env, core, 0, CopyOf(src, ORDER[k]));
      if !Requested(mask, ORDER[k]) {
        DuplicateExact(env, core, mask, src, k + 1);
        var (core', rc) := Duplicate(env, core, mask, src, k + 1);
        OneSkipped(env, core, mask, src, k, core', rc);
      } else if Result(env, core, 0, CopyOf(src, ORDER[k])) {
        DuplicateExact(env, mid, mask, src, k + 1);
        var (core', rc) := Duplicate(env, mid, mask, src, k + 1);
        OneGranted(env, core, mask, src, k, mid, core', rc);
      } else {
        OneRefused(env, core, mask, src, k, mid);
      }
    }
  }

  lemma OutcomeReturns(env: int -> int, core: Core, mask: set<Bit>, src: Core, f: nat, core': Core, rc: int, a: Attr)
    requires f <= 6 && Outcome(env, core, mask, src, 0, f, core', rc)
    requires forall j | 0 <= j < f :: !Conflict(env, core, mask, src, ORDER[j])
    ensures rc == 0 <==> f == 6
    ensures rc == 0 ==> !Conflict(env, core, mask, src, a) && (Requested(mask, a) ==> Agrees(core', src, a))
    ensures rc == Code(a) ==> f < 6 && a == ORDER[f]
  {
    hide Conflict, Requested, Agrees, Alone, SameAttr;
    assert ORDER[IndexOf(a)] == a;
  }

  /** The same from the start, without the search: both directions, and the code names the conflict. */
  lemma DuplicateReturns(env: int -> int, core: Core, mask: set<Bit>, src: Core)
    ensures var (core', rc) := Duplicate(env, core, mask, src, 0);
            && (rc == 0 <==> forall a: Attr :: !Conflict(env, core, mask, src, a))
            && (forall a: Attr | rc == Code(a) :: Conflict(env, core, mask, src, a))
            && (rc == 0 ==> forall a: Attr | Requested(mask, a) :: Agrees(core', src, a))
  {
    var (core', rc) := Duplicate(env, core, mask, src, 0);
    var f := FirstConflict(env, core, mask, src, 0);
    hide *;
    DuplicateExact(env, core, mask, src, 0);
    forall a: Attr
      ensures rc == 0 <==> f == 6
      ensures rc == 0 ==> !Conflict(env, core, mask, src, a) && (Requested(mask, a) ==> Agrees(core', src, a))
      ensures rc == Code(a) ==> f < 6 && a == ORDER[f]
    {
      OutcomeReturns(env, core, mask, src, f, core', rc, a);
    }
    OutcomeReturns(env, core, mask, src, f, core', rc, Ctx);
  }

  /** What is fixed stays as it is, and a request for nothing fixes nothing. */
  lemma DuplicateKeeps(env: int -> int, core: Core, mask: set<Bit>, src: Core, a: Attr)
    requires Has(a) in core.alloc || !Requested(mask, a) || Noop(a, src.vals[a])
    ensures SameAttr(core, Duplicate(env, core, mask, src, 0).0, a)
  {
    var (core', rc) := Duplicate(env, core, mask, src, 0);
    var f, j := FirstConflict(env, core, mask, src, 0), IndexOf(a);
    AloneKeeps(env, core, mask, src, f, j);
    hide Duplicate, Alone, FirstConflict, Requested, Noop;
    DuplicateExact(env, core, mask, src, 0);
    assert SameAttr(Alone(env, core, mask, src, 0, f, j), core', ORDER[j]);
  }

  /** A context that was not fixed becomes what the environment makes of the source's, even where that is refused. */
  lemma DuplicateTakesContext(env: int -> int, core: Core, mask: set<Bit>, src: Core)
    requires Has(Ctx) !in core.alloc && Duplicate(env, core, mask, src, 0).1 == -2029
    ensures var core' := Duplicate(env, core, mask, src, 0).0;
            Has(Ctx) in core'.alloc && core'.vals[Ctx] == [env(src.vals[Ctx][0])] != src.vals[Ctx]
  {
    var (core', rc) := Duplicate(env, core, mask, src, 0);
    var f := FirstConflict(env, core, mask, src, 0);
    hide Duplicate, Alone, FirstConflict, Conflict, Requested;
    DuplicateExact(env, core, mask, src, 0);
    OutcomeReturns(env, core, mask, src, f, core', rc, Ctx);
    assert ORDER[5] == Ctx && IndexOf(ORDER[f]) == f;
    ContextRefused(env, core, mask, src);
    assert SameAttr(Alone(env, core, mask, src, 0, f, 5), core', ORDER[5]);
  }

  lemma AloneKeeps(env: int -> int, core: Core, mask: set<Bit>, src: Core, f: nat, j: nat)
    requires j < 6
    requires Has(ORDER[j]) in core.alloc || !Requested(mask, ORDER[j]) || Noop(ORDER[j], src.vals[ORDER[j]])
    ensures SameAttr(core, Alone(env, core, mask, src, 0, f, j), ORDER[j])
  {
  }

  lemma ContextRefused(env: int -> int, core: Core, mask: set<Bit>, src: Core)
    requires FirstConflict(env, core, mask, src, 0) == 5 && Has(Ctx) !in core.alloc
    ensures var core' := Alone(env, core, mask, src, 0, 5, 5);
            Has(Ctx) in core'.alloc && core'.vals[Ctx] == [env(src.vals[Ctx][0])] != src.vals[Ctx]
  {
    assert ORDER[5] == Ctx && Conflict(env, core, mask, src, ORDER[5]);
  }

  // ----- the outcome by attribute, codes by number -----

  lemma ConflictIs(env: int -> int, core: Core, mask: set<Bit>, src: Core, a: Attr)
    ensures Conflict(env, core, mask, src, a) <==>
            && Requested(mask, a) && !Noop(a, src.vals[a])
            && if Has(a) in core.alloc then core.vals[a] != src.vals[a]
               else a == Ctx && env(src.vals[Ctx][0]) != src.vals[Ctx][0]
  {
    assert src.vals[Ctx] == [src.vals[Ctx][0]];
  }

  /** The codes of the header, in the order in which the attributes are asked for. */
  lemma DuplicateCodes(env: int -> int, core: Core, mask: set<Bit>, src: Core)
    ensures Duplicate(env, core, mask, src, 0).1 ==
            if Conflict(env, core, mask, src, L1p) then -1008
            else if Conflict(env, core, mask, src, Qfpu) then -2032
            else if Conflict(env, core, mask, src, Xu) then -2033
            else if Conflict(env, core, mask, src, Sqrt) then -2034
            else if Conflict(env, core, mask, src, Div) then -2035
            else if Conflict(env, core, mask, src, Ctx) then -2029
            else 0
  {
    var f := FirstConflict(env, core, mask, src, 0);
    DuplicateExact(env, core, mask, src, 0);
    hide Duplicate, Conflict, FirstConflict, Alone, SameAttr, Agrees, Requested;
    assert ORDER[0] == L1p && ORDER[1] == Qfpu && ORDER[2] == Xu;
    assert ORDER[3] == Sqrt && ORDER[4] == Div && ORDER[5] == Ctx;
  }

  lemma DuplicateTakes(env: int -> int, core: Core, mask: set<Bit>, src: Core, a: Attr, core': Core)
    requires core' == Duplicate(env, core, mask, src, 0).0
    requires Has(a) !in core.alloc && Requested(mask, a) && !Noop(a, src.vals[a])
    requires forall j | 0 <= j < IndexOf(a) :: !Conflict(env, core, mask, src, ORDER[j])
    ensures Has(a) in core'.alloc && core'.vals[a] == if a == Ctx then [env(src.vals[Ctx][0])] else src.vals[a]
  {
    var f, j := FirstConflict(env, core, mask, src, 0), IndexOf(a);
    assert Alone(env, core, mask, src, 0, 6, j) == After(env, core, 0, CopyOf(src, a));
    DuplicateExact(env, core, mask, src, 0);
    hide Duplicate, FirstConflict, Conflict, Requested, Noop;
    assert f >= j;
    assert SameAttr(Alone(env, core, mask, src, 0, f, j), core', ORDER[j]);
  }

  lemma DuplicateStops(env: int -> int, core: Core, mask: set<Bit>, src: Core, a: Attr, core': Core, j: nat)
    requires core' == Duplicate(env, core, mask, src, 0).0
    requires j < IndexOf(a) && Conflict(env, core, mask, src, ORDER[j])
    ensures SameAttr(core, core', a)
  {
    var f := FirstConflict(env, core, mask, src, 0);
    DuplicateExact(env, core, mask, src, 0);
    hide Duplicate, FirstConflict, Conflict, Requested, After;
    assert f <= j;
    assert SameAttr(Alone(env, core, mask, src, 0, f, IndexOf(a)), core', ORDER[IndexOf(a)]);
  }

  /** The codes of the attributes asked for before a. */
  function Earlier(a: Attr): set<int> {
    match a
    case L1p => {}
    case Qfpu => {-1008}
    case Xu => {-1008, -2032}
    case Sqrt => {-1008, -2032, -2033}
    case Div => {-1008, -2032, -2033, -2034}
    case Ctx => {-1008, -2032, -2033, -2034, -2035}
  }

  lemma EarlierConflict(env: int -> int, core: Core, mask: set<Bit>, src: Core, a: Attr) returns (j: nat)
    ensures Duplicate(env, core, mask, src, 0).1 in Earlier(a) ==>
            j < IndexOf(a) && Conflict(env, core, mask, src, ORDER[j])
    ensures Duplicate(env, core, mask, src, 0).1 !in Earlier(a) ==>
            forall i | 0 <= i < IndexOf(a) :: !Conflict(env, core, mask, src, ORDER[i])
  {
    hide Duplicate, Conflict;
    DuplicateCodes(env, core, mask, src);
    assert ORDER[0] == L1p && ORDER[1] == Qfpu && ORDER[2] == Xu && ORDER[3] == Sqrt && ORDER[4] == Div;
    if i :| 0 <= i < IndexOf(a) && Conflict(env, core, mask, src, ORDER[i]) {
      j := i;
    } else {
      j := 0;
    }
  }

  /** What becomes of one attribute. */
  lemma DuplicateAttr(env: int -> int, core: Core, mask: set<Bit>, src: Core, a: Attr)
    ensures var (core', rc) := Duplicate(env, core, mask, src, 0);
            if Requested(mask, a) && Has(a) !in core.alloc && !Noop(a, src.vals[a]) && rc !in Earlier(a)
            then Has(a) in core'.alloc && core'.vals[a] == if a == Ctx then [env(src.vals[Ctx][0])] else src.vals[a]
            else SameAttr(core, core', a)
  {
    hide Duplicate, Conflict, Requested, Noop, Earlier, SameAttr, IndexOf;
    var (core', rc) := Duplicate(env, core, mask, src, 0);
    if !Requested(mask, a) || Has(a) in core.alloc || Noop(a, src.vals[a]) {
      DuplicateKeeps(env, core, mask, src, a);
    } else {
      var j := EarlierConflict(env, core, mask, src, a);
      if rc in Earlier(a) {
        DuplicateStops(env, core, mask, src, a, core', j);
      } else {
        DuplicateTakes(env, core, mask, src, a, core');
      }
    }
  }

  /** What becomes of the two bits that name no attribute. */
  lemma DuplicateFlags(env: int -> int, core: Core, mask: set<Bit>, src: Core)
    ensures var (core', rc) := Duplicate(env, core, mask, src, 0);
            && (CtxMixed in core'.alloc <==> CtxMixed in core.alloc || (rc == 0 && CtxMixed in mask))
            && (CtxBoth in core'.alloc <==>
                || CtxBoth in core.alloc
                || (Requested(mask, Ctx) && Has(Ctx) !in core.alloc && !Noop(Ctx, src.vals[Ctx]) && rc !in Earlier(Ctx)
                    && env(src.vals[Ctx][0]) == 3))
  {
    var f := FirstConflict(env, core, mask, src, 0);
    BothAlone(env, core, mask, src, f);
    var j := EarlierConflict(env, core, mask, src, Ctx);
    hide Duplicate, Conflict, FirstConflict, Requested, Noop, Alone, SameAttr, Agrees, Earlier;
    DuplicateExact(env, core, mask, src, 0);
  }

  lemma BothAlone(env: int -> int, core: Core, mask: set<Bit>, src: Core, f: nat)
    ensures CtxBoth in Alone(env, core, mask, src, 0, f, 5).alloc <==>
            || CtxBoth in core.alloc
            || (Requested(mask, Ctx) && Has(Ctx) !in core.alloc && !Noop(Ctx, src.vals[Ctx]) && f >= 5
                && env(src.vals[Ctx][0]) == 3)
  {
    assert ORDER[5] == Ctx;
  }

  /** A second call after a successful one changes nothing. */
  lemma {:induction false} SettledFrom(env: int -> int, core: Core, mask: set<Bit>, src: Core, k: nat)
    requires k <= 6 && (CtxMixed in mask ==> CtxMixed in core.alloc)
    requires forall a: Attr | Requested(mask, a) :: Agrees(core, src, a)
    ensures Duplicate(env, core, mask, src, k) == (core, 0)
    decreases 6 - k
  {
    if k == 6 {
      assert CtxMixed in mask ==> core.alloc + {CtxMixed} == core.alloc;
    } else {
      SettledFrom(env, core, mask, src, k + 1);
    }
  }

  lemma DuplicateTwice(env: int -> int, core: Core, mask: set<Bit>, src: Core)
    requires Duplicate(env, core, mask, src, 0).1 == 0
    ensures var core' := Duplicate(env, core, mask, src, 0).0; Duplicate(env, core', mask, src, 0) == (core', 0)
  {
    DuplicateExact(env, core, mask, src, 0);
    DuplicateReturns(env, core, mask, src);
    SettledFrom(env, Duplicate(env, core, mask, src, 0).0, mask, src, 0);
  }
}
