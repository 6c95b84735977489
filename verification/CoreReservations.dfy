/** The record as the source keeps it, updated in place, one method per call, on machine words. Each method is the
    indivisible call of CoreRecord on the record's value; the lock is not modelled here. */
module CoreReservationsModel {
  import opened CoreRecord
  import opened Masks
  import opened Duplication
  import opened DuplicationWords

  class CoreReservations {
    const env: int -> int          // what the environment makes of a requested context
    var refCount: int
    const ctrGrpRefCount: array<int>
    const ctrGrpMask: array<bv8>
    var puAttachedMask: bv8
    var allocMask: Word
    var l1pMode: int
    var evtCtx: int
    var qfpuMatch: int
    var qfpuMask: int
    var qfpuScale: int
    var xuMatch: int
    var xuMask: int
    var sqrtScale: int
    var divScale: int

    ghost predicate Valid() {
      ctrGrpRefCount.Length == 4 && ctrGrpMask.Length == 4 && ctrGrpRefCount as object != ctrGrpMask as object
    }

    ghost function ValueOf(a: Attr): (v: seq<int>)
      reads this
      ensures |v| == Width(a)
    {
      match a
      case L1p => [l1pMode]
      case Qfpu => [qfpuMatch, qfpuMask, qfpuScale]
      case Xu => [xuMatch, xuMask]
      case Sqrt => [sqrtScale]
      case Div => [divScale]
      case Ctx => [evtCtx]
    }

    /** The value of the record. */
    ghost function Value(): (c: Core)
      requires Valid()
      reads this, ctrGrpRefCount, ctrGrpMask
    {
      RawCore.Core(refCount, ctrGrpRefCount[..],
        GroupsOf(ctrGrpMask[..]), Groups(puAttachedMask), Bits(allocMask), map a: Attr | true :: ValueOf(a))
    }

    ghost function AttrFields(): Fields
      reads this
    {
      Fields(allocMask, l1pMode, evtCtx, qfpuMatch, qfpuMask, qfpuScale, xuMatch, xuMask, sqrtScale, divScale)
    }

    lemma FieldsShown()
      requires Valid()
      ensures Shows(Value(), AttrFields())
    {
    }

    /** Shared memory is cleared before first use. */
    constructor (env: int -> int)
      ensures Valid() && fresh(ctrGrpRefCount) && fresh(ctrGrpMask) && this.env == env
      ensures refCount == 0 && allocMask == 0 && puAttachedMask == 0
      ensures forall u: Thread :: ctrGrpRefCount[u] == 0 && ctrGrpMask[u] == 0
      ensures Value() == Zero()
    {
      this.env := env;
      refCount, puAttachedMask, allocMask := 0, 0, 0;
      l1pMode, evtCtx, sqrtScale, divScale := 0, 0, 0, 0;
      qfpuMatch, qfpuMask, qfpuScale, xuMatch, xuMask := 0, 0, 0, 0, 0;
      ctrGrpRefCount := new int[] [0, 0, 0, 0];
      ctrGrpMask := new bv8[] [0, 0, 0, 0];
      new;
      GroupsEmpty(0);
      NoBits();
      assert GroupsOf(ctrGrpMask[..]) == NO_GROUPS;
      assert ctrGrpRefCount[..] == [0, 0, 0, 0];
      assert forall a: Attr :: ValueOf(a) == Cleared(a);
    }

    method IncrRef()
      requires Valid() && Allowed(Value(), 0, RawCall.IncrRef)
      modifies this`refCount
      ensures refCount == old(refCount) + 1
      ensures Value() == After(env, old(Value()), 0, RawCall.IncrRef)
    {
      refCount := refCount + 1;
    }

    method DecrRef(hwThd: Thread)
      requires Valid() && Allowed(Value(), hwThd, RawCall.DecrRef)
      modifies this`refCount, this`allocMask, ctrGrpMask
      ensures refCount == old(refCount) - 1
      ensures allocMask == if refCount == 0 then 0 else old(allocMask)
      ensures forall u: Thread :: ctrGrpMask[u] == if refCount == 0 then 0 else old(ctrGrpMask[u])
      ensures Value() == After(env, old(Value()), hwThd, RawCall.DecrRef)
    {
      refCount := refCount - 1;
      if refCount == 0 {
        allocMask := 0;
        NoBits();
        for i := 0 to 4
          invariant refCount == 0 && allocMask == 0 && puAttachedMask == old(puAttachedMask)
          invariant forall a: Attr :: ValueOf(a) == old(ValueOf(a))
          invariant forall j | 0 <= j < i :: ctrGrpMask[j] == 0
        {
          ctrGrpMask[i] := 0;
        }
        GroupsEmpty(0);
        assert Value().mask == NO_GROUPS;
      }
      assert Value().vals == old(Value().vals);
    }

    /** curHwThd may be 4, which makes every thread an "other". */
    method CtrGrpInUseByOthers(grp: Thread, curHwThd: nat) returns (used: bool)
      requires Valid()
      ensures used <==> exists u: Thread :: u != curHwThd && InMask(ctrGrpMask[u], grp)
      ensures used <==> exists u: Thread :: u != curHwThd && grp in Value().mask[u]
    {
      var grpMask := MaskBit(grp);
      var mask: bv8 := 0;
      for other := 0 to 4
        invariant mask == 0 || mask == grpMask
        invariant mask != 0 <==> exists u: Thread :: u < other && u != curHwThd && InMask(ctrGrpMask[u], grp)
      {
        if other != curHwThd {
          MaskBitSingle(grp);
          OneBit(ctrGrpMask[other], mask, grpMask);
          mask := mask | (ctrGrpMask[other] & grpMask);
        }
      }
      used := mask != 0;
      assert forall u: Thread :: Value().mask[u] == Groups(ctrGrpMask[u]);
      if used {
        var u: Thread :| u != curHwThd && InMask(ctrGrpMask[u], grp);
        assert grp in Value().mask[u];
      }
    }

    method RsvCtrGrp(grp: Thread, hwThd: Thread, newEvtSet: bool) returns (ok: bool)
      requires Valid() && Allowed(Value(), hwThd, RsvGrp(grp, newEvtSet))
      modifies ctrGrpMask, ctrGrpRefCount
      ensures ok <==> forall u: Thread | u != hwThd :: !InMask(old(ctrGrpMask[u]), grp)
      ensures ctrGrpMask[hwThd] == if ok then old(ctrGrpMask[hwThd]) | MaskBit(grp) else old(ctrGrpMask[hwThd])
      ensures ctrGrpRefCount[hwThd] == old(ctrGrpRefCount[hwThd]) + if ok && newEvtSet then 1 else 0
      ensures forall u: Thread | u != hwThd ::
                ctrGrpMask[u] == old(ctrGrpMask[u]) && ctrGrpRefCount[u] == old(ctrGrpRefCount[u])
      ensures ok == Result(env, old(Value()), hwThd, RsvGrp(grp, newEvtSet))
      ensures Value() == After(env, old(Value()), hwThd, RsvGrp(grp, newEvtSet))
    {
      hide MaskBit, Groups, InMask;
      var inUse := CtrGrpInUseByOthers(grp, hwThd);
      if inUse { return false; }
      inUse := CtrGrpInUseByOthers(grp, hwThd);
      if inUse { return false; }
      TakeCtrGrp(grp, hwThd, newEvtSet);
      return true;
    }

    /** The update under the lock. */
    method TakeCtrGrp(grp: Thread, hwThd: Thread, newEvtSet: bool)
      requires Valid()
      modifies ctrGrpMask, ctrGrpRefCount
      ensures ctrGrpMask[hwThd] == old(ctrGrpMask[hwThd]) | MaskBit(grp)
      ensures ctrGrpRefCount[hwThd] == old(ctrGrpRefCount[hwThd]) + if newEvtSet then 1 else 0
      ensures forall u: Thread | u != hwThd ::
                ctrGrpMask[u] == old(ctrGrpMask[u]) && ctrGrpRefCount[u] == old(ctrGrpRefCount[u])
      ensures Value() == old(Value()).(
                mask := old(Value().mask)[hwThd := old(Value().mask)[hwThd] + {grp}],
                cnt := old(Value().cnt)[hwThd := ctrGrpRefCount[hwThd]])
    {
      hide MaskBit, Groups, InMask;
      ctrGrpMask[hwThd] := WithGroup(ctrGrpMask[hwThd], grp);
      if newEvtSet {
        ctrGrpRefCount[hwThd] := ctrGrpRefCount[hwThd] + 1;
      }
      assert Value().mask == old(Value().mask)[hwThd := old(Value().mask)[hwThd] + {grp}];
      assert Value().cnt == old(Value().cnt)[hwThd := ctrGrpRefCount[hwThd]];
    }

    method RlsCtrGrp(hwThd: Thread)
      requires Valid() && Allowed(Value(), hwThd, RlsGrp)
      modifies ctrGrpMask, ctrGrpRefCount
      ensures ctrGrpRefCount[hwThd] == old(ctrGrpRefCount[hwThd]) - 1
      ensures ctrGrpMask[hwThd] == if ctrGrpRefCount[hwThd] == 0 then 0 else old(ctrGrpMask[hwThd])
      ensures forall u: Thread | u != hwThd ::
                ctrGrpMask[u] == old(ctrGrpMask[u]) && ctrGrpRefCount[u] == old(ctrGrpRefCount[u])
      ensures Value() == After(env, old(Value()), hwThd, RlsGrp)
    {
      if ctrGrpRefCount[hwThd] > 0 {
        ctrGrpRefCount[hwThd] := ctrGrpRefCount[hwThd] - 1;
        if ctrGrpRefCount[hwThd] == 0 {
          ctrGrpMask[hwThd] := 0;
          GroupsEmpty(0);
          assert Value().mask == old(Value().mask)[hwThd := {}];
        }
        assert Value().cnt == old(Value().cnt)[hwThd := old(Value().cnt)[hwThd] - 1];
      }
    }

    method RsvAttachedCtrGrp(attachMask: bv8) returns (ok: bool)
      requires Valid()
      modifies this`puAttachedMask
      ensures ok <==> old(puAttachedMask) & attachMask == 0
      ensures puAttachedMask == if ok then old(puAttachedMask) | attachMask else old(puAttachedMask)
      ensures ok == Result(env, old(Value()), 0, RsvAtt(Groups(attachMask)))
      ensures Value() == After(env, old(Value()), 0, RsvAtt(Groups(attachMask)))
    {
      ok := false;
      GroupsAnd(puAttachedMask, attachMask);
      GroupsEmpty(puAttachedMask & attachMask);
      GroupsOr(puAttachedMask, attachMask);
      if puAttachedMask & attachMask == 0 {
        puAttachedMask := puAttachedMask | attachMask;
        ok := true;
      }
      assert Value().vals == old(Value().vals);
    }

    method RlsAttachedCtrGrp(attachMask: bv8)
      requires Valid() && Allowed(Value(), 0, RlsAtt(Groups(attachMask)))
      modifies this`puAttachedMask
      ensures puAttachedMask == old(puAttachedMask) & !attachMask
      ensures Value() == After(env, old(Value()), 0, RlsAtt(Groups(attachMask)))
    {
      GroupsAnd(puAttachedMask, attachMask);
      puAttachedMask := puAttachedMask & !attachMask;
      assert Value().vals == old(Value().vals);
    }

    method SetMixedContext()
      requires Valid()
      modifies this`allocMask
      ensures allocMask == old(allocMask) | 0x0100
      ensures Value() == After(env, old(Value()), 0, SetMixed)
    {
      allocMask := WithBit(allocMask, CtxMixed);
      assert Value().vals == old(Value().vals);
    }

    method RsvL1pMode(chkL1pMode: int) returns (ok: bool)
      requires Valid()
      modifies this`allocMask, this`l1pMode
      ensures !(7 <= chkL1pMode <= 9) ==> unchanged(this) && ok
      ensures 7 <= chkL1pMode <= 9 && !On(old(allocMask), 0x0001) ==>
                ok && l1pMode == chkL1pMode && allocMask == old(allocMask) | 0x0001
      ensures 7 <= chkL1pMode <= 9 && On(old(allocMask), 0x0001) ==>
                unchanged(this) && (ok <==> l1pMode == chkL1pMode)
      ensures ok == Result(env, old(Value()), 0, RsvAttr(L1p, [chkL1pMode]))
      ensures Value() == After(env, old(Value()), 0, RsvAttr(L1p, [chkL1pMode]))
    {
      hide Bits, TestBit, On;
      BitsOn(allocMask);
      ok := true;
      if L1P_SWITCH <= chkL1pMode <= L1P_LIST {
        if !TestBit(allocMask, Has(L1p)) {
          allocMask := WithBit(allocMask, Has(L1p));
          l1pMode := chkL1pMode;
        }
        ok := chkL1pMode == l1pMode;
      }
      assert Value().vals == old(Value().vals)[L1p := ValueOf(L1p)];
    }

    /** The bits of a context just fixed. */
    method NoteContext()
      modifies this`allocMask
      ensures allocMask == ContextWord(old(allocMask), evtCtx)
    {
      hide Bits, WithBit;
      allocMask := WithBit(allocMask, Has(Ctx));
      if evtCtx == CTX_BOTH {
        allocMask := WithBit(allocMask, CtxBoth);
      }
    }

    /** Fixes the context. */
    method TakeContext(reqCtx: int)
      requires Valid()
      modifies this`allocMask, this`evtCtx
      ensures evtCtx == env(reqCtx) && allocMask == ContextWord(old(allocMask), evtCtx)
      ensures Value() == TakeAttr(old(Value()), Ctx, [evtCtx])
    {
      hide Bits, ContextWord, Groups;
      ContextBits(allocMask, env(reqCtx));
      evtCtx := env(reqCtx);
      NoteContext();
      assert Value().vals == old(Value().vals)[Ctx := ValueOf(Ctx)];
    }

    method RsvContext(reqCtx: int) returns (ok: bool)
      requires Valid()
      modifies this`allocMask, this`evtCtx
      ensures reqCtx <= 0 ==> unchanged(this) && ok
      ensures reqCtx > 0 && !On(old(allocMask), 0x0040) ==>
                evtCtx == env(reqCtx) && allocMask == ContextWord(old(allocMask), evtCtx)
      ensures reqCtx > 0 && On(old(allocMask), 0x0040) ==> unchanged(this)
      ensures reqCtx > 0 ==> (ok <==> evtCtx == reqCtx)
      ensures ok == Result(env, old(Value()), 0, RsvAttr(Ctx, [reqCtx]))
      ensures Value() == After(env, old(Value()), 0, RsvAttr(Ctx, [reqCtx]))
    {
      ok := true;
      BitsOn(allocMask);
      hide Bits, TestBit, ContextWord;
      if reqCtx > CTX_DEFAULT {
        if !TestBit(allocMask, Has(Ctx)) {
          TakeContext(reqCtx);
        }
        assert Has(Ctx) in Value().alloc;
        if TestBit(allocMask, Has(Ctx)) {
          ok := evtCtx == reqCtx;
        }
      }
    }

    method RsvQfpuMatch(reqMatch: int, reqMask: int, reqScale: int) returns (ok: bool)
      requires Valid()
      modifies this`allocMask, this`qfpuMatch, this`qfpuMask, this`qfpuScale
      ensures !On(old(allocMask), 0x0004) ==>
                && ok && qfpuMatch == reqMatch && qfpuMask == reqMask && qfpuScale == reqScale
                && allocMask == old(allocMask) | 0x0004
      ensures On(old(allocMask), 0x0004) ==>
                unchanged(this) && (ok <==> qfpuMatch == reqMatch && qfpuMask == reqMask && qfpuScale == reqScale)
      ensures ok == Result(env, old(Value()), 0, RsvAttr(Qfpu, [reqMatch, reqMask, reqScale]))
      ensures Value() == After(env, old(Value()), 0, RsvAttr(Qfpu, [reqMatch, reqMask, reqScale]))
    {
      hide Bits, TestBit, On;
      BitsOn(allocMask);
      if !TestBit(allocMask, Has(Qfpu)) {
        qfpuMatch := reqMatch;
        qfpuMask := reqMask;
        qfpuScale := reqScale;
        allocMask := WithBit(allocMask, Has(Qfpu));
      }
      ok := reqMatch == qfpuMatch && reqMask == qfpuMask && reqScale == qfpuScale;
      assert Value().vals == old(Value().vals)[Qfpu := ValueOf(Qfpu)];
    }

    method RsvXuMatch(reqMatch: int, reqMask: int) returns (ok: bool)
      requires Valid()
      modifies this`allocMask, this`xuMatch, this`xuMask
      ensures !On(old(allocMask), 0x0008) ==>
                ok && xuMatch == reqMatch && xuMask == reqMask && allocMask == old(allocMask) | 0x0008
      ensures On(old(allocMask), 0x0008) ==>
                unchanged(this) && (ok <==> xuMatch == reqMatch && xuMask == reqMask)
      ensures ok == Result(env, old(Value()), 0, RsvAttr(Xu, [reqMatch, reqMask]))
      ensures Value() == After(env, old(Value()), 0, RsvAttr(Xu, [reqMatch, reqMask]))
    {
      hide Bits, TestBit, On;
      BitsOn(allocMask);
      if !TestBit(allocMask, Has(Xu)) {
        xuMatch := reqMatch;
        xuMask := reqMask;
        allocMask := WithBit(allocMask, Has(Xu));
      }
      ok := reqMatch == xuMatch && reqMask == xuMask;
      assert Value().vals == old(Value().vals)[Xu := ValueOf(Xu)];
    }

    method RsvSqrtScale(reqScale: int) returns (ok: bool)
      requires Valid()
      modifies this`allocMask, this`sqrtScale
      ensures !On(old(allocMask), 0x0010) ==>
                ok && sqrtScale == reqScale && allocMask == old(allocMask) | 0x0010
      ensures On(old(allocMask), 0x0010) ==>
                unchanged(this) && (ok <==> sqrtScale == reqScale)
      ensures ok == Result(env, old(Value()), 0, RsvAttr(Sqrt, [reqScale]))
      ensures Value() == After(env, old(Value()), 0, RsvAttr(Sqrt, [reqScale]))
    {
      hide Bits, TestBit, On;
      BitsOn(allocMask);
      if !TestBit(allocMask, Has(Sqrt)) {
        sqrtScale := reqScale;
        allocMask := WithBit(allocMask, Has(Sqrt));
      }
      ok := reqScale == sqrtScale;
      assert Value().vals == old(Value().vals)[Sqrt := ValueOf(Sqrt)];
    }

    method RsvDivScale(reqScale: int) returns (ok: bool)
      requires Valid()
      modifies this`allocMask, this`divScale
      ensures !On(old(allocMask), 0x0020) ==>
                ok && divScale == reqScale && allocMask == old(allocMask) | 0x0020
      ensures On(old(allocMask), 0x0020) ==>
                unchanged(this) && (ok <==> divScale == reqScale)
      ensures ok == Result(env, old(Value()), 0, RsvAttr(Div, [reqScale]))
      ensures Value() == After(env, old(Value()), 0, RsvAttr(Div, [reqScale]))
    {
      hide Bits, TestBit, On;
      BitsOn(allocMask);
      if !TestBit(allocMask, Has(Div)) {
        divScale := reqScale;
        allocMask := WithBit(allocMask, Has(Div));
      }
      ok := reqScale == divScale;
      assert Value().vals == old(Value().vals)[Div := ValueOf(Div)];
    }

    /** Before the turn of attribute number k in DuplicateReservations: all earlier ones granted, and the source, which
        may be this record itself, still has the values it had for the rest. */
    ghost predicate Turning(mask: Word, src: CoreReservations, core: Core, from: Core, k: nat)
      requires k <= 6
      reads this, ctrGrpRefCount, ctrGrpMask, src
    {
      && Valid() && Going(env, core, Bits(mask), from, k, Value())
      && forall j | k <= j < 6 :: src.ValueOf(ORDER[j]) == from.vals[ORDER[j]]
    }

    /** Asks for attribute number k. */
    method Ask(k: nat, src: CoreReservations, ghost from: Core) returns (ok: bool)
      requires Valid() && k < 6 && src.ValueOf(ORDER[k]) == from.vals[ORDER[k]]
      modifies this`allocMask, this`l1pMode, this`evtCtx, this`qfpuMatch, this`qfpuMask, this`qfpuScale,
               this`xuMatch, this`xuMask, this`sqrtScale, this`divScale
      ensures Value() == After(env, old(Value()), 0, CopyOf(from, ORDER[k]))
      ensures ok == Result(env, old(Value()), 0, CopyOf(from, ORDER[k]))
    {
      hide After, Result;
      match ORDER[k]
      case L1p => ok := RsvL1pMode(src.l1pMode);
      case Qfpu => ok := RsvQfpuMatch(src.qfpuMatch, src.qfpuMask, src.qfpuScale);
      case Xu => ok := RsvXuMatch(src.xuMatch, src.xuMask);
      case Sqrt => ok := RsvSqrtScale(src.sqrtScale);
      case Div => ok := RsvDivScale(src.divScale);
      case Ctx => ok := RsvContext(src.evtCtx);
    }

    /** The turn of attribute number k. */
    method Take(k: nat, mask: Word, src: CoreReservations, ghost core: Core, ghost from: Core) returns (ok: bool)
      requires k < 6 && Turning(mask, src, core, from, k)
      modifies this`allocMask, this`l1pMode, this`evtCtx, this`qfpuMatch, this`qfpuMask, this`qfpuScale,
               this`xuMatch, this`xuMask, this`sqrtScale, this`divScale
      ensures ok ==> Turning(mask, src, core, from, k + 1)
      ensures !ok ==> Duplicate(env, core, Bits(mask), from, 0) == (Value(), Code(ORDER[k]))
    {
      ok := true;
      if TestBit(mask, Has(ORDER[k])) || (ORDER[k] == Ctx && TestBit(mask, CtxBoth)) {
        ok := Ask(k, src, from);
      }
      hide After, Result;
      assert Turn(env, old(Value()), Bits(mask), from, k, Value(), ok);
      forall j | k + 1 <= j < 6
        ensures src.ValueOf(ORDER[j]) == from.vals[ORDER[j]]
      {
        CopyLeavesOthers(env, old(Value()), from, k, j);
        assert Value().vals[ORDER[j]] == ValueOf(ORDER[j]) && old(Value()).vals[ORDER[j]] == old(ValueOf(ORDER[j]));
      }
      if !ok { Refused(env, core, Bits(mask), from, k, old(Value()), Value()); }
    }

    /** Three turns in a row. */
    method TakeThree(k: nat, mask: Word, src: CoreReservations, ghost core: Core, ghost from: Core) returns (rc: int)
      requires k <= 3 && Turning(mask, src, core, from, k)
      modifies this`allocMask, this`l1pMode, this`evtCtx, this`qfpuMatch, this`qfpuMask, this`qfpuScale,
               this`xuMatch, this`xuMask, this`sqrtScale, this`divScale
      ensures rc == 0 ==> Turning(mask, src, core, from, k + 3)
      ensures rc != 0 ==> Duplicate(env, core, Bits(mask), from, 0) == (Value(), rc)
    {
      hide Turning, Duplicate, Bits;
      var ok := Take(k, mask, src, core, from);
      if !ok { return Code(ORDER[k]); }
      ok := Take(k + 1, mask, src, core, from);
      if !ok { return Code(ORDER[k + 1]); }
      ok := Take(k + 2, mask, src, core, from);
      if !ok { return Code(ORDER[k + 2]); }
      return 0;
    }

    /** The attributes of a record, those in `mask`, are asked for here one by one. */
    method DuplicateReservations(mask: Word, src: CoreReservations) returns (rc: int)
      requires Valid() && src.Valid()
      modifies this`allocMask, this`l1pMode, this`evtCtx, this`qfpuMatch, this`qfpuMask, this`qfpuScale,
               this`xuMatch, this`xuMask, this`sqrtScale, this`divScale
      ensures (Value(), rc) == Duplicate(env, old(Value()), Bits(mask), old(src.Value()), 0)
      ensures Copying(env, old(Value()), old(src.Value()), Value(), rc, old(AttrFields()), old(src.AttrFields()),
                      AttrFields(), mask)
      ensures var (r, q) := (old(AttrFields()), old(src.AttrFields()));
              rc ==
              if On(mask, 0x0001) && On(r.allocMask, 0x0001) && 7 <= q.l1pMode <= 9 && r.l1pMode != q.l1pMode
              then -1008
              else if (On(mask, 0x0004) && On(r.allocMask, 0x0004)
                          && !(r.qfpuMatch == q.qfpuMatch && r.qfpuMask == q.qfpuMask && r.qfpuScale == q.qfpuScale))
              then -2032
              else if (On(mask, 0x0008) && On(r.allocMask, 0x0008)
                          && !(r.xuMatch == q.xuMatch && r.xuMask == q.xuMask))
              then -2033
              else if On(mask, 0x0010) && On(r.allocMask, 0x0010) && r.sqrtScale != q.sqrtScale then -2034
              else if On(mask, 0x0020) && On(r.allocMask, 0x0020) && r.divScale != q.divScale then -2035
              else if ((On(mask, 0x0040) || On(mask, 0x0080)) && q.evtCtx > 0
                          && (if On(r.allocMask, 0x0040) then r.evtCtx else env(q.evtCtx)) != q.evtCtx)
              then -2029
              else 0
      ensures !On(mask, 0x0001) ==> l1pMode == old(l1pMode)
      ensures !On(mask, 0x0004) ==>
                qfpuMatch == old(qfpuMatch) && qfpuMask == old(qfpuMask) && qfpuScale == old(qfpuScale)
      ensures !On(mask, 0x0008) ==> xuMatch == old(xuMatch) && xuMask == old(xuMask)
      ensures !On(mask, 0x0010) ==> sqrtScale == old(sqrtScale)
      ensures !On(mask, 0x0020) ==> divScale == old(divScale)
      ensures !On(mask, 0x0040) && !On(mask, 0x0080) ==> evtCtx == old(evtCtx)
    {
      ghost var core, from, r, q := Value(), src.Value(), AttrFields(), src.AttrFields();
      FieldsShown();
      src.FieldsShown();
      rc := DuplicateAll(mask, src);
      FieldsShown();
      assert Copying(env, core, from, Value(), rc, r, q, AttrFields(), mask);
      hide Copying, Duplicate, Value, Bits, On, Shows;
      CodeInWords(env, core, from, Value(), rc, r, q, AttrFields(), mask);
      UnaskedKept(env, core, from, Value(), rc, r, q, AttrFields(), mask);
    }

    method DuplicateAll(mask: Word, src: CoreReservations) returns (rc: int)
      requires Valid() && src.Valid()
      modifies this`allocMask, this`l1pMode, this`evtCtx, this`qfpuMatch, this`qfpuMask, this`qfpuScale,
               this`xuMatch, this`xuMask, this`sqrtScale, this`divScale
      ensures (Value(), rc) == Duplicate(env, old(Value()), Bits(mask), old(src.Value()), 0)
    {
      ghost var core, from := Value(), src.Value();
      assert Turning(mask, src, core, from, 0);
      hide Turning, Duplicate, Bits;
      rc := TakeThree(0, mask, src, core, from);
      if rc != 0 { return; }
      rc := TakeThree(3, mask, src, core, from);
      if rc != 0 { return; }
      MixedLast(mask, src, core, from);
    }

    method MixedLast(mask: Word, src: CoreReservations, ghost core: Core, ghost from: Core)
      requires Turning(mask, src, core, from, 6)
      modifies this`allocMask, this`l1pMode, this`evtCtx, this`qfpuMatch, this`qfpuMask, this`qfpuScale,
               this`xuMatch, this`xuMask, this`sqrtScale, this`divScale
      ensures Duplicate(env, core, Bits(mask), from, 0) == (Value(), 0)
    {
      Finished(env, core, Bits(mask), from, Value());
      if TestBit(mask, CtxMixed) {
        SetMixedContext();
      }
    }
  }

  lemma OneBit(m: bv8, acc: bv8, b: bv8)
    requires Single(b) && (acc == 0 || acc == b)
    ensures acc | (m & b) == if acc != 0 || m & b != 0 then b else 0
  {
  }
}
