/** DuplicateReservations in the words and numbers of the source. */
module DuplicationWords {
  import opened CoreRecord
  import opened Masks
  import opened Duplication

  /** The fields of a record that hold attributes. */
  datatype Fields = Fields(
    allocMask: Word, l1pMode: int, evtCtx: int, qfpuMatch: int, qfpuMask: int, qfpuScale: int,
    xuMatch: int, xuMask: int, sqrtScale: int, divScale: int)

  ghost predicate Shows(core: Core, r: Fields) {
    && core.alloc == Bits(r.allocMask)
    && core.vals[L1p] == [r.l1pMode] && core.vals[Ctx] == [r.evtCtx]
    && core.vals[Qfpu] == [r.qfpuMatch, r.qfpuMask, r.qfpuScale] && core.vals[Xu] == [r.xuMatch, r.xuMask]
    && core.vals[Sqrt] == [r.sqrtScale] && core.vals[Div] == [r.divScale]
  }

  /** The call on a record with fields r, from a source with fields q, leaves r' and returns rc. */
  ghost predicate Copying(env: int -> int, core: Core, from: Core, core': Core, rc: int, r: Fields, q: Fields,
                          r': Fields, mask: Word) {
    Shows(core, r) && Shows(from, q) && Shows(core', r') && (core', rc) == Duplicate(env, core, Bits(mask), from, 0)
  }

  lemma CodeInWords(env: int -> int, core: Core, from: Core, core': Core, rc: int, r: Fields, q: Fields,
                    r': Fields, mask: Word)
    requires Copying(env, core, from, core', rc, r, q, r', mask)
    ensures rc ==
            if On(mask, 0x0001) && On(r.allocMask, 0x0001) && 7 <= q.l1pMode <= 9 && r.l1pMode != q.l1pMode
            then -1008
            else if (On(mask, 0x0004) && On(r.allocMask, 0x0004)
                        && !(r.qfpuMatch == q.qfpuMatch && r.qfpuMask == q.qfpuMask && r.qfpuScale == q.qfpuScale))
            then -2032
            else if (On(mask, 0x0008) && On(r.allocMask, 0x0008)
                        && !(r.xuMatch == q.xuMatch && r.xuMask == q.xuMask))
            then -2033
            else if On(mask, 0x0010) && On(r.allocMask, 0x0010) && r.sqrtScale != q.sqrtScale then -2034
            else if On(mask, 0x0020) && On(r.allocMask, 0x0020) && r.divScale != q.divScale then -2035
            else if ((On(mask, 0x0040) || On(mask, 0x0080)) && q.evtCtx > 0
                        && (if On(r.allocMask, 0x0040) then r.evtCtx else env(q.evtCtx)) != q.evtCtx)
            then -2029
            else 0
  {
    hide Bits, Duplicate, Conflict, On;
    BitsOn(mask);
    BitsOn(r.allocMask);
    DuplicateCodes(env, core, Bits(mask), from);
    ConflictIs(env, core, Bits(mask), from, L1p);
    ConflictIs(env, core, Bits(mask), from, Qfpu);
    ConflictIs(env, core, Bits(mask), from, Xu);
    ConflictIs(env, core, Bits(mask), from, Sqrt);
    ConflictIs(env, core, Bits(mask), from, Div);
    ConflictIs(env, core, Bits(mask), from, Ctx);
  }

  lemma L1pInWords(env: int -> int, core: Core, from: Core, core': Core, rc: int, r: Fields, q: Fields,
                   r': Fields, mask: Word)
    requires Copying(env, core, from, core', rc, r, q, r', mask)
    ensures if On(mask, 0x0001) && !On(r.allocMask, 0x0001) && 7 <= q.l1pMode <= 9
            then r'.l1pMode == q.l1pMode && On(r'.allocMask, 0x0001)
            else r'.l1pMode == r.l1pMode && (On(r'.allocMask, 0x0001) <==> On(r.allocMask, 0x0001))
  {
    hide Bits, Duplicate, On;
    BitsOn(mask);
    BitsOn(r.allocMask);
    BitsOn(r'.allocMask);
    DuplicateAttr(env, core, Bits(mask), from, L1p);
  }

  lemma QfpuInWords(env: int -> int, core: Core, from: Core, core': Core, rc: int, r: Fields, q: Fields,
                    r': Fields, mask: Word)
    requires Copying(env, core, from, core', rc, r, q, r', mask)
    ensures if On(mask, 0x0004) && !On(r.allocMask, 0x0004)
               && rc !in {-1008}
            then r'.qfpuMatch == q.qfpuMatch && r'.qfpuMask == q.qfpuMask && r'.qfpuScale == q.qfpuScale
                 && On(r'.allocMask, 0x0004)
            else r'.qfpuMatch == r.qfpuMatch && r'.qfpuMask == r.qfpuMask && r'.qfpuScale == r.qfpuScale
                 && (On(r'.allocMask, 0x0004) <==> On(r.allocMask, 0x0004))
  {
    hide Bits, Duplicate, On;
    BitsOn(mask);
    BitsOn(r.allocMask);
    BitsOn(r'.allocMask);
    DuplicateAttr(env, core, Bits(mask), from, Qfpu);
  }

  lemma XuInWords(env: int -> int, core: Core, from: Core, core': Core, rc: int, r: Fields, q: Fields,
                  r': Fields, mask: Word)
    requires Copying(env, core, from, core', rc, r, q, r', mask)
    ensures if On(mask, 0x0008) && !On(r.allocMask, 0x0008)
               && rc !in {-1008, -2032}
            then r'.xuMatch == q.xuMatch && r'.xuMask == q.xuMask && On(r'.allocMask, 0x0008)
            else r'.xuMatch == r.xuMatch && r'.xuMask == r.xuMask
                 && (On(r'.allocMask, 0x0008) <==> On(r.allocMask, 0x0008))
  {
    hide Bits, Duplicate, On;
    BitsOn(mask);
    BitsOn(r.allocMask);
    BitsOn(r'.allocMask);
    DuplicateAttr(env, core, Bits(mask), from, Xu);
  }

  lemma SqrtInWords(env: int -> int, core: Core, from: Core, core': Core, rc: int, r: Fields, q: Fields,
                    r': Fields, mask: Word)
    requires Copying(env, core, from, core', rc, r, q, r', mask)
    ensures if On(mask, 0x0010) && !On(r.allocMask, 0x0010)
               && rc !in {-1008, -2032, -2033}
            then r'.sqrtScale == q.sqrtScale && On(r'.allocMask, 0x0010)
            else r'.sqrtScale == r.sqrtScale && (On(r'.allocMask, 0x0010) <==> On(r.allocMask, 0x0010))
  {
    hide Bits, Duplicate, On;
    BitsOn(mask);
    BitsOn(r.allocMask);
    BitsOn(r'.allocMask);
    DuplicateAttr(env, core, Bits(mask), from, Sqrt);
  }

  lemma DivInWords(env: int -> int, core: Core, from: Core, core': Core, rc: int, r: Fields, q: Fields,
                   r': Fields, mask: Word)
    requires Copying(env, core, from, core', rc, r, q, r', mask)
    ensures if On(mask, 0x0020) && !On(r.allocMask, 0x0020)
               && rc !in {-1008, -2032, -2033, -2034}
            then r'.divScale == q.divScale && On(r'.allocMask, 0x0020)
            else r'.divScale == r.divScale && (On(r'.allocMask, 0x0020) <==> On(r.allocMask, 0x0020))
  {
    hide Bits, Duplicate, On;
    BitsOn(mask);
    BitsOn(r.allocMask);
    BitsOn(r'.allocMask);
    DuplicateAttr(env, core, Bits(mask), from, Div);
  }

  lemma CtxInWords(env: int -> int, core: Core, from: Core, core': Core, rc: int, r: Fields, q: Fields,
                   r': Fields, mask: Word)
    requires Copying(env, core, from, core', rc, r, q, r', mask)
    ensures if ((On(mask, 0x0040) || On(mask, 0x0080)) && !On(r.allocMask, 0x0040) && q.evtCtx > 0)
               && rc !in {-1008, -2032, -2033, -2034, -2035}
            then r'.evtCtx == env(q.evtCtx) && On(r'.allocMask, 0x0040)
            else r'.evtCtx == r.evtCtx && (On(r'.allocMask, 0x0040) <==> On(r.allocMask, 0x0040))
  {
    hide Bits, Duplicate, On;
    BitsOn(mask);
    BitsOn(r.allocMask);
    BitsOn(r'.allocMask);
    DuplicateAttr(env, core, Bits(mask), from, Ctx);
  }

  lemma FlagsInWords(env: int -> int, core: Core, from: Core, core': Core, rc: int, r: Fields, q: Fields,
                     r': Fields, mask: Word)
    requires Copying(env, core, from, core', rc, r, q, r', mask)
    ensures On(r'.allocMask, 0x0080) <==>
              || On(r.allocMask, 0x0080)
              || (((On(mask, 0x0040) || On(mask, 0x0080)) && !On(r.allocMask, 0x0040) && q.evtCtx > 0)
                  && rc !in {-1008, -2032, -2033, -2034, -2035} && env(q.evtCtx) == 3)
    ensures On(r'.allocMask, 0x0100) <==> On(r.allocMask, 0x0100) || (rc == 0 && On(mask, 0x0100))
  {
    hide Bits, Duplicate, On;
    BitsOn(mask);
    BitsOn(r.allocMask);
    BitsOn(r'.allocMask);
    DuplicateFlags(env, core, Bits(mask), from);
  }

  /** Attributes whose number is not in the mask keep their fields. */
  lemma UnaskedKept(env: int -> int, core: Core, from: Core, core': Core, rc: int, r: Fields, q: Fields,
                    r': Fields, mask: Word)
    requires Copying(env, core, from, core', rc, r, q, r', mask)
    ensures !On(mask, 0x0001) ==> r'.l1pMode == r.l1pMode
    ensures !On(mask, 0x0004) ==>
            r'.qfpuMatch == r.qfpuMatch && r'.qfpuMask == r.qfpuMask && r'.qfpuScale == r.qfpuScale
    ensures !On(mask, 0x0008) ==> r'.xuMatch == r.xuMatch && r'.xuMask == r.xuMask
    ensures !On(mask, 0x0010) ==> r'.sqrtScale == r.sqrtScale
    ensures !On(mask, 0x0020) ==> r'.divScale == r.divScale
    ensures !On(mask, 0x0040) && !On(mask, 0x0080) ==> r'.evtCtx == r.evtCtx
  {
    hide *;
    L1pInWords(env, core, from, core', rc, r, q, r', mask);
    QfpuInWords(env, core, from, core', rc, r, q, r', mask);
    XuInWords(env, core, from, core', rc, r, q, r', mask);
    SqrtInWords(env, core, from, core', rc, r, q, r', mask);
    DivInWords(env, core, from, core', rc, r, q, r', mask);
    CtxInWords(env, core, from, core', rc, r, q, r', mask);
  }
}
