/** What every step of the protocol keeps. */
module Invariants {
  import opened CoreRecord
  import opened Protocol

  /** Program points inside the critical section. */
  predicate Crit(pc: Pc) {
    match pc
    case Idle | Entry | Check | Acq | CtxTest | Cmp(_) | Ret(_) => false
    case Scan(locked, _, _) => locked
    case _ => true
  }

  /** The record between indivisible calls: groups have one owner, a thread has groups iff it has event
      sets, and the "both contexts" bit says exactly that the reserved context is BOTH. */
  ghost predicate AbsInv(abs: Core) {
    && (forall u: Thread, v: Thread | u != v :: abs.mask[u] !! abs.mask[v])
    && (forall u: Thread :: forall g | g in abs.mask[u] :: g < 4)
    && (forall u: Thread :: abs.cnt[u] >= 0 && (abs.cnt[u] == 0 <==> abs.mask[u] == {}))
    && (CtxBoth in abs.alloc <==> Has(Ctx) in abs.alloc && abs.vals[Ctx] == [CTX_BOTH])
  }

  /** What a client's holdings say about the record. */
  ghost predicate Backed(abs: Core, cl: Client) {
    && abs.refs >= 0
    && (cl.ref ==> abs.refs >= 1)
    && (cl.es ==> cl.ref && abs.cnt[cl.t] >= 1)
    && (cl.att.Some? ==> cl.ref && cl.att.value <= abs.att)
    && (cl.ref && !cl.es && abs.refs == 1 ==> forall u: Thread :: abs.cnt[u] == 0)
  }

  /** The one call whose answer can be read before its value is stored. */
  predicate Exempt(cfg: Config, call: Call) {
    call.RsvAttr? && FlagFirst(cfg, call.attr) && !Noop(call.attr, call.req)
  }

  /** An attribute call that has taken effect: the attribute is fixed and the recorded answer compares with it. */
  ghost predicate AttrDone(abs: Core, cl: Client) {
    && cl.call.RsvAttr? && !Noop(cl.call.attr, cl.call.req) && cl.ref && cl.lin.Some?
    && Has(cl.call.attr) in abs.alloc
    && (cl.lin.value <==> abs.vals[cl.call.attr] == cl.call.req)
  }

  /** What holds at each program point, stated of the record as if calls were indivisible. */
  ghost predicate PcOk(cfg: Config, abs: Core, cl: Client) {
    && (cl.lin.None? && !cl.pc.Idle? ==> Permits(cl, cl.call))
    && if cl.pc.Idle? then true
       else if cl.pc.Acq? then cl.lin.None? && (cl.call.RsvAttr? ==> !Noop(cl.call.attr, cl.call.req))
       else if cl.pc.Unlock? then
         cl.lin.Some? && (if cl.call.RsvAttr? then AttrDone(abs, cl) else cl.pc.res == cl.lin.value)
       else if cl.pc.Ret? then cl.lin.Some? && (cl.pc.res == cl.lin.value || Exempt(cfg, cl.call))
       else InnerOk(cfg, abs, cl)
  }

  ghost predicate InnerOk(cfg: Config, abs: Core, cl: Client) {
    match cl.call
    case IncrRef => cl.lin.None? && (cl.pc.Locked? || cl.pc.RefRead? || cl.pc.RefWrite?)
    case DecrRef => DecrOk(abs, cl)
    case RsvGrp(g, isNew) => RsvGrpOk(abs, cl, g, isNew)
    case RlsGrp => RlsGrpOk(cl)
    case RsvAtt(m) =>
      cl.lin.None? && (cl.pc.Entry? || cl.pc.Locked? || ((cl.pc.AttRead? || cl.pc.AttWrite?) && abs.att * m == {}))
    case RlsAtt(_) => cl.lin.None? && (cl.pc.Locked? || cl.pc.AttRead? || cl.pc.AttWrite?)
    case SetMixed => cl.lin.None? && (cl.pc.BitsRead? || cl.pc.BitsWrite?) && cl.pc.bit == CtxMixed
    case RsvAttr(a, req) => AttrOk(cfg, abs, cl, a, req)
  }

  ghost predicate DecrOk(abs: Core, cl: Client) {
    match cl.pc
    case Locked | RefRead | RefWrite(_) | Clear => cl.lin.None?
    case ZeroCheck(i) => cl.lin == Some(true) && i <= 4 && abs.mask == NO_GROUPS
    case ZeroMask(i) => cl.lin == Some(true) && i < 4 && abs.mask == NO_GROUPS
    case _ => false
  }

  ghost predicate RsvGrpOk(abs: Core, cl: Client, g: Thread, isNew: bool) {
    match cl.pc
    case Entry => cl.lin.None?
    case Scan(locked, i, seen) =>
      && i <= 4 && cl.lin == (if seen then Some(false) else None)
      && (locked && !seen ==> forall u: Thread | u < i && u != cl.t :: g !in abs.mask[u])
    case MaskRead | MaskWrite(_) => cl.lin.None? && !Owned(abs, g, cl.t)
    case CntRead | CntWrite(_) => cl.lin == Some(true) && cl.es && isNew
    case _ => false
  }

  ghost predicate RlsGrpOk(cl: Client) {
    match cl.pc
    case Locked | CntTest | CntRead | CntWrite(_) | MaskClear => cl.lin.None?
    case ZeroTest => cl.lin.None? || cl.lin == Some(true)
    case _ => false
  }

  ghost predicate AttrOk(cfg: Config, abs: Core, cl: Client, a: Attr, req: seq<int>)
    requires cl.call == RsvAttr(a, req)
  {
    match cl.pc
    case Entry => cl.lin.None?
    case Check | Locked => cl.lin.None? && !Noop(a, req)
    case ValWrite(i) =>
      && !Noop(a, req) && i < Width(a)
      && if FlagFirst(cfg, a) then AttrDone(abs, cl) && abs.vals[a] == req
         else cl.lin.None? && Has(a) !in abs.alloc
    case BitsRead(b) => BitsOk(abs, cl, a, req, b)
    case BitsWrite(_, b) => BitsOk(abs, cl, a, req, b)
    case BothTest | CtxTest => AttrDone(abs, cl) && a == Ctx
    case Cmp(i) => AttrDone(abs, cl) && i <= Width(a) && (FlagFirst(cfg, a) || abs.vals[a][..i] == req[..i])
    case _ => false
  }

  ghost predicate BitsOk(abs: Core, cl: Client, a: Attr, req: seq<int>, b: Bit)
    requires cl.call == RsvAttr(a, req)
  {
    || (b == Has(a) && cl.lin.None? && !Noop(a, req) && Has(a) !in abs.alloc)
    || (b == CtxBoth && a == Ctx && AttrDone(abs, cl) && CtxBoth in abs.alloc)
  }

  /** Memory while a client is inside the critical section: the record, less what the client has still to store. */
  ghost predicate Rel(cfg: Config, mem: Core, abs: Core, cl: Client) {
    match cl.call
    case IncrRef => RelRefs(mem, abs, cl)
    case DecrRef => RelRefs(mem, abs, cl)
    case RsvGrp(_, _) => RelRsvGrp(mem, abs, cl)
    case RlsGrp => RelRlsGrp(mem, abs, cl)
    case RsvAtt(_) => RelAtt(mem, abs, cl)
    case RlsAtt(_) => RelAtt(mem, abs, cl)
    case SetMixed => mem == abs && (cl.pc.BitsWrite? ==> cl.pc.bits == abs.alloc)
    case RsvAttr(a, req) => RelAttr(cfg, mem, abs, cl.pc, a, req)
  }

  ghost predicate RelRefs(mem: Core, abs: Core, cl: Client) {
    if cl.pc.Clear? then abs.refs == 1 && mem == abs.(refs := 0)
    else mem == abs && (cl.pc.RefWrite? ==> cl.pc.r == abs.refs)
  }

  ghost predicate RelRsvGrp(mem: Core, abs: Core, cl: Client) {
    if cl.pc.CntRead? || cl.pc.CntWrite? then
      && mem == abs.(cnt := abs.cnt[cl.t := abs.cnt[cl.t] - 1])
      && (cl.pc.CntWrite? ==> cl.pc.r == mem.cnt[cl.t])
    else mem == abs && (cl.pc.MaskWrite? ==> cl.pc.groups == abs.mask[cl.t])
  }

  ghost predicate RelRlsGrp(mem: Core, abs: Core, cl: Client) {
    if cl.pc.MaskClear? || (cl.pc.ZeroTest? && cl.lin.None?)
    then abs.cnt[cl.t] == 1 && mem == abs.(cnt := abs.cnt[cl.t := 0])
    else mem == abs && (cl.pc.CntWrite? ==> cl.pc.r == abs.cnt[cl.t]) && (cl.pc.ZeroTest? ==> abs.cnt[cl.t] != 0)
  }

  ghost predicate RelAtt(mem: Core, abs: Core, cl: Client) {
    mem == abs && (cl.pc.AttWrite? ==> cl.pc.groups == abs.att)
  }

  ghost predicate RelAttr(cfg: Config, mem: Core, abs: Core, pc: Pc, a: Attr, req: seq<int>)
    requires |req| == Width(a)
  {
    match pc
    case ValWrite(i) => mem == abs.(vals := abs.vals[a := PartValue(cfg, mem, abs, a, req, i)])
    case BitsRead(b) => RelBits(cfg, mem, abs, a, req, b)
    case BitsWrite(bits, b) => bits == mem.alloc && RelBits(cfg, mem, abs, a, req, b)
    case BothTest => mem == abs.(alloc := abs.alloc - {CtxBoth})
    case _ => mem == abs
  }

  /** The cells of attribute a after i stores (with the flag stored first, whatever memory holds). */
  ghost function PartValue(cfg: Config, mem: Core, abs: Core, a: Attr, req: seq<int>, i: nat): seq<int>
    requires |req| == Width(a)
  {
    if FlagFirst(cfg, a) || i > Width(a) then mem.vals[a] else Chosen(cfg.env, a, req)[..i] + abs.vals[a][i..]
  }

  ghost predicate RelBits(cfg: Config, mem: Core, abs: Core, a: Attr, req: seq<int>, b: Bit)
    requires |req| == Width(a)
  {
    if b == CtxBoth then mem == abs.(alloc := abs.alloc - {CtxBoth})
    else if FlagFirst(cfg, a) then mem == abs
    else mem == abs.(vals := abs.vals[a := Chosen(cfg.env, a, req)])
  }

  /** What an unlocked reader can rely on, whoever holds the lock. */
  ghost predicate Seen(cfg: Config, mem: Core, abs: Core) {
    && mem.mask == abs.mask && mem.att == abs.att && mem.alloc <= abs.alloc
    && (forall a: Attr | Has(a) in abs.alloc ::
          Has(a) in mem.alloc && (FlagFirst(cfg, a) || mem.vals[a] == abs.vals[a]))
    && (forall u: Thread :: mem.cnt[u] >= 0)
  }

  lemma RelSeen(cfg: Config, mem: Core, abs: Core, cl: Client)
    requires AbsInv(abs) && PcOk(cfg, abs, cl) && Rel(cfg, mem, abs, cl)
    requires cl.es ==> abs.cnt[cl.t] >= 1
    ensures Seen(cfg, mem, abs)
  {
  }

  /** A client about to step, with what it may rely on. */
  ghost predicate LocalPre(cfg: Config, mem: Core, abs: Core, cl: Client) {
    && AbsInv(abs) && PcOk(cfg, abs, cl) && Backed(abs, cl) && Seen(cfg, mem, abs) && !cl.pc.Idle?
    && (if cl.pc.Acq? then mem == abs else Crit(cl.pc) ==> Rel(cfg, mem, abs, cl))
  }

  /** A permitted call keeps the record's invariant. */
  lemma AfterKeeps(env: int -> int, abs: Core, cl: Client)
    requires AbsInv(abs) && Backed(abs, cl) && Permits(cl, cl.call)
    ensures AbsInv(After(env, abs, cl.t, cl.call)) && Allowed(abs, cl.t, cl.call)
  {
  }

  /** One step of a client: its effect, the record and the client afterwards. */
  ghost predicate Stepped(cfg: Config, mem: Core, abs: Core, n: nat, cl: Client, e: Eff, abs': Core, cl': Client) {
    && e == Micro(cfg, mem, cl.t, cl.call, cl.pc)
    && abs' == NextAbs(cfg, mem, abs, cl)
    && cl' == NextClient(cfg, mem, abs, n, cl)
  }

  /** The step keeps what holds at the client's program point, moves in and out of the critical section only
      by Acq and Unlock, stores only inside it, and takes effect at most once, where the asserts allow it. */
  ghost predicate LocalPost(cfg: Config, mem: Core, abs: Core, cl: Client, e: Eff, abs': Core, cl': Client) {
    && PcOk(cfg, abs', cl')
    && (Crit(cl'.pc) <==> cl.pc.Acq? || (Crit(cl.pc) && !cl.pc.Unlock?))
    && (Crit(cl'.pc) ==> Rel(cfg, e.mem, abs', cl'))
    && (cl.pc.Unlock? ==> e.mem == abs')
    && (!Crit(cl.pc) ==> e.mem == mem && abs' == abs)
    && (e.lin ==> cl.lin.None? && Allowed(abs, cl.t, cl.call))
  }

  /** Program points a call handles itself. */
  predicate Inner(pc: Pc) {
    !(pc.Acq? || pc.Unlock? || pc.Ret?)
  }

  lemma LocalAcq(cfg: Config, mem: Core, abs: Core, n: nat, cl: Client, e: Eff, abs': Core, cl': Client)
    requires LocalPre(cfg, mem, abs, cl) && Stepped(cfg, mem, abs, n, cl, e, abs', cl')
    requires cl.pc.Acq?
    ensures LocalPost(cfg, mem, abs, cl, e, abs', cl')
  {
  }

  lemma LocalLeave(cfg: Config, mem: Core, abs: Core, n: nat, cl: Client, e: Eff, abs': Core, cl': Client)
    requires LocalPre(cfg, mem, abs, cl) && Stepped(cfg, mem, abs, n, cl, e, abs', cl')
    requires cl.pc.Unlock? || cl.pc.Ret?
    ensures LocalPost(cfg, mem, abs, cl, e, abs', cl')
  {
    hide LocalPre, Stepped, LocalPost;
    if cl.pc.Unlock? {
      LocalUnlock(cfg, mem, abs, n, cl, e, abs', cl');
    } else {
      LocalRet(cfg, mem, abs, n, cl, e, abs', cl');
    }
  }

  lemma LocalUnlock(cfg: Config, mem: Core, abs: Core, n: nat, cl: Client, e: Eff, abs': Core, cl': Client)
    requires LocalPre(cfg, mem, abs, cl) && Stepped(cfg, mem, abs, n, cl, e, abs', cl')
    requires cl.pc.Unlock?
    ensures LocalPost(cfg, mem, abs, cl, e, abs', cl')
  {
    hide InnerStep, After, Result, DecrOk, RsvGrpOk, RlsGrpOk, Seen, AbsInv, Backed, Own, Permits, Chosen, BitsOk;
  }

  lemma LocalRet(cfg: Config, mem: Core, abs: Core, n: nat, cl: Client, e: Eff, abs': Core, cl': Client)
    requires LocalPre(cfg, mem, abs, cl) && Stepped(cfg, mem, abs, n, cl, e, abs', cl')
    requires cl.pc.Ret?
    ensures LocalPost(cfg, mem, abs, cl, e, abs', cl')
  {
    hide InnerStep, After, Result, DecrOk, RsvGrpOk, RlsGrpOk, Seen, AbsInv, Backed, Own, Permits, Chosen, BitsOk;
  }

  lemma LocalCommon(cfg: Config, mem: Core, abs: Core, n: nat, cl: Client, e: Eff, abs': Core, cl': Client)
    requires LocalPre(cfg, mem, abs, cl) && Stepped(cfg, mem, abs, n, cl, e, abs', cl')
    requires !Inner(cl.pc)
    ensures LocalPost(cfg, mem, abs, cl, e, abs', cl')
  {
    hide LocalPre, Stepped, LocalPost;
    if cl.pc.Acq? {
      LocalAcq(cfg, mem, abs, n, cl, e, abs', cl');
    } else {
      LocalLeave(cfg, mem, abs, n, cl, e, abs', cl');
    }
  }

  lemma LocalIncr(cfg: Config, mem: Core, abs: Core, n: nat, cl: Client, e: Eff, abs': Core, cl': Client)
    requires LocalPre(cfg, mem, abs, cl) && Stepped(cfg, mem, abs, n, cl, e, abs', cl')
    requires Inner(cl.pc) && cl.call.IncrRef?
    ensures LocalPost(cfg, mem, abs, cl, e, abs', cl')
  {
  }

  lemma LocalDecr(cfg: Config, mem: Core, abs: Core, n: nat, cl: Client, e: Eff, abs': Core, cl': Client)
    requires LocalPre(cfg, mem, abs, cl) && Stepped(cfg, mem, abs, n, cl, e, abs', cl')
    requires Inner(cl.pc) && cl.call.DecrRef?
    ensures LocalPost(cfg, mem, abs, cl, e, abs', cl')
  {
    if cl.pc.Locked? || cl.pc.RefRead? || cl.pc.RefWrite? {
      LocalDecrCount(cfg, mem, abs, n, cl, e, abs', cl');
    } else {
      LocalDecrReset(cfg, mem, abs, n, cl, e, abs', cl');
    }
  }

  lemma LocalDecrCount(cfg: Config, mem: Core, abs: Core, n: nat, cl: Client, e: Eff, abs': Core, cl': Client)
    requires LocalPre(cfg, mem, abs, cl) && Stepped(cfg, mem, abs, n, cl, e, abs', cl')
    requires (cl.pc.Locked? || cl.pc.RefRead? || cl.pc.RefWrite?) && cl.call.DecrRef?
    ensures LocalPost(cfg, mem, abs, cl, e, abs', cl')
  {
    hide StepIncr, StepRsvGrp, RsvGrpOk, RelRsvGrp, StepRlsGrp, RlsGrpOk, RelRlsGrp, StepRsvAtt, StepRlsAtt, RelAtt,
         StepMixed, StepAttr, AttrOk, RelAttr;
  }

  lemma LocalDecrReset(cfg: Config, mem: Core, abs: Core, n: nat, cl: Client, e: Eff, abs': Core, cl': Client)
    requires LocalPre(cfg, mem, abs, cl) && Stepped(cfg, mem, abs, n, cl, e, abs', cl')
    requires Inner(cl.pc) && !cl.pc.Locked? && !cl.pc.RefRead? && !cl.pc.RefWrite? && cl.call.DecrRef?
    ensures LocalPost(cfg, mem, abs, cl, e, abs', cl')
  {
    hide StepIncr, StepRsvGrp, RsvGrpOk, RelRsvGrp, StepRlsGrp, RlsGrpOk, RelRlsGrp, StepRsvAtt, StepRlsAtt, RelAtt,
         StepMixed, StepAttr, AttrOk, RelAttr;
  }

  lemma LocalScan(cfg: Config, mem: Core, abs: Core, n: nat, cl: Client, e: Eff, abs': Core, cl': Client)
    requires LocalPre(cfg, mem, abs, cl) && Stepped(cfg, mem, abs, n, cl, e, abs', cl')
    requires cl.pc.Scan? && cl.call.RsvGrp?
    ensures LocalPost(cfg, mem, abs, cl, e, abs', cl')
  {
    hide StepIncr, StepDecr, DecrOk, RelRefs, StepRlsGrp, RlsGrpOk, RelRlsGrp, StepRsvAtt, StepRlsAtt, RelAtt,
         StepMixed, StepAttr, AttrOk, RelAttr;
  }

  lemma LocalRsvGrp(cfg: Config, mem: Core, abs: Core, n: nat, cl: Client, e: Eff, abs': Core, cl': Client)
    requires LocalPre(cfg, mem, abs, cl) && Stepped(cfg, mem, abs, n, cl, e, abs', cl')
    requires Inner(cl.pc) && cl.call.RsvGrp? && !cl.pc.Scan?
    ensures LocalPost(cfg, mem, abs, cl, e, abs', cl')
  {
    hide StepIncr, StepDecr, DecrOk, RelRefs, StepRlsGrp, RlsGrpOk, RelRlsGrp, StepRsvAtt, StepRlsAtt, RelAtt,
         StepMixed, StepAttr, AttrOk, RelAttr;
  }

  lemma LocalRlsGrp(cfg: Config, mem: Core, abs: Core, n: nat, cl: Client, e: Eff, abs': Core, cl': Client)
    requires LocalPre(cfg, mem, abs, cl) && Stepped(cfg, mem, abs, n, cl, e, abs', cl')
    requires Inner(cl.pc) && cl.call.RlsGrp?
    ensures LocalPost(cfg, mem, abs, cl, e, abs', cl')
  {
    hide StepIncr, StepDecr, DecrOk, RelRefs, StepRsvGrp, RsvGrpOk, RelRsvGrp, StepRsvAtt, StepRlsAtt, RelAtt,
         StepMixed, StepAttr, AttrOk, RelAttr;
  }

  lemma LocalRsvAtt(cfg: Config, mem: Core, abs: Core, n: nat, cl: Client, e: Eff, abs': Core, cl': Client)
    requires LocalPre(cfg, mem, abs, cl) && Stepped(cfg, mem, abs, n, cl, e, abs', cl')
    requires Inner(cl.pc) && cl.call.RsvAtt?
    ensures LocalPost(cfg, mem, abs, cl, e, abs', cl')
  {
    hide StepIncr, StepDecr, DecrOk, RelRefs, StepRsvGrp, RsvGrpOk, RelRsvGrp, StepRlsGrp, RlsGrpOk, RelRlsGrp,
         StepMixed, StepAttr, AttrOk, RelAttr;
  }

  lemma LocalRlsAtt(cfg: Config, mem: Core, abs: Core, n: nat, cl: Client, e: Eff, abs': Core, cl': Client)
    requires LocalPre(cfg, mem, abs, cl) && Stepped(cfg, mem, abs, n, cl, e, abs', cl')
    requires Inner(cl.pc) && (cl.call.RlsAtt? || cl.call.SetMixed?)
    ensures LocalPost(cfg, mem, abs, cl, e, abs', cl')
  {
    hide StepIncr, StepDecr, DecrOk, RelRefs, StepRsvGrp, RsvGrpOk, RelRsvGrp, StepRlsGrp, RlsGrpOk, RelRlsGrp,
         StepAttr, AttrOk, RelAttr;
  }

  lemma LocalAttrEntry(cfg: Config, mem: Core, abs: Core, n: nat, cl: Client, e: Eff, abs': Core, cl': Client)
    requires LocalPre(cfg, mem, abs, cl) && Stepped(cfg, mem, abs, n, cl, e, abs', cl')
    requires (cl.pc.Entry? || cl.pc.Check? || cl.pc.CtxTest?) && cl.call.RsvAttr?
    ensures LocalPost(cfg, mem, abs, cl, e, abs', cl')
  {
    hide LocalPre, Stepped, LocalPost;
    if cl.pc.Entry? {
      LocalEntry(cfg, mem, abs, n, cl, e, abs', cl');
    } else if cl.pc.Check? {
      LocalCheck(cfg, mem, abs, n, cl, e, abs', cl');
    } else {
      LocalCtxTest(cfg, mem, abs, n, cl, e, abs', cl');
    }
  }

  lemma LocalEntry(cfg: Config, mem: Core, abs: Core, n: nat, cl: Client, e: Eff, abs': Core, cl': Client)
    requires LocalPre(cfg, mem, abs, cl) && Stepped(cfg, mem, abs, n, cl, e, abs', cl')
    requires cl.pc.Entry? && cl.call.RsvAttr?
    ensures LocalPost(cfg, mem, abs, cl, e, abs', cl')
  {
    hide StepIncr, StepDecr, DecrOk, RelRefs, StepRsvGrp, RsvGrpOk, RelRsvGrp, StepRlsGrp, RlsGrpOk, RelRlsGrp,
         StepRsvAtt, StepRlsAtt, RelAtt, StepMixed, AbsInv, Backed, Rel, Chosen, BitsOk;
  }

  lemma LocalCheck(cfg: Config, mem: Core, abs: Core, n: nat, cl: Client, e: Eff, abs': Core, cl': Client)
    requires LocalPre(cfg, mem, abs, cl) && Stepped(cfg, mem, abs, n, cl, e, abs', cl')
    requires cl.pc.Check? && cl.call.RsvAttr?
    ensures LocalPost(cfg, mem, abs, cl, e, abs', cl')
  {
    hide StepIncr, StepDecr, DecrOk, RelRefs, StepRsvGrp, RsvGrpOk, RelRsvGrp, StepRlsGrp, RlsGrpOk, RelRlsGrp,
         StepRsvAtt, StepRlsAtt, RelAtt, StepMixed, AbsInv, Backed, Rel, Chosen, BitsOk;
  }

  lemma LocalCtxTest(cfg: Config, mem: Core, abs: Core, n: nat, cl: Client, e: Eff, abs': Core, cl': Client)
    requires LocalPre(cfg, mem, abs, cl) && Stepped(cfg, mem, abs, n, cl, e, abs', cl')
    requires cl.pc.CtxTest? && cl.call.RsvAttr?
    ensures LocalPost(cfg, mem, abs, cl, e, abs', cl')
  {
    hide StepIncr, StepDecr, DecrOk, RelRefs, StepRsvGrp, RsvGrpOk, RelRsvGrp, StepRlsGrp, RlsGrpOk, RelRlsGrp,
         StepRsvAtt, StepRlsAtt, RelAtt, StepMixed, AbsInv, Backed, Rel, Chosen, BitsOk;
  }

  lemma LocalAttrCompare(cfg: Config, mem: Core, abs: Core, n: nat, cl: Client, e: Eff, abs': Core, cl': Client)
    requires LocalPre(cfg, mem, abs, cl) && Stepped(cfg, mem, abs, n, cl, e, abs', cl')
    requires cl.pc.Cmp? && cl.call.RsvAttr?
    ensures LocalPost(cfg, mem, abs, cl, e, abs', cl')
  {
    hide LocalPre, Stepped, LocalPost;
    if cl.pc.i < Width(cl.call.attr) {
      LocalCompareCell(cfg, mem, abs, n, cl, e, abs', cl');
    } else {
      LocalCompareEnd(cfg, mem, abs, n, cl, e, abs', cl');
    }
  }

  lemma LocalCompareCell(cfg: Config, mem: Core, abs: Core, n: nat, cl: Client, e: Eff, abs': Core, cl': Client)
    requires LocalPre(cfg, mem, abs, cl) && Stepped(cfg, mem, abs, n, cl, e, abs', cl')
    requires cl.pc.Cmp? && cl.call.RsvAttr? && cl.pc.i < Width(cl.call.attr)
    ensures LocalPost(cfg, mem, abs, cl, e, abs', cl')
  {
    hide StepIncr, StepDecr, DecrOk, RelRefs, StepRsvGrp, RsvGrpOk, RelRsvGrp, StepRlsGrp, RlsGrpOk, RelRlsGrp,
         StepRsvAtt, StepRlsAtt, RelAtt, StepMixed, AbsInv, Backed, Rel, After, Result, Own, Permits, Chosen, BitsOk;
    var a, i := cl.call.attr, cl.pc.i;
    assert abs.vals[a][..i + 1] == abs.vals[a][..i] + [abs.vals[a][i]];
    assert cl.call.req[..i + 1] == cl.call.req[..i] + [cl.call.req[i]];
  }

  lemma LocalCompareEnd(cfg: Config, mem: Core, abs: Core, n: nat, cl: Client, e: Eff, abs': Core, cl': Client)
    requires LocalPre(cfg, mem, abs, cl) && Stepped(cfg, mem, abs, n, cl, e, abs', cl')
    requires cl.pc.Cmp? && cl.call.RsvAttr? && cl.pc.i >= Width(cl.call.attr)
    ensures LocalPost(cfg, mem, abs, cl, e, abs', cl')
  {
    hide StepIncr, StepDecr, DecrOk, RelRefs, StepRsvGrp, RsvGrpOk, RelRsvGrp, StepRlsGrp, RlsGrpOk, RelRlsGrp,
         StepRsvAtt, StepRlsAtt, RelAtt, StepMixed, AbsInv, Backed, Rel, After, Result, Own, Permits, Chosen, BitsOk;
    assert abs.vals[cl.call.attr][..cl.pc.i] == abs.vals[cl.call.attr] && cl.call.req[..cl.pc.i] == cl.call.req;
  }

  lemma LocalAttrLocked(cfg: Config, mem: Core, abs: Core, n: nat, cl: Client, e: Eff, abs': Core, cl': Client)
    requires LocalPre(cfg, mem, abs, cl) && Stepped(cfg, mem, abs, n, cl, e, abs', cl')
    requires cl.pc.Locked? && cl.call.RsvAttr?
    ensures LocalPost(cfg, mem, abs, cl, e, abs', cl')
  {
    hide StepIncr, StepDecr, DecrOk, RelRefs, StepRsvGrp, RsvGrpOk, RelRsvGrp, StepRlsGrp, RlsGrpOk, RelRlsGrp,
         StepRsvAtt, StepRlsAtt, RelAtt, StepMixed, AbsInv, Backed;
    var a, v := cl.call.attr, Chosen(cfg.env, cl.call.attr, cl.call.req);
    assert v[..0] + abs.vals[a][0..] == abs.vals[a];
    assert abs.vals[a := abs.vals[a]] == abs.vals;
  }

  lemma LocalAttrValue(cfg: Config, mem: Core, abs: Core, n: nat, cl: Client, e: Eff, abs': Core, cl': Client)
    requires LocalPre(cfg, mem, abs, cl) && Stepped(cfg, mem, abs, n, cl, e, abs', cl')
    requires cl.pc.ValWrite? && cl.call.RsvAttr?
    ensures LocalPost(cfg, mem, abs, cl, e, abs', cl')
  {
    if FlagFirst(cfg, cl.call.attr) {
      LocalFlagged(cfg, mem, abs, n, cl, e, abs', cl');
    } else {
      LocalUnflagged(cfg, mem, abs, n, cl, e, abs', cl');
    }
  }

  lemma LocalFlagged(cfg: Config, mem: Core, abs: Core, n: nat, cl: Client, e: Eff, abs': Core, cl': Client)
    requires LocalPre(cfg, mem, abs, cl) && Stepped(cfg, mem, abs, n, cl, e, abs', cl')
    requires cl.pc.ValWrite? && cl.call.RsvAttr? && FlagFirst(cfg, cl.call.attr)
    ensures LocalPost(cfg, mem, abs, cl, e, abs', cl')
  {
    hide StepIncr, StepDecr, DecrOk, RelRefs, StepRsvGrp, RsvGrpOk, RelRsvGrp, StepRlsGrp, RlsGrpOk, RelRlsGrp,
         StepRsvAtt, StepRlsAtt, RelAtt, StepMixed;
    var a, v := cl.call.attr, Chosen(cfg.env, cl.call.attr, cl.call.req);
    assert mem.vals[a][0 := v[0]] == v;
    assert abs.vals[a := v] == abs.vals;
  }

  lemma LocalUnflagged(cfg: Config, mem: Core, abs: Core, n: nat, cl: Client, e: Eff, abs': Core, cl': Client)
    requires LocalPre(cfg, mem, abs, cl) && Stepped(cfg, mem, abs, n, cl, e, abs', cl')
    requires cl.pc.ValWrite? && cl.call.RsvAttr? && !FlagFirst(cfg, cl.call.attr)
    ensures LocalPost(cfg, mem, abs, cl, e, abs', cl')
  {
    if cl.pc.i + 1 < Width(cl.call.attr) {
      LocalNextCell(cfg, mem, abs, n, cl, e, abs', cl');
    } else {
      LocalLastCell(cfg, mem, abs, n, cl, e, abs', cl');
    }
  }

  lemma LocalNextCell(cfg: Config, mem: Core, abs: Core, n: nat, cl: Client, e: Eff, abs': Core, cl': Client)
    requires LocalPre(cfg, mem, abs, cl) && Stepped(cfg, mem, abs, n, cl, e, abs', cl')
    requires cl.pc.ValWrite? && cl.call.RsvAttr? && !FlagFirst(cfg, cl.call.attr) && cl.pc.i + 1 < Width(cl.call.attr)
    ensures LocalPost(cfg, mem, abs, cl, e, abs', cl')
  {
    hide StepIncr, StepDecr, DecrOk, RelRefs, StepRsvGrp, RsvGrpOk, RelRsvGrp, StepRlsGrp, RlsGrpOk, RelRlsGrp,
         StepRsvAtt, StepRlsAtt, RelAtt, StepMixed, AbsInv, Backed, Seen, After, Result, Own;
    var a, i, v := cl.call.attr, cl.pc.i, Chosen(cfg.env, cl.call.attr, cl.call.req);
    assert (v[..i] + abs.vals[a][i..])[i := v[i]] == v[..i + 1] + abs.vals[a][i + 1..];
  }

  lemma LocalLastCell(cfg: Config, mem: Core, abs: Core, n: nat, cl: Client, e: Eff, abs': Core, cl': Client)
    requires LocalPre(cfg, mem, abs, cl) && Stepped(cfg, mem, abs, n, cl, e, abs', cl')
    requires cl.pc.ValWrite? && cl.call.RsvAttr? && !FlagFirst(cfg, cl.call.attr) && cl.pc.i + 1 >= Width(cl.call.attr)
    ensures LocalPost(cfg, mem, abs, cl, e, abs', cl')
  {
    hide StepIncr, StepDecr, DecrOk, RelRefs, StepRsvGrp, RsvGrpOk, RelRsvGrp, StepRlsGrp, RlsGrpOk, RelRlsGrp,
         StepRsvAtt, StepRlsAtt, RelAtt, StepMixed, AbsInv, Backed, Seen, After, Result, Own;
    var a, i, v := cl.call.attr, cl.pc.i, Chosen(cfg.env, cl.call.attr, cl.call.req);
    assert (v[..i] + abs.vals[a][i..])[i := v[i]] == v;
  }

  lemma LocalAttrBits(cfg: Config, mem: Core, abs: Core, n: nat, cl: Client, e: Eff, abs': Core, cl': Client)
    requires LocalPre(cfg, mem, abs, cl) && Stepped(cfg, mem, abs, n, cl, e, abs', cl')
    requires cl.pc.BitsRead? && cl.call.RsvAttr?
    ensures LocalPost(cfg, mem, abs, cl, e, abs', cl')
  {
    hide StepIncr, StepDecr, DecrOk, RelRefs, StepRsvGrp, RsvGrpOk, RelRsvGrp, StepRlsGrp, RlsGrpOk, RelRlsGrp,
         StepRsvAtt, StepRlsAtt, RelAtt, StepMixed, AbsInv, Backed, Seen, After, Result, Own;
  }

  lemma LocalAttrBoth(cfg: Config, mem: Core, abs: Core, n: nat, cl: Client, e: Eff, abs': Core, cl': Client)
    requires LocalPre(cfg, mem, abs, cl) && Stepped(cfg, mem, abs, n, cl, e, abs', cl')
    requires cl.pc.BothTest? && cl.call.RsvAttr?
    ensures LocalPost(cfg, mem, abs, cl, e, abs', cl')
  {
    hide StepIncr, StepDecr, DecrOk, RelRefs, StepRsvGrp, RsvGrpOk, RelRsvGrp, StepRlsGrp, RlsGrpOk, RelRlsGrp,
         StepRsvAtt, StepRlsAtt, RelAtt, StepMixed;
  }

  lemma LocalAttrStore(cfg: Config, mem: Core, abs: Core, n: nat, cl: Client, e: Eff, abs': Core, cl': Client)
    requires LocalPre(cfg, mem, abs, cl) && Stepped(cfg, mem, abs, n, cl, e, abs', cl')
    requires cl.pc.BitsWrite? && cl.call.RsvAttr?
    ensures LocalPost(cfg, mem, abs, cl, e, abs', cl')
  {
    hide LocalPre, Stepped, LocalPost;
    if cl.pc.bit == CtxBoth {
      LocalStoreBoth(cfg, mem, abs, n, cl, e, abs', cl');
    } else {
      LocalStoreBit(cfg, mem, abs, n, cl, e, abs', cl');
    }
  }

  lemma LocalStoreBoth(cfg: Config, mem: Core, abs: Core, n: nat, cl: Client, e: Eff, abs': Core, cl': Client)
    requires LocalPre(cfg, mem, abs, cl) && Stepped(cfg, mem, abs, n, cl, e, abs', cl')
    requires cl.pc.BitsWrite? && cl.call.RsvAttr? && cl.pc.bit == CtxBoth
    ensures LocalPost(cfg, mem, abs, cl, e, abs', cl')
  {
    hide StepIncr, StepDecr, DecrOk, RelRefs, StepRsvGrp, RsvGrpOk, RelRsvGrp, StepRlsGrp, RlsGrpOk, RelRlsGrp,
         StepRsvAtt, StepRlsAtt, RelAtt, StepMixed, AbsInv, Backed, Seen, After, Result, Own, Permits;
  }

  lemma LocalStoreBit(cfg: Config, mem: Core, abs: Core, n: nat, cl: Client, e: Eff, abs': Core, cl': Client)
    requires LocalPre(cfg, mem, abs, cl) && Stepped(cfg, mem, abs, n, cl, e, abs', cl')
    requires cl.pc.BitsWrite? && cl.call.RsvAttr? && cl.pc.bit != CtxBoth
    ensures LocalPost(cfg, mem, abs, cl, e, abs', cl')
  {
    hide LocalPre, Stepped, LocalPost;
    if FlagFirst(cfg, cl.call.attr) {
      LocalStoreFlag(cfg, mem, abs, n, cl, e, abs', cl');
    } else {
      LocalStoreLast(cfg, mem, abs, n, cl, e, abs', cl');
    }
  }

  lemma LocalStoreFlag(cfg: Config, mem: Core, abs: Core, n: nat, cl: Client, e: Eff, abs': Core, cl': Client)
    requires LocalPre(cfg, mem, abs, cl) && Stepped(cfg, mem, abs, n, cl, e, abs', cl')
    requires cl.pc.BitsWrite? && cl.call.RsvAttr? && cl.pc.bit != CtxBoth && FlagFirst(cfg, cl.call.attr)
    ensures LocalPost(cfg, mem, abs, cl, e, abs', cl')
  {
    hide StepIncr, StepDecr, DecrOk, RelRefs, StepRsvGrp, RsvGrpOk, RelRsvGrp, StepRlsGrp, RlsGrpOk, RelRlsGrp,
         StepRsvAtt, StepRlsAtt, RelAtt, StepMixed, Backed, Seen;
  }

  lemma LocalStoreLast(cfg: Config, mem: Core, abs: Core, n: nat, cl: Client, e: Eff, abs': Core, cl': Client)
    requires LocalPre(cfg, mem, abs, cl) && Stepped(cfg, mem, abs, n, cl, e, abs', cl')
    requires cl.pc.BitsWrite? && cl.call.RsvAttr? && cl.pc.bit != CtxBoth && !FlagFirst(cfg, cl.call.attr)
    ensures LocalPost(cfg, mem, abs, cl, e, abs', cl')
  {
    hide StepIncr, StepDecr, DecrOk, RelRefs, StepRsvGrp, RsvGrpOk, RelRsvGrp, StepRlsGrp, RlsGrpOk, RelRlsGrp,
         StepRsvAtt, StepRlsAtt, RelAtt, StepMixed, Backed, Seen;
  }

  lemma LocalAttr(cfg: Config, mem: Core, abs: Core, n: nat, cl: Client, e: Eff, abs': Core, cl': Client)
    requires LocalPre(cfg, mem, abs, cl) && Stepped(cfg, mem, abs, n, cl, e, abs', cl')
    requires Inner(cl.pc) && cl.call.RsvAttr?
    ensures LocalPost(cfg, mem, abs, cl, e, abs', cl')
  {
    hide Stepped, LocalPost, Rel, Seen, AbsInv, Backed, AttrDone, BitsOk;
    if cl.pc.Entry? || cl.pc.Check? || cl.pc.CtxTest? { LocalAttrEntry(cfg, mem, abs, n, cl, e, abs', cl'); }
    else if cl.pc.Cmp? { LocalAttrCompare(cfg, mem, abs, n, cl, e, abs', cl'); }
    else if cl.pc.Locked? { LocalAttrLocked(cfg, mem, abs, n, cl, e, abs', cl'); }
    else if cl.pc.ValWrite? { LocalAttrValue(cfg, mem, abs, n, cl, e, abs', cl'); }
    else if cl.pc.BitsWrite? { LocalAttrStore(cfg, mem, abs, n, cl, e, abs', cl'); }
    else if cl.pc.BitsRead? { LocalAttrBits(cfg, mem, abs, n, cl, e, abs', cl'); }
    else { LocalAttrBoth(cfg, mem, abs, n, cl, e, abs', cl'); }
  }

  lemma LocalInner(cfg: Config, mem: Core, abs: Core, n: nat, cl: Client, e: Eff, abs': Core, cl': Client)
    requires LocalPre(cfg, mem, abs, cl) && Stepped(cfg, mem, abs, n, cl, e, abs', cl')
    requires Inner(cl.pc) && !cl.call.RsvAttr?
    ensures LocalPost(cfg, mem, abs, cl, e, abs', cl')
  {
    hide LocalPre, Stepped, LocalPost;
    match cl.call
    case IncrRef => LocalIncr(cfg, mem, abs, n, cl, e, abs', cl');
    case DecrRef => LocalDecr(cfg, mem, abs, n, cl, e, abs', cl');
    case RsvGrp(_, _) =>
      if cl.pc.Scan? {
        LocalScan(cfg, mem, abs, n, cl, e, abs', cl');
      } else {
        LocalRsvGrp(cfg, mem, abs, n, cl, e, abs', cl');
      }
    case RlsGrp => LocalRlsGrp(cfg, mem, abs, n, cl, e, abs', cl');
    case RsvAtt(_) => LocalRsvAtt(cfg, mem, abs, n, cl, e, abs', cl');
    case RlsAtt(_) => LocalRlsAtt(cfg, mem, abs, n, cl, e, abs', cl');
    case SetMixed => LocalRlsAtt(cfg, mem, abs, n, cl, e, abs', cl');
  }

  /** Every step of every call. */
  lemma LocalStep(cfg: Config, mem: Core, abs: Core, n: nat, cl: Client, e: Eff, abs': Core, cl': Client)
    requires LocalPre(cfg, mem, abs, cl) && Stepped(cfg, mem, abs, n, cl, e, abs', cl')
    ensures LocalPost(cfg, mem, abs, cl, e, abs', cl')
  {
    hide LocalPre, Stepped, LocalPost;
    if !Inner(cl.pc) { LocalCommon(cfg, mem, abs, n, cl, e, abs', cl'); }
    else if cl.call.RsvAttr? { LocalAttr(cfg, mem, abs, n, cl, e, abs', cl'); }
    else { LocalInner(cfg, mem, abs, n, cl, e, abs', cl'); }
  }
}
