/** What clients can rely on in every reachable state, at every memory access. */
module Guarantees {
  import opened CoreRecord
  import opened Protocol
  import opened Invariants
  import opened Sessions
  import opened Linearizability

  /** The assert statement the client is about to evaluate, if any, on memory as it is now. */
  predicate AssertHolds(mem: Core, cl: Client) {
    match cl.pc
    case Entry => cl.call.RsvGrp? ==> mem.cnt[cl.t] >= 0
    case Locked =>
      (match cl.call
       case IncrRef => mem.refs >= 0
       case DecrRef => mem.refs > 0
       case RlsGrp => mem.cnt[cl.t] > 0
       case RlsAtt(m) => m <= mem.att
       case _ => true)
    case ZeroCheck(i) => i < 4 ==> mem.cnt[i] == 0
    case _ => true
  }

  /** No assertion on the record fails in any run, including "all group counts are 0" on the last DecrRef. */
  lemma NoAssertFails(cfg: Config, s: State, c: nat)
    requires Reachable(cfg, s) && c in s.cls
    ensures var mem, cl := s.mem, s.cls[c];
            && (cl.pc.Entry? && cl.call.RsvGrp? ==> mem.cnt[cl.t] >= 0)
            && (cl.pc.Locked? && cl.call.IncrRef? ==> mem.refs >= 0)
            && (cl.pc.Locked? && cl.call.DecrRef? ==> mem.refs > 0)
            && (cl.pc.Locked? && cl.call.RlsGrp? ==> mem.cnt[cl.t] > 0)
            && (cl.pc.Locked? && cl.call.RlsAtt? ==> cl.call.m <= mem.att)
            && (cl.pc.ZeroCheck? && cl.pc.i < 4 ==> mem.cnt[cl.pc.i] == 0)
  {
    ReachableInv(cfg, s);
    ClientBacked(cfg, s, c);
    Seeing(cfg, s);
    ClientOk(cfg, s, c);
    AssertLocal(cfg, s.mem, s.abs, s.cls[c]);
    hide Inv, Reachable, PcOk, Backed, Seen, AbsInv, Rel;
  }

  lemma AssertLocal(cfg: Config, mem: Core, abs: Core, cl: Client)
    requires PcOk(cfg, abs, cl) && Backed(abs, cl) && Seen(cfg, mem, abs) && AbsInv(abs)
    requires Crit(cl.pc) ==> Rel(cfg, mem, abs, cl)
    ensures AssertHolds(mem, cl)
  {
    hide AttrDone, BitsOk, RelAttr, Chosen;
  }

  /** refCount counts the clients holding a reference, ctrGrpRefCount the event sets on each thread; a thread
      has groups iff it has event sets; "both" says exactly that the reserved context is BOTH. */
  lemma CountsAreSessions(cfg: Config, s: State)
    requires Reachable(cfg, s) && s.lock.None?
    ensures s.mem.refs == |Refs(s.cls)|
    ensures forall t: Thread :: s.mem.cnt[t] == |Sets(s.cls, t)|
    ensures forall t: Thread :: s.mem.cnt[t] == 0 <==> s.mem.mask[t] == {}
    ensures CtxBoth in s.mem.alloc <==> Has(Ctx) in s.mem.alloc && s.mem.vals[Ctx] == [CTX_BOTH]
  {
    ReachableInv(cfg, s);
  }

  /** Locked or not, "both" is never set without the context being set to BOTH. */
  lemma BothMeansBoth(cfg: Config, s: State)
    requires Reachable(cfg, s) && CtxBoth in s.mem.alloc
    ensures Has(Ctx) in s.mem.alloc && s.mem.vals[Ctx] == [CTX_BOTH]
  {
    ReachableInv(cfg, s);
    AnyoneSees(cfg, s);
  }

  // ----- counters -----

  /** The 24 counters, counter k being in affinity group k mod 4. */
  ghost function Counters(groups: set<nat>): set<nat> {
    set k: nat | k < 24 && k % 4 in groups
  }

  lemma OneGroup(g: nat)
    requires g < 4
    ensures |Counters({g})| == 6
  {
    assert Counters({g}) == {g, g + 4, g + 8, g + 12, g + 16, g + 20};
  }

  lemma {:induction false} SixPerGroup(groups: set<nat>)
    requires forall g | g in groups :: g < 4
    ensures |Counters(groups)| == 6 * |groups|
  {
    if groups == {} {
      assert Counters(groups) == {};
    } else {
      var g :| g in groups;
      var rest := groups - {g};
      SixPerGroup(rest);
      OneGroup(g);
      assert Counters(groups) == Counters(rest) + Counters({g});
    }
  }

  ghost predicate Owns(mem: Core, t: Thread, k: nat) {
    k < 24 && k % 4 in mem.mask[t]
  }

  /** At every memory access: no counter has two owners, a thread with n groups owns exactly 6n counters,
      and the four threads together never own more than 24. */
  lemma CountersConserved(cfg: Config, s: State)
    requires Reachable(cfg, s)
    ensures forall t: Thread, u: Thread, k | Owns(s.mem, t, k) && Owns(s.mem, u, k) :: t == u
    ensures forall t: Thread, k: nat :: Owns(s.mem, t, k) <==> k < 24 && k % 4 in s.mem.mask[t]
    ensures forall t: Thread, k: nat :: Owns(s.mem, t, k) <==> k in Counters(s.mem.mask[t])
    ensures forall t: Thread :: |Counters(s.mem.mask[t])| == 6 * |s.mem.mask[t]|
    ensures |Counters(s.mem.mask[0])| + |Counters(s.mem.mask[1])|
              + |Counters(s.mem.mask[2])| + |Counters(s.mem.mask[3])| <= 24
  {
    ReachableInv(cfg, s);
    Seeing(cfg, s);
    hide Inv, Reachable;
    MasksConserved(s.mem.mask);
  }

  lemma MasksConserved(m: seq<set<nat>>)
    requires |m| == 4 && (forall u: Thread, v: Thread | u != v :: m[u] !! m[v])
    requires forall u: Thread :: forall g | g in m[u] :: g < 4
    ensures forall t: Thread :: |Counters(m[t])| == 6 * |m[t]|
    ensures |Counters(m[0])| + |Counters(m[1])| + |Counters(m[2])| + |Counters(m[3])| <= 24
  {
    hide Counters;
    forall t: Thread
      ensures |Counters(m[t])| == 6 * |m[t]|
    {
      SixPerGroup(m[t]);
    }
    FourDisjoint(m[0], m[1], m[2], m[3]);
  }

  lemma FourDisjoint(a: set<nat>, b: set<nat>, c: set<nat>, d: set<nat>)
    requires a !! b && a !! c && a !! d && b !! c && b !! d && c !! d
    requires forall g | g in a + b + c + d :: g < 4
    ensures |a| + |b| + |c| + |d| <= 4
  {
    var all := a + b + c + d;
    assert |all| == |a| + |b| + |c| + |d|;
    assert all <= {0, 1, 2, 3};
    SmallerSet(all, {0, 1, 2, 3});
  }

  lemma SmallerSet(a: set<nat>, b: set<nat>)
    requires a <= b
    ensures |a| <= |b|
  {
    assert b == a + (b - a);
  }

  // ----- what a single step can do -----

  /** The steps that store into allocMask, and those that store into a group mask. */
  lemma BitsStores(cfg: Config, mem: Core, t: Thread, call: Call, pc: Pc)
    ensures var e := Micro(cfg, mem, t, call, pc);
            e.mem.alloc == mem.alloc || pc.Clear? || (pc.BitsWrite? && e.mem.alloc == pc.bits + {pc.bit})
  {
  }

  lemma MaskStores(cfg: Config, mem: Core, t: Thread, call: Call, pc: Pc)
    ensures var e := Micro(cfg, mem, t, call, pc);
            || e.mem.mask == mem.mask
            || (pc.MaskWrite? && call.RsvGrp? && e.mem.mask == mem.mask[t := pc.groups + {call.grp}])
            || (pc.MaskClear? && e.mem.mask == mem.mask[t := {}] && e.mem.cnt == mem.cnt)
            || (pc.ZeroMask? && pc.i < 4 && e.mem.mask == mem.mask[pc.i := {}] && e.mem.cnt == mem.cnt)
  {
  }

  /** A thread's groups only grow, until all of them vanish with its count at 0. */
  lemma GroupsGrowOrVanish(cfg: Config, s: State, c: nat, u: Thread)
    requires Reachable(cfg, s) && Enabled(s, Step(c))
    ensures var mem' := DoStep(cfg, s, c).mem;
            s.mem.mask[u] <= mem'.mask[u] || (mem'.mask[u] == {} && mem'.cnt[u] == 0)
  {
    ReachableInv(cfg, s);
    var cl := s.cls[c];
    hide Inv, Reachable, Micro, NextAbs, NextClient, Result, PcOk, Rel;
    ClientOk(cfg, s, c);
    MaskStores(cfg, s.mem, cl.t, cl.call, cl.pc);
    MaskLocal(cfg, s.mem, s.abs, cl, u);
  }

  lemma MaskLocal(cfg: Config, mem: Core, abs: Core, cl: Client, u: Thread)
    requires PcOk(cfg, abs, cl) && (Crit(cl.pc) ==> Rel(cfg, mem, abs, cl))
    ensures cl.pc.MaskWrite? && cl.call.RsvGrp? ==> cl.pc.groups == mem.mask[cl.t]
    ensures cl.pc.MaskClear? ==> mem.cnt[cl.t] == 0
    ensures cl.pc.ZeroMask? ==> mem.mask[u] == {}
  {
    hide AttrDone, BitsOk, RelAttr, Chosen;
  }

  /** No update of allocMask is lost: each step keeps every bit, except the reset once refCount is 0. */
  lemma NoBitLost(cfg: Config, s: State, act: Action)
    requires Inv(cfg, s) && Enabled(s, act)
    ensures s.mem.alloc <= Do(cfg, s, act).mem.alloc || s.mem.refs == 0
  {
    if act.Step? {
      var cl := s.cls[act.c];
      hide Inv, Micro, NextAbs, NextClient, Result, PcOk, Rel;
      ClientOk(cfg, s, act.c);
      BitsStores(cfg, s.mem, cl.t, cl.call, cl.pc);
      BitsLocal(cfg, s.mem, s.abs, cl);
    }
  }

  lemma BitsLocal(cfg: Config, mem: Core, abs: Core, cl: Client)
    requires PcOk(cfg, abs, cl) && (Crit(cl.pc) ==> Rel(cfg, mem, abs, cl))
    ensures cl.pc.BitsWrite? ==> cl.pc.bits == mem.alloc
    ensures cl.pc.Clear? ==> mem.refs == 0
  {
    hide AttrDone, BitsOk, RelBits, Chosen;
  }

  /** refCount is positive in every state along the run. */
  ghost predicate BusyRun(cfg: Config, s: State, acts: seq<Action>)
    requires IsRun(cfg, s, acts)
    decreases |acts|
  {
    s.mem.refs != 0 && (acts != [] ==> BusyRun(cfg, Do(cfg, s, acts[0]), acts[1..]))
  }

  /** Until refCount reaches zero, bits of allocMask only accumulate, whatever the interleaving. */
  lemma AllocMaskGrows(cfg: Config, s: State, acts: seq<Action>)
    requires Reachable(cfg, s) && IsRun(cfg, s, acts) && BusyRun(cfg, s, acts)
    ensures s.mem.alloc <= Exec(cfg, s, acts).mem.alloc
  {
    ReachableInv(cfg, s);
    BitsAccumulate(cfg, s, acts);
  }

  lemma {:induction false} BitsAccumulate(cfg: Config, s: State, acts: seq<Action>)
    requires Inv(cfg, s) && IsRun(cfg, s, acts) && BusyRun(cfg, s, acts)
    ensures s.mem.alloc <= Exec(cfg, s, acts).mem.alloc
    decreases |acts|
  {
    if acts != [] {
      NoBitLost(cfg, s, acts[0]);
      DoKeeps(cfg, s, acts[0]);
      BitsAccumulate(cfg, Do(cfg, s, acts[0]), acts[1..]);
    }
  }

  /** puAttachedMask is at every access the disjoint union of the masks clients hold. */
  lemma AttachedIsHeld(cfg: Config, s: State)
    requires Reachable(cfg, s)
    ensures forall x :: x in s.mem.att <==> exists c :: Attached(s.cls, c, x)
    ensures forall c, d, x | Attached(s.cls, c, x) && Attached(s.cls, d, x) :: c == d
  {
    ReachableInv(cfg, s);
    AnyoneSees(cfg, s);
  }

  /** An attach that fails without the lock saw, at that read, a group another client holds. */
  lemma UnlockedAttachFailure(cfg: Config, s: State, c: nat)
    requires Reachable(cfg, s) && Enabled(s, Step(c)) && s.cls[c].pc.Entry? && s.cls[c].call.RsvAtt?
    requires DoStep(cfg, s, c).cls[c].pc.Ret?
    ensures exists d, x :: d != c && x in s.cls[c].call.m && Attached(s.cls, d, x)
  {
    AttachedIsHeld(cfg, s);
    ReachableInv(cfg, s);
    assert PcOk(cfg, s.abs, s.cls[c]);
    var x :| x in s.mem.att * s.cls[c].call.m;
    assert exists d :: Attached(s.cls, d, x);
  }

  /** A reservation without conflict followed by its release restores the mask. */
  lemma AttachRoundTrip(env: int -> int, core: Core, t: Thread, m: set<nat>)
    requires Result(env, core, t, RsvAtt(m))
    ensures After(env, After(env, core, t, RsvAtt(m)), t, RlsAtt(m)) == core
  {
    forall x ensures x in core.att + m - m <==> x in core.att { assert x !in core.att * m; }
    assert core.att + m - m == core.att;
  }
}
