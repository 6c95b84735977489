/** What a call was told and what it changed, in terms of the masks themselves. */
module Answers {
  import opened CoreRecord
  import opened Protocol
  import opened Invariants
  import opened Sessions
  import opened Linearizability
  import opened Agreement

  /** The entry of a returned call is a step of the indivisible calls. */
  lemma EntryOf(cfg: Config, s: State, i: nat)
    requires Reachable(cfg, s) && i < |s.hist| && !s.hist[i].call.RsvAttr?
    ensures var d, k := s.hist[i], s.hist[i].at;
            && k < |s.log| && s.log[k].call == d.call
            && d.res == Result(cfg.env, Replay(cfg.env, s.log[..k]), s.log[k].t, d.call)
            && Replay(cfg.env, s.log[..k + 1]) == After(cfg.env, Replay(cfg.env, s.log[..k]), s.log[k].t, d.call)
  {
    hide Result, After, Reachable, Legal, Replay;
    RunsAreLinearizable(cfg, s);
    assert DoneOk(cfg, s.log, s.hist[i]);
    LegalPrefix(cfg.env, s.log, s.hist[i].at + 1);
    ReplayNext(cfg.env, s.log, s.hist[i].at);
  }

  /** In every run a group reservation was refused iff another thread had the group, and otherwise it is taken: added to
      the groups of the thread, and counted iff it is the first of an event set. */
  lemma GroupAnswered(cfg: Config, s: State, i: nat)
    requires Reachable(cfg, s) && i < |s.hist| && s.hist[i].call.RsvGrp?
    ensures var d, k := s.hist[i], s.hist[i].at;
            && k < |s.log|
            && var t, g := s.log[k].t, d.call.grp;
               var before, after := Replay(cfg.env, s.log[..k]), Replay(cfg.env, s.log[..k + 1]);
               && (d.res <==> forall u: Thread | u != t :: g !in before.mask[u])
               && (!d.res ==> after == before)
               && (d.res ==> after.mask == before.mask[t := before.mask[t] + {g}])
               && (d.res ==> after.cnt[t] == before.cnt[t] + if d.call.isNew then 1 else 0)
               && (d.res ==> forall u: Thread | u != t :: after.cnt[u] == before.cnt[u])
  {
    hide Reachable, Replay, Result, After;
    EntryOf(cfg, s, i);
    GroupAtomic(cfg.env, Replay(cfg.env, s.log[..s.hist[i].at]), s.log[s.hist[i].at].t, s.hist[i].call);
  }

  lemma GroupAtomic(env: int -> int, core: Core, t: Thread, call: Call)
    requires call.RsvGrp?
    ensures var res, after := Result(env, core, t, call), After(env, core, t, call);
            && (res <==> forall u: Thread | u != t :: call.grp !in core.mask[u])
            && (!res ==> after == core)
            && (res ==> after.mask == core.mask[t := core.mask[t] + {call.grp}])
            && (res ==> after.cnt[t] == core.cnt[t] + if call.isNew then 1 else 0)
            && (res ==> forall u: Thread | u != t :: after.cnt[u] == core.cnt[u])
  {
  }

  /** In every run an attached mask was refused iff it met the mask in use, and is added to it otherwise. */
  lemma AttachAnswered(cfg: Config, s: State, i: nat)
    requires Reachable(cfg, s) && i < |s.hist| && s.hist[i].call.RsvAtt?
    ensures var d, k := s.hist[i], s.hist[i].at;
            && k < |s.log|
            && var before, after := Replay(cfg.env, s.log[..k]), Replay(cfg.env, s.log[..k + 1]);
               && (!d.res <==> exists x :: x in before.att && x in d.call.m)
               && after.att == if d.res then before.att + d.call.m else before.att
  {
    EntryOf(cfg, s, i);
    hide Reachable, Replay;
    var before, m := Replay(cfg.env, s.log[..s.hist[i].at]), s.hist[i].call.m;
    if x :| x in before.att && x in m {
      assert x in before.att * m;
    }
  }

  /** In every run giving up a reference takes one off the count, and the last clears attributes and groups. */
  lemma DropAnswered(cfg: Config, s: State, i: nat)
    requires Reachable(cfg, s) && i < |s.hist| && s.hist[i].call.DecrRef?
    ensures var k := s.hist[i].at;
            && k < |s.log|
            && var before, after := Replay(cfg.env, s.log[..k]), Replay(cfg.env, s.log[..k + 1]);
               && after.refs == before.refs - 1
               && (after.refs == 0 ==> after.alloc == {} && forall u: Thread :: after.mask[u] == {})
               && (after.refs != 0 ==> after.alloc == before.alloc && after.mask == before.mask)
               && after.cnt == before.cnt && after.att == before.att && after.vals == before.vals
  {
    hide Reachable, Replay, Result, After;
    EntryOf(cfg, s, i);
    DropAtomic(cfg.env, Replay(cfg.env, s.log[..s.hist[i].at]), s.log[s.hist[i].at].t);
  }

  lemma DropAtomic(env: int -> int, core: Core, t: Thread)
    ensures var after := After(env, core, t, DecrRef);
            && after.refs == core.refs - 1
            && (after.refs == 0 ==> after.alloc == {} && forall u: Thread :: after.mask[u] == {})
            && (after.refs != 0 ==> after.alloc == core.alloc && after.mask == core.mask)
            && after.cnt == core.cnt && after.att == core.att && after.vals == core.vals
  {
  }

  // ----- the same of memory, at the access where the call takes effect -----

  ghost predicate TakesEffect(cfg: Config, s: State, c: nat) {
    Enabled(s, Step(c)) && |DoStep(cfg, s, c).log| > |s.log|
  }

  lemma GroupLocal(cfg: Config, mem: Core, abs: Core, cl: Client)
    requires PcOk(cfg, abs, cl) && Seen(cfg, mem, abs) && (Crit(cl.pc) ==> Rel(cfg, mem, abs, cl))
    requires cl.call.RsvGrp? && Micro(cfg, mem, cl.t, cl.call, cl.pc).lin
    ensures Result(cfg.env, abs, cl.t, cl.call) <==> forall u: Thread | u != cl.t :: cl.call.grp !in mem.mask[u]
    ensures Micro(cfg, mem, cl.t, cl.call, cl.pc).mem.mask ==
            if Result(cfg.env, abs, cl.t, cl.call) then mem.mask[cl.t := mem.mask[cl.t] + {cl.call.grp}] else mem.mask
  {
    hide StepIncr, StepDecr, StepRlsGrp, StepRsvAtt, StepRlsAtt, StepMixed, StepAttr, AttrOk, RelAttr;
  }

  /** The answer is right for the masks in memory at that access, and the access stores exactly the group. */
  lemma GroupStep(cfg: Config, s: State, c: nat)
    requires Reachable(cfg, s) && TakesEffect(cfg, s, c) && s.cls[c].call.RsvGrp?
    ensures var s', cl := DoStep(cfg, s, c), s.cls[c];
            var e := s'.log[|s.log|];
            && e.client == c && e.t == cl.t && e.call == cl.call
            && (e.res <==> forall u: Thread | u != cl.t :: cl.call.grp !in s.mem.mask[u])
            && s'.mem.mask == if e.res then s.mem.mask[cl.t := s.mem.mask[cl.t] + {cl.call.grp}] else s.mem.mask
  {
    ReachableInv(cfg, s);
    hide Inv, Reachable, Micro, NextAbs, NextClient, Result, PcOk, Rel, Seen;
    Seeing(cfg, s);
    ClientOk(cfg, s, c);
    GroupLocal(cfg, s.mem, s.abs, s.cls[c]);
  }

  lemma AttachLocal(cfg: Config, mem: Core, abs: Core, cl: Client)
    requires PcOk(cfg, abs, cl) && Seen(cfg, mem, abs) && (Crit(cl.pc) ==> Rel(cfg, mem, abs, cl))
    requires cl.call.RsvAtt? && Micro(cfg, mem, cl.t, cl.call, cl.pc).lin
    ensures Result(cfg.env, abs, cl.t, cl.call) <==> forall x | x in cl.call.m :: x !in mem.att
    ensures Micro(cfg, mem, cl.t, cl.call, cl.pc).mem.att ==
            if Result(cfg.env, abs, cl.t, cl.call) then mem.att + cl.call.m else mem.att
  {
    hide StepIncr, StepDecr, StepRsvGrp, StepRlsGrp, StepRlsAtt, StepMixed, StepAttr, AttrOk, RelAttr;
    assert forall x :: x in mem.att * cl.call.m <==> x in mem.att && x in cl.call.m;
  }

  /** An attach is granted iff no client holds any of the groups asked for, at that access, and stores exactly those. */
  lemma AttachStep(cfg: Config, s: State, c: nat)
    requires Reachable(cfg, s) && TakesEffect(cfg, s, c) && s.cls[c].call.RsvAtt?
    ensures var s', cl := DoStep(cfg, s, c), s.cls[c];
            var e := s'.log[|s.log|];
            && e.client == c && e.call == cl.call
            && (e.res <==> forall d, x | Attached(s.cls, d, x) :: x !in cl.call.m)
            && s'.mem.att == if e.res then s.mem.att + cl.call.m else s.mem.att
  {
    ReachableInv(cfg, s);
    AttachedAre(cfg, s);
    hide Inv, Reachable, Micro, NextAbs, NextClient, Result, PcOk, Rel, Attached;
    Seeing(cfg, s);
    ClientOk(cfg, s, c);
    AttachLocal(cfg, s.mem, s.abs, s.cls[c]);
  }

  lemma AttachedAre(cfg: Config, s: State)
    requires Inv(cfg, s)
    ensures forall d, x | Attached(s.cls, d, x) :: x in s.mem.att
    ensures forall x | x in s.mem.att :: exists d :: Attached(s.cls, d, x)
  {
    hide PcOk, Rel, AbsInv, CountInv, LogInv, Attached;
    Seeing(cfg, s);
  }
}
