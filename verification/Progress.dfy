/** No deadlock: a call in progress can always be driven to its return. */
module Progress {
  import opened CoreRecord
  import opened Protocol
  import opened Invariants
  import opened Linearizability

  /** An upper bound on the steps a call has still to make. */
  function Rank(cfg: Config, call: Call, pc: Pc): int {
    match pc
    case Idle => 0
    case Entry => 31
    case Check => 27
    case Scan(locked, i, _) => if locked then 24 - i else 30 - i
    case Acq => 25
    case Locked => 20
    case RefRead => 19
    case RefWrite(_) => 18
    case Clear => 17
    case ZeroCheck(i) => 16 - 2 * i
    case ZeroMask(i) => 15 - 2 * i
    case MaskRead => 13
    case MaskWrite(_) => 12
    case CntTest => 12
    case CntRead => 11
    case CntWrite(_) => 10
    case ZeroTest => 9
    case MaskClear => 8
    case AttRead => 12
    case AttWrite(_) => 11
    case ValWrite(i) => if call.RsvAttr? && FlagFirst(cfg, call.attr) then 12 else 18 - i
    case BitsRead(b) => if b == CtxBoth then 9 else 14
    case BitsWrite(_, b) => if b == CtxBoth then 8 else 13
    case BothTest => 10
    case Unlock(_) => 7
    case CtxTest => 6
    case Cmp(i) => 5 - i
    case Ret(_) => 1
  }

  ghost predicate Shorter(cfg: Config, mem: Core, cl: Client) {
    0 <= Rank(cfg, cl.call, Micro(cfg, mem, cl.t, cl.call, cl.pc).pc) < Rank(cfg, cl.call, cl.pc) <= 31
  }

  lemma RankCommon(cfg: Config, mem: Core, abs: Core, cl: Client)
    requires PcOk(cfg, abs, cl) && !Inner(cl.pc)
    ensures Shorter(cfg, mem, cl)
  {
  }

  predicate Reading(pc: Pc) {
    pc.Entry? || pc.Check? || pc.Locked? || pc.CtxTest? || pc.Cmp?
  }

  lemma RankAttrReads(cfg: Config, mem: Core, abs: Core, cl: Client)
    requires PcOk(cfg, abs, cl) && cl.call.RsvAttr? && Reading(cl.pc)
    ensures Shorter(cfg, mem, cl)
  {
    hide PcOk, Shorter;
    if cl.pc.Cmp? {
      RankCompares(cfg, mem, abs, cl);
    } else {
      RankTests(cfg, mem, abs, cl);
    }
  }

  lemma RankCompares(cfg: Config, mem: Core, abs: Core, cl: Client)
    requires PcOk(cfg, abs, cl) && cl.call.RsvAttr? && cl.pc.Cmp?
    ensures Shorter(cfg, mem, cl)
  {
    hide StepIncr, StepDecr, StepRsvGrp, StepRlsGrp, StepRsvAtt, StepRlsAtt, StepMixed, AttrDone, BitsOk, Chosen, Noop;
  }

  lemma RankTests(cfg: Config, mem: Core, abs: Core, cl: Client)
    requires PcOk(cfg, abs, cl) && cl.call.RsvAttr? && Reading(cl.pc) && !cl.pc.Cmp?
    ensures Shorter(cfg, mem, cl)
  {
    hide StepIncr, StepDecr, StepRsvGrp, StepRlsGrp, StepRsvAtt, StepRlsAtt, StepMixed, AttrDone, BitsOk, Chosen, Noop;
  }

  lemma RankAttrWrites(cfg: Config, mem: Core, abs: Core, cl: Client)
    requires PcOk(cfg, abs, cl) && Inner(cl.pc) && cl.call.RsvAttr? && !cl.pc.Idle? && !Reading(cl.pc)
    ensures Shorter(cfg, mem, cl)
  {
  }

  lemma RankGroups(cfg: Config, mem: Core, abs: Core, cl: Client)
    requires PcOk(cfg, abs, cl) && Inner(cl.pc) && (cl.call.RsvGrp? || cl.call.DecrRef?) && !cl.pc.Idle?
    ensures Shorter(cfg, mem, cl)
  {
  }

  lemma RankOther(cfg: Config, mem: Core, abs: Core, cl: Client)
    requires PcOk(cfg, abs, cl) && Inner(cl.pc) && !cl.pc.Idle?
    requires !(cl.call.RsvAttr? || cl.call.RsvGrp? || cl.call.DecrRef?)
    ensures Shorter(cfg, mem, cl)
  {
  }

  /** Every step of a call brings it closer to its return. */
  lemma RankDecreases(cfg: Config, mem: Core, abs: Core, cl: Client)
    requires PcOk(cfg, abs, cl) && !cl.pc.Idle?
    ensures Shorter(cfg, mem, cl)
  {
    if !Inner(cl.pc) { RankCommon(cfg, mem, abs, cl); }
    else if cl.call.RsvAttr? && Reading(cl.pc) { RankAttrReads(cfg, mem, abs, cl); }
    else if cl.call.RsvAttr? { RankAttrWrites(cfg, mem, abs, cl); }
    else if cl.call.RsvGrp? || cl.call.DecrRef? { RankGroups(cfg, mem, abs, cl); }
    else { RankOther(cfg, mem, abs, cl); }
  }

  /** Somebody can always step: without the lock the caller, else the holder, who never waits for it. */
  lemma NeverStuck(cfg: Config, s: State, c: nat)
    requires Reachable(cfg, s) && c in s.cls && !s.cls[c].pc.Idle?
    ensures Enabled(s, Step(if s.lock.Some? then s.lock.value else c))
    ensures s.cls[c].pc.Acq? ==> s.lock != Some(c)
  {
    ReachableInv(cfg, s);
  }

  ghost function Left(cfg: Config, s: State, c: nat): int
    requires c in s.cls
  {
    Rank(cfg, s.cls[c].call, s.cls[c].pc)
    + if s.lock.Some? && s.lock.value != c && s.lock.value in s.cls
      then Rank(cfg, s.cls[s.lock.value].call, s.cls[s.lock.value].pc) else 0
  }

  lemma RankBounds(cfg: Config, abs: Core, cl: Client)
    requires PcOk(cfg, abs, cl)
    ensures 0 <= Rank(cfg, cl.call, cl.pc) <= 31
    ensures Rank(cfg, cl.call, cl.pc) == 0 <==> cl.pc.Idle?
  {
  }

  lemma NextPc(cfg: Config, mem: Core, abs: Core, n: nat, cl: Client)
    ensures var cl' := NextClient(cfg, mem, abs, n, cl);
            cl'.pc == Micro(cfg, mem, cl.t, cl.call, cl.pc).pc && cl'.call == cl.call
  {
    hide Micro, Result;
  }

  lemma Turns(cfg: Config, s: State, c: nat)
    requires StateInv(cfg, s) && c in s.cls && !s.cls[c].pc.Idle?
    ensures var d := if s.lock.Some? then s.lock.value else c;
            Enabled(s, Step(d)) && PcOk(cfg, s.abs, s.cls[c]) && PcOk(cfg, s.abs, s.cls[d])
  {
    hide PcOk, Rel, AbsInv, MemInv;
  }

  /** Who steps next: the lock's holder if it is somebody else, then the caller. */
  lemma LeftDecreases(cfg: Config, s: State, c: nat)
    requires StateInv(cfg, s) && c in s.cls && !s.cls[c].pc.Idle?
    ensures var d := if s.lock.Some? then s.lock.value else c;
            var s' := DoStep(cfg, s, d);
            && Enabled(s, Step(d))
            && c in s'.cls && (s'.lock.None? || s'.lock == Some(d))
            && 0 <= Left(cfg, s', c) < Left(cfg, s, c) <= 62
  {
    var d := if s.lock.Some? then s.lock.value else c;
    var cl := s.cls[d];
    Turns(cfg, s, c);
    hide StateInv, Micro, NextAbs, NextClient, Result, PcOk, Rank;
    NextPc(cfg, s.mem, s.abs, |s.log|, cl);
    RankDecreases(cfg, s.mem, s.abs, cl);
    RankBounds(cfg, s.abs, s.cls[c]);
    RankBounds(cfg, s.abs, cl);
  }

  /** From every reachable state every call in progress can be brought to its return in at most 62 steps,
      taken only by the lock's holder and the caller itself. */
  lemma CallsCanFinish(cfg: Config, s: State, c: nat) returns (acts: seq<Action>)
    requires Reachable(cfg, s) && c in s.cls
    ensures IsRun(cfg, s, acts) && |acts| <= 62
    ensures var s' := Exec(cfg, s, acts); c in s'.cls && s'.cls[c].pc.Idle?
    ensures forall a | a in acts :: a == Step(c) || (s.lock.Some? && a == Step(s.lock.value))
  {
    ReachableInv(cfg, s);
    if s.cls[c].pc.Idle? {
      acts := [];
    } else {
      LeftDecreases(cfg, s, c);
      acts := Drive(cfg, s, c);
    }
  }

  lemma Stated(cfg: Config, s: State)
    requires Inv(cfg, s)
    ensures StateInv(cfg, s)
  {
    hide StateInv, LogInv;
  }

  lemma {:induction false} Drive(cfg: Config, s: State, c: nat) returns (acts: seq<Action>)
    requires Inv(cfg, s) && c in s.cls && Left(cfg, s, c) >= 0
    ensures IsRun(cfg, s, acts) && |acts| <= Left(cfg, s, c)
    ensures var s' := Exec(cfg, s, acts); c in s'.cls && s'.cls[c].pc.Idle?
    ensures forall a | a in acts :: a == Step(c) || (s.lock.Some? && a == Step(s.lock.value))
    decreases Left(cfg, s, c)
  {
    hide Left, DoStep, Inv;
    if s.cls[c].pc.Idle? {
      acts := [];
    } else {
      var d := if s.lock.Some? then s.lock.value else c;
      Stated(cfg, s);
      LeftDecreases(cfg, s, c);
      DoKeeps(cfg, s, Step(d));
      var rest := Drive(cfg, Do(cfg, s, Step(d)), c);
      ConsRun(cfg, s, Step(d), rest);
      acts := [Step(d)] + rest;
    }
  }

  // ----- every call that a client may make can be made and returns -----

  /** Since s, a call of client c has returned. */
  ghost predicate Returned(s: State, s': State, c: nat, call: Call) {
    && s.hist <= s'.hist
    && exists i :: |s.hist| <= i < |s'.hist| && s'.hist[i].client == c && s'.hist[i].call == call
  }

  lemma OneStep(cfg: Config, s: State, c: nat, d: nat)
    requires c in s.cls && !s.cls[c].pc.Idle? && Enabled(s, Step(d))
    requires d == c ==> (Micro(cfg, s.mem, s.cls[c].t, s.cls[c].call, s.cls[c].pc).pc.Idle? <==> s.cls[c].pc.Ret?)
    ensures var s' := DoStep(cfg, s, d);
            && s.hist <= s'.hist && c in s'.cls
            && if s'.cls[c].pc.Idle? then Returned(s, s', c, s.cls[c].call) else s'.cls[c].call == s.cls[c].call
  {
    hide Micro, NextAbs, Result;
    var s' := DoStep(cfg, s, d);
    if d == c {
      NextPc(cfg, s.mem, s.abs, |s.log|, s.cls[c]);
      if s.cls[c].pc.Ret? {
        assert s'.hist[|s.hist|].client == c && s'.hist[|s.hist|].call == s.cls[c].call;
      }
    }
  }

  lemma ReturnedLater(s: State, m: State, s': State, c: nat, call: Call)
    requires s.hist <= m.hist && Returned(m, s', c, call)
    ensures Returned(s, s', c, call)
  {
    var i :| |m.hist| <= i < |s'.hist| && s'.hist[i].client == c && s'.hist[i].call == call;
    assert s.hist <= s'.hist;
  }

  lemma {:induction false} DriveHome(cfg: Config, s: State, c: nat) returns (acts: seq<Action>)
    requires Inv(cfg, s) && c in s.cls && !s.cls[c].pc.Idle?
    ensures IsRun(cfg, s, acts)
    ensures var s' := Exec(cfg, s, acts); c in s'.cls && s'.cls[c].pc.Idle? && Returned(s, s', c, s.cls[c].call)
    decreases Left(cfg, s, c)
  {
    hide Left, DoStep, Inv, Micro, Returned;
    var d := if s.lock.Some? then s.lock.value else c;
    Stated(cfg, s);
    LeftDecreases(cfg, s, c);
    DoKeeps(cfg, s, Step(d));
    StepShape(cfg, s, d);
    OneStep(cfg, s, c, d);
    var m := Do(cfg, s, Step(d));
    if m.cls[c].pc.Idle? {
      ConsRun(cfg, s, Step(d), []);
      acts := [Step(d)] + [];
    } else {
      var rest := DriveHome(cfg, m, c);
      ReturnedLater(s, m, Exec(cfg, m, rest), c, s.cls[c].call);
      ConsRun(cfg, s, Step(d), rest);
      acts := [Step(d)] + rest;
    }
  }

  /** From every reachable state an idle client can make each of its calls and have it return: a reference when it has
      none, and with one any reservation, the release of what it holds, and DecrRef when it holds nothing else. */
  lemma CallsReturn(cfg: Config, s: State, c: nat, call: Call) returns (acts: seq<Action>)
    requires Reachable(cfg, s) && c in s.cls && s.cls[c].pc.Idle?
    requires s.cls[c].ref <==> !call.IncrRef?
    requires call.DecrRef? ==> !s.cls[c].es && s.cls[c].att.None?
    requires call.RsvGrp? ==> (call.isNew <==> !s.cls[c].es)
    requires call.RlsGrp? ==> s.cls[c].es
    requires call.RsvAtt? ==> s.cls[c].att.None?
    requires call.RlsAtt? ==> s.cls[c].att == Some(call.m)
    ensures IsRun(cfg, s, acts)
    ensures var s' := Exec(cfg, s, acts); c in s'.cls && s'.cls[c].pc.Idle? && Returned(s, s', c, call)
  {
    ReachableInv(cfg, s);
    var begin := Start(c, call);
    assert Enabled(s, begin);
    DoKeeps(cfg, s, begin);
    var m := Do(cfg, s, begin);
    assert m.hist == s.hist && m.cls[c].call == call && !m.cls[c].pc.Idle?;
    hide Inv, Reachable, Do, Returned;
    var rest := DriveHome(cfg, m, c);
    ReturnedLater(s, m, Exec(cfg, m, rest), c, call);
    ConsRun(cfg, s, begin, rest);
    acts := [begin] + rest;
  }
}
