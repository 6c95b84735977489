/** RsvL1pMode stores its flag before its value. At the grain of single calls it agrees like the other
    attributes; at the grain of memory accesses it can answer from the old value. This says exactly when. */
module L1pMode {
  import opened CoreRecord
  import opened Protocol
  import opened Invariants
  import opened Sessions
  import opened Linearizability

  /** Another call has stored the flag and not yet the value. */
  predicate Window(s: State) {
    && s.lock.Some? && s.lock.value in s.cls
    && s.cls[s.lock.value].pc.ValWrite?
    && s.cls[s.lock.value].call.RsvAttr? && s.cls[s.lock.value].call.attr == L1p
  }

  /** The mode that the winner of the reservation asked for. */
  function Winning(s: State): seq<int> {
    if Window(s) then s.cls[s.lock.value].call.req else s.mem.vals[L1p]
  }

  /** Client c is in an L1p call that has seen the flag set, or is about to see it. */
  predicate Comparing(s: State, c: nat) {
    && c in s.cls
    && s.cls[c].call.RsvAttr? && s.cls[c].call.attr == L1p
    && Has(L1p) in s.mem.alloc
    && (s.cls[c].pc.Check? || s.cls[c].pc == Cmp(0))
  }

  ghost predicate SameCall(s: State, c: nat, from: nat) {
    c in s.cls && !s.cls[c].pc.Idle? && s.cls[c].from == from
  }

  /** In every continuation the call returns the answer it has in the linearization. */
  ghost predicate Truthful(cfg: Config, s: State, c: nat)
    requires c in s.cls
  {
    forall acts | IsRun(cfg, s, acts) :: AnswersRight(Exec(cfg, s, acts), c, s.cls[c].from)
  }

  ghost predicate AnswersRight(s: State, c: nat, from: nat) {
    SameCall(s, c, from) && s.cls[c].pc.Ret? ==> s.cls[c].lin == Some(s.cls[c].pc.res)
  }

  /** An L1p call that has not stored its value, by program point. */
  lemma L1pOk(cfg: Config, abs: Core, cl: Client)
    requires PcOk(cfg, abs, cl) && cl.call.RsvAttr? && cl.call.attr == L1p
    ensures cl.pc.Check? ==> !Noop(L1p, cl.call.req)
    ensures cl.pc.Cmp? ==> AttrDone(abs, cl)
    ensures cl.pc.ValWrite? && FlagFirst(cfg, L1p) ==> abs.vals[L1p] == cl.call.req
    ensures cl.pc.ValWrite? && !FlagFirst(cfg, L1p) ==> Has(L1p) !in abs.alloc
  {
  }

  lemma PermitsRef(cfg: Config, abs: Core, cl: Client)
    requires PcOk(cfg, abs, cl) && cl.call.RsvAttr? && (cl.pc.Check? || cl.pc.Cmp?)
    ensures cl.ref
  {
  }

  /** Outside the window memory has the mode of the record. */
  lemma RelMode(cfg: Config, mem: Core, abs: Core, cl: Client)
    requires PcOk(cfg, abs, cl) && Rel(cfg, mem, abs, cl) && Has(L1p) in abs.alloc
    requires !(cl.pc.ValWrite? && cl.call.RsvAttr? && cl.call.attr == L1p)
    ensures mem.vals[L1p] == abs.vals[L1p]
  {
    hide StepIncr, StepDecr, StepAttr, Chosen;
  }

  lemma WinningIsFixed(cfg: Config, s: State)
    requires Inv(cfg, s) && Has(L1p) in s.mem.alloc
    ensures Has(L1p) in s.abs.alloc && Winning(s) == s.abs.vals[L1p]
  {
    Seeing(cfg, s);
    assert s.lock.Some? ==> s.lock.value in s.cls;
    assert s.lock.None? ==> s.mem == s.abs;
    hide Inv, PcOk, Rel;
    if s.lock.Some? {
      var c := s.lock.value;
      ClientOk(cfg, s, c);
      if Window(s) {
        L1pOk(cfg, s.abs, s.cls[c]);
      } else {
        RelMode(cfg, s.mem, s.abs, s.cls[c]);
      }
    }
  }

  lemma AttrStores(cfg: Config, mem: Core, pc: Pc, a: Attr, req: seq<int>)
    requires |req| == Width(a)
    ensures var e := StepAttr(cfg, mem, pc, a, req);
            || e.mem.vals == mem.vals
            || (pc.ValWrite? && pc.i < Width(a)
                && e.mem.vals == mem.vals[a := mem.vals[a][pc.i := Chosen(cfg.env, a, req)[pc.i]]])
  {
    hide Chosen;
  }

  lemma OthersStoreNone(cfg: Config, mem: Core, t: Thread, call: Call, pc: Pc)
    requires !call.RsvAttr?
    ensures InnerStep(cfg, mem, t, call, pc).mem.vals == mem.vals
  {
    hide StepAttr;
  }

  lemma InnerAttr(cfg: Config, mem: Core, t: Thread, call: Call, pc: Pc)
    requires call.RsvAttr?
    ensures InnerStep(cfg, mem, t, call, pc) == StepAttr(cfg, mem, pc, call.attr, call.req)
  {
    hide StepAttr;
  }

  lemma ValueStores(cfg: Config, mem: Core, t: Thread, call: Call, pc: Pc)
    ensures var vals := Micro(cfg, mem, t, call, pc).mem.vals;
            || vals == mem.vals
            || (pc.ValWrite? && call.RsvAttr? && pc.i < Width(call.attr)
                && vals == mem.vals[call.attr :=
                     mem.vals[call.attr][pc.i := Chosen(cfg.env, call.attr, call.req)[pc.i]]])
  {
    hide Chosen, InnerStep, StepAttr;
    if call.RsvAttr? {
      InnerAttr(cfg, mem, t, call, pc);
      AttrStores(cfg, mem, pc, call.attr, call.req);
    } else {
      OthersStoreNone(cfg, mem, t, call, pc);
    }
  }

  /** Once the flag is set the value cell can only become the winning mode. */
  lemma OnlyWinnerStores(cfg: Config, s: State, d: nat)
    requires Inv(cfg, s) && Enabled(s, Step(d)) && Has(L1p) in s.abs.alloc
    ensures var v := DoStep(cfg, s, d).mem.vals[L1p]; v == s.mem.vals[L1p] || v == s.abs.vals[L1p]
  {
    hide Inv, PcOk, Rel, Micro, NextClient, NextAbs, Result;
    var cl := s.cls[d];
    ValueStores(cfg, s.mem, cl.t, cl.call, cl.pc);
    if cl.pc.ValWrite? && cl.call.RsvAttr? && cl.call.attr == L1p {
      ClientOk(cfg, s, d);
      L1pOk(cfg, s.abs, cl);
      assert s.mem.vals[L1p][0 := cl.call.req[0]] == cl.call.req;
    }
  }

  /** The call is still running and every cell it can read compares with its request as w does. */
  ghost predicate Compares(mem: Core, abs: Core, cl: Client, req: seq<int>, w: seq<int>) {
    && cl.ref && cl.call == RsvAttr(L1p, req)
    && Has(L1p) in abs.alloc && abs.vals[L1p] == w
    && ((mem.vals[L1p] == req) == (w == req))
    && ((cl.pc.Check? && !Noop(L1p, req)) || cl.pc == Cmp(0) || (cl.pc == Cmp(1) && w == req)
        || (cl.pc == Ret(w == req) && cl.lin == Some(w == req)))
  }

  ghost predicate OnTrack(s: State, c: nat, from: nat, req: seq<int>, w: seq<int>) {
    && c in s.cls
    && (|| (|s.log| > from && (s.cls[c].pc.Idle? || s.cls[c].from > from))
        || (s.cls[c].from == from && Compares(s.mem, s.abs, s.cls[c], req, w)))
  }

  lemma OwnStepCompares(cfg: Config, mem: Core, abs: Core, n: nat, cl: Client, cl': Client, req: seq<int>, w: seq<int>)
    requires Compares(mem, abs, cl, req, w) && |req| == 1
    requires Has(L1p) in mem.alloc && (cl.pc.Cmp? ==> AttrDone(abs, cl))
    requires cl' == NextClient(cfg, mem, abs, n, cl)
    ensures NextAbs(cfg, mem, abs, cl) == abs && Micro(cfg, mem, cl.t, cl.call, cl.pc).mem == mem
    ensures cl'.from == cl.from && (cl.pc.Ret? || Compares(mem, abs, cl', req, w))
  {
    assert mem.vals[L1p] == [mem.vals[L1p][0]] && req == [req[0]];
  }

  lemma ComparesSeen(cfg: Config, s: State, c: nat, req: seq<int>, w: seq<int>)
    requires Inv(cfg, s) && c in s.cls && Compares(s.mem, s.abs, s.cls[c], req, w)
    ensures Has(L1p) in s.mem.alloc && (s.cls[c].pc.Cmp? ==> AttrDone(s.abs, s.cls[c]))
  {
    hide Inv, PcOk, Rel;
    Seeing(cfg, s);
    ClientOk(cfg, s, c);
    L1pOk(cfg, s.abs, s.cls[c]);
  }

  lemma OwnStepOnTrack(cfg: Config, s: State, c: nat, from: nat, req: seq<int>, w: seq<int>)
    requires Inv(cfg, s) && OnTrack(s, c, from, req, w) && |req| == 1 && Enabled(s, Step(c))
    ensures OnTrack(DoStep(cfg, s, c), c, from, req, w)
  {
    hide Inv, DoStep, Compares;
    if s.cls[c].from == from && Compares(s.mem, s.abs, s.cls[c], req, w) {
      OwnStepSame(cfg, s, c, from, req, w);
    } else {
      OwnStepPast(cfg, s, c, from, req, w);
    }
  }

  lemma OwnStepPast(cfg: Config, s: State, c: nat, from: nat, req: seq<int>, w: seq<int>)
    requires |s.log| > from && Enabled(s, Step(c)) && s.cls[c].from > from
    ensures OnTrack(DoStep(cfg, s, c), c, from, req, w)
  {
    hide Micro, NextAbs, Result, Compares;
  }

  lemma OwnStepSame(cfg: Config, s: State, c: nat, from: nat, req: seq<int>, w: seq<int>)
    requires Inv(cfg, s) && |req| == 1 && Enabled(s, Step(c))
    requires s.cls[c].from == from && Compares(s.mem, s.abs, s.cls[c], req, w)
    ensures OnTrack(DoStep(cfg, s, c), c, from, req, w)
  {
    var cl := s.cls[c];
    ComparesSeen(cfg, s, c, req, w);
    ClientLogged(cfg, s, c);
    var cl' := NextClient(cfg, s.mem, s.abs, |s.log|, cl);
    OwnStepCompares(cfg, s.mem, s.abs, |s.log|, cl, cl', req, w);
    if cl.pc.Ret? {
      ReturnsIdle(cfg, s.mem, s.abs, |s.log|, cl);
      assert cl.lin.Some?;
    }
    hide Inv, Micro, NextAbs, NextClient, Compares;
  }

  lemma ReturnsIdle(cfg: Config, mem: Core, abs: Core, n: nat, cl: Client)
    requires cl.pc.Ret?
    ensures Micro(cfg, mem, cl.t, cl.call, cl.pc) == Eff(mem, Idle, false)
    ensures NextClient(cfg, mem, abs, n, cl) == cl.(pc := Idle) && NextAbs(cfg, mem, abs, cl) == abs
  {
    hide InnerStep;
  }

  /** While client c holds a reference, another client's step does not undo the mode. */
  lemma ModeKept(cfg: Config, s: State, c: nat, d: nat)
    requires Inv(cfg, s) && c in s.cls && s.cls[c].ref && d != c && Enabled(s, Step(d))
    requires Has(L1p) in s.abs.alloc
    ensures var abs' := NextAbs(cfg, s.mem, s.abs, s.cls[d]);
            Has(L1p) in abs'.alloc && abs'.vals[L1p] == s.abs.vals[L1p]
  {
    hide Micro, After;
    var o := s.cls[d];
    StepShape(cfg, s, d);
    if Micro(cfg, s.mem, o.t, o.call, o.pc).lin {
      if o.call.DecrRef? && s.abs.refs == 1 {
        assert PcOk(cfg, s.abs, o);
        assert c in Refs(s.cls) && d in Refs(s.cls);
        Sole(Refs(s.cls), c);
        assert false;
      }
      FixedUntilReset(cfg.env, s.abs, o.t, o.call);
    }
  }

  lemma OtherStepOnTrack(cfg: Config, s: State, c: nat, d: nat, from: nat, req: seq<int>, w: seq<int>)
    requires Inv(cfg, s) && OnTrack(s, c, from, req, w) && d != c && Enabled(s, Step(d))
    ensures OnTrack(DoStep(cfg, s, d), c, from, req, w)
  {
    hide Inv, Micro, NextAbs, NextClient, Result;
    var cl := s.cls[c];
    if !(|s.log| > from && (cl.pc.Idle? || cl.from > from)) {
      OnlyWinnerStores(cfg, s, d);
      ModeKept(cfg, s, c, d);
    }
  }

  lemma ActOnTrack(cfg: Config, s: State, act: Action, c: nat, from: nat, req: seq<int>, w: seq<int>)
    requires Inv(cfg, s) && OnTrack(s, c, from, req, w) && |req| == 1 && Enabled(s, act)
    ensures OnTrack(Do(cfg, s, act), c, from, req, w)
  {
    hide Inv, DoStep;
    if act.Step? {
      if act.c == c { OwnStepOnTrack(cfg, s, c, from, req, w); }
      else { OtherStepOnTrack(cfg, s, c, act.c, from, req, w); }
    }
  }

  lemma {:induction false} StaysOnTrack(cfg: Config, s: State, acts: seq<Action>, c: nat, from: nat, req: seq<int>,
                                        w: seq<int>)
    requires Inv(cfg, s) && IsRun(cfg, s, acts) && OnTrack(s, c, from, req, w) && |req| == 1
    ensures AnswersRight(Exec(cfg, s, acts), c, from)
    decreases |acts|
  {
    if acts != [] {
      var act := acts[0];
      DoKeeps(cfg, s, act);
      ActOnTrack(cfg, s, act, c, from, req, w);
      StaysOnTrack(cfg, Do(cfg, s, act), acts[1..], c, from, req, w);
    }
  }

  /** Only client c has moved, and it has no other event set and mask than before. */
  ghost predicate OnlyMoved(s: State, s': State, c: nat) {
    && c in s.cls && s'.cls.Keys == s.cls.Keys
    && s'.cls[c].es == s.cls[c].es && s'.cls[c].att == s.cls[c].att
    && forall d | d in s.cls && d != c :: s'.cls[d] == s.cls[d]
  }

  lemma ModeCompares(cfg: Config, mem: Core, t: Thread, req: seq<int>)
    requires |req| == 1
    ensures Micro(cfg, mem, t, RsvAttr(L1p, req), Cmp(0))
            == Eff(mem, if mem.vals[L1p] == req then Cmp(1) else Ret(false), false)
    ensures Micro(cfg, mem, t, RsvAttr(L1p, req), Cmp(1)) == Eff(mem, Ret(true), false)
  {
    assert mem.vals[L1p] == [mem.vals[L1p][0]] && req == [req[0]];
  }

  /** A step that takes effect nowhere and only moves on. */
  lemma MovesOn(cfg: Config, s: State, c: nat, pc: Pc)
    requires Enabled(s, Step(c)) && !s.cls[c].pc.Ret?
    requires Micro(cfg, s.mem, s.cls[c].t, s.cls[c].call, s.cls[c].pc) == Eff(s.mem, pc, false)
    ensures var s' := Do(cfg, s, Step(c)); OnlyMoved(s, s', c) && s'.mem == s.mem && s'.cls[c] == s.cls[c].(pc := pc)
  {
    hide Micro;
  }

  lemma CompareLast(cfg: Config, s: State, c: nat)
    requires c in s.cls && s.cls[c].call.RsvAttr? && s.cls[c].call.attr == L1p && s.cls[c].pc == Cmp(1)
    ensures IsRun(cfg, s, [Step(c)])
    ensures var s' := Exec(cfg, s, [Step(c)]); OnlyMoved(s, s', c) && s'.cls[c] == s.cls[c].(pc := Ret(true))
  {
    ModeCompares(cfg, s.mem, s.cls[c].t, s.cls[c].call.req);
    MovesOn(cfg, s, c, Ret(true));
    ConsRun(cfg, s, Step(c), []);
    hide Micro, Do;
  }

  /** Letting the call run alone, it answers from the cell as it is. */
  lemma CompareAlone(cfg: Config, s: State, c: nat) returns (acts: seq<Action>)
    requires Comparing(s, c) && s.cls[c].pc == Cmp(0)
    ensures IsRun(cfg, s, acts)
    ensures var s' := Exec(cfg, s, acts);
            OnlyMoved(s, s', c) && s'.cls[c] == s.cls[c].(pc := Ret(s.mem.vals[L1p] == s.cls[c].call.req))
  {
    var cl := s.cls[c];
    ModeCompares(cfg, s.mem, cl.t, cl.call.req);
    hide Micro, Do;
    if s.mem.vals[L1p] == cl.call.req {
      MovesOn(cfg, s, c, Cmp(1));
      CompareLast(cfg, Do(cfg, s, Step(c)), c);
      ConsRun(cfg, s, Step(c), [Step(c)]);
      acts := [Step(c)] + [Step(c)];
    } else {
      MovesOn(cfg, s, c, Ret(false));
      ConsRun(cfg, s, Step(c), []);
      acts := [Step(c)];
    }
  }

  lemma FlagSeen(cfg: Config, s: State, c: nat)
    requires Inv(cfg, s) && Comparing(s, c) && s.cls[c].pc.Check?
    ensures var s' := Do(cfg, s, Step(c));
            && OnlyMoved(s, s', c) && s'.mem == s.mem
            && s'.cls[c] == s.cls[c].(pc := Cmp(0), at := |s.log|, lin := Some(s.abs.vals[L1p] == s.cls[c].call.req))
  {
    hide Inv, PcOk, Rel, Micro, NextClient, NextAbs, Result;
    Seeing(cfg, s);
    ClientOk(cfg, s, c);
    L1pOk(cfg, s.abs, s.cls[c]);
    FlagSeenBy(cfg, s.mem, s.abs, |s.log|, s.cls[c], s.cls[c].call.req);
  }

  lemma FlagSeenBy(cfg: Config, mem: Core, abs: Core, n: nat, cl: Client, req: seq<int>)
    requires |req| == 1 && cl.call == RsvAttr(L1p, req) && cl.pc.Check? && !Noop(L1p, req)
    requires Has(L1p) in mem.alloc && Has(L1p) in abs.alloc
    ensures Micro(cfg, mem, cl.t, cl.call, cl.pc).mem == mem
    ensures NextClient(cfg, mem, abs, n, cl) == cl.(pc := Cmp(0), at := n, lin := Some(abs.vals[L1p] == req))
  {
    hide StepIncr, StepDecr, StepRsvGrp, StepRlsGrp, StepRsvAtt, StepRlsAtt, StepMixed;
  }

  lemma FlagWasSeen(cfg: Config, s: State, c: nat)
    requires Inv(cfg, s) && Comparing(s, c) && !s.cls[c].pc.Check?
    ensures s.cls[c].lin == Some(s.abs.vals[L1p] == s.cls[c].call.req)
  {
    hide Inv, PcOk, Rel;
    ClientOk(cfg, s, c);
    L1pOk(cfg, s.abs, s.cls[c]);
  }

  lemma AnswersFromCell(cfg: Config, s: State, c: nat) returns (acts: seq<Action>)
    requires Inv(cfg, s) && Comparing(s, c)
    ensures IsRun(cfg, s, acts)
    ensures var s' := Exec(cfg, s, acts);
            && OnlyMoved(s, s', c) && s'.cls[c].call == s.cls[c].call
            && SameCall(s', c, s.cls[c].from) && s'.cls[c].pc == Ret(s.mem.vals[L1p] == s.cls[c].call.req)
            && s'.cls[c].lin == Some(s.abs.vals[L1p] == s.cls[c].call.req)
  {
    hide Inv, Do, IsRun, Exec;
    if s.cls[c].pc.Check? {
      FlagSeen(cfg, s, c);
      var rest := CompareAlone(cfg, Do(cfg, s, Step(c)), c);
      ConsRun(cfg, s, Step(c), rest);
      acts := [Step(c)] + rest;
    } else {
      FlagWasSeen(cfg, s, c);
      acts := CompareAlone(cfg, s, c);
    }
  }

  /** A call that finds the flag set answers truthfully in every continuation iff the cell as it stands and
      the winning mode compare alike with its request; outside the window they are the same. */
  lemma L1pTruthfulIff(cfg: Config, s: State, c: nat)
    requires Reachable(cfg, s) && Comparing(s, c)
    ensures Truthful(cfg, s, c) <==> ((s.mem.vals[L1p] == s.cls[c].call.req) == (Winning(s) == s.cls[c].call.req))
    ensures !Window(s) ==> Truthful(cfg, s, c)
  {
    ReachableInv(cfg, s);
    WinningIsFixed(cfg, s);
    if (s.mem.vals[L1p] == s.cls[c].call.req) == (Winning(s) == s.cls[c].call.req) {
      AllRunsTruthful(cfg, s, c);
    } else {
      var acts := AnswersFromCell(cfg, s, c);
      assert !AnswersRight(Exec(cfg, s, acts), c, s.cls[c].from);
    }
  }

  lemma AllRunsTruthful(cfg: Config, s: State, c: nat)
    requires Inv(cfg, s) && Comparing(s, c)
    requires (s.mem.vals[L1p] == s.cls[c].call.req) == (s.abs.vals[L1p] == s.cls[c].call.req)
    ensures Truthful(cfg, s, c)
  {
    var cl := s.cls[c];
    hide Inv, PcOk, Rel;
    Seeing(cfg, s);
    ClientOk(cfg, s, c);
    L1pOk(cfg, s.abs, cl);
    PermitsRef(cfg, s.abs, cl);
    assert OnTrack(s, c, cl.from, cl.call.req, s.abs.vals[L1p]);
    forall acts | IsRun(cfg, s, acts) ensures AnswersRight(Exec(cfg, s, acts), c, cl.from) {
      StaysOnTrack(cfg, s, acts, c, cl.from, cl.call.req, s.abs.vals[L1p]);
    }
  }

  // ----- a run in which the order as written misleads a caller -----

  /** P survives every action, as reachability does. */
  ghost predicate Closed(cfg: Config, P: State -> bool) {
    forall s, act | P(s) && Enabled(s, act) :: P(Do(cfg, s, act))
  }

  lemma Begin(cfg: Config, P: State -> bool, s: State, c: nat, call: Call) returns (s': State)
    requires Closed(cfg, P) && P(s) && Enabled(s, Start(c, call))
    ensures P(s') && OnlyMoved(s, s', c) && s'.mem == s.mem && s'.lock == s.lock
    ensures s'.cls[c].pc == FirstPc(call) && s'.cls[c].call == call && s'.cls[c].ref == s.cls[c].ref
  {
    s' := Do(cfg, s, Start(c, call));
  }

  lemma Advance(cfg: Config, P: State -> bool, s: State, c: nat) returns (s': State)
    requires Closed(cfg, P) && P(s) && Enabled(s, Step(c))
    requires s.cls[c].call.IncrRef? || s.cls[c].call.DecrRef? || s.cls[c].call.RsvAttr?
    ensures P(s') && OnlyMoved(s, s', c)
    ensures var cl := s.cls[c];
            var e := Micro(cfg, s.mem, cl.t, cl.call, cl.pc);
            && s'.mem == e.mem && s'.lock == NextLock(s, c, cl.pc)
            && s'.cls[c].pc == e.pc && s'.cls[c].call == cl.call
            && (s'.cls[c].ref <==> if e.lin && (cl.call.IncrRef? || cl.call.DecrRef?) then cl.call.IncrRef? else cl.ref)
  {
    s' := Do(cfg, s, Step(c));
  }

  lemma Store(cfg: Config, P: State -> bool, s: State, c: nat) returns (s': State)
    requires Closed(cfg, P) && P(s) && s.lock.None? && c in s.cls && s.cls[c].pc.Acq? && s.cls[c].call.IncrRef?
    ensures P(s') && OnlyMoved(s, s', c) && s'.mem == s.mem.(refs := s.mem.refs + 1)
    ensures s'.cls[c].pc.Unlock? && s'.cls[c].call.IncrRef? && s'.cls[c].ref
  {
    s' := ToRefWrite(cfg, P, s, c);
    s' := Advance(cfg, P, s', c);
  }

  lemma ToRefWrite(cfg: Config, P: State -> bool, s: State, c: nat) returns (s': State)
    requires Closed(cfg, P) && P(s) && s.lock.None? && c in s.cls && s.cls[c].pc.Acq? && s.cls[c].call.IncrRef?
    ensures P(s') && OnlyMoved(s, s', c) && s'.mem == s.mem
    ensures s'.cls[c].pc == RefWrite(s.mem.refs) && s'.cls[c].call.IncrRef?
  {
    hide StepDecr, StepRsvGrp, StepRlsGrp, StepRsvAtt, StepRlsAtt, StepMixed, StepAttr, Closed;
    s' := Advance(cfg, P, s, c);
    s' := Advance(cfg, P, s', c);
    s' := Advance(cfg, P, s', c);
  }

  lemma Leave(cfg: Config, P: State -> bool, s: State, c: nat) returns (s': State)
    requires Closed(cfg, P) && P(s) && c in s.cls && s.cls[c].pc.Unlock? && s.cls[c].call.IncrRef?
    ensures P(s') && s'.lock.None? && OnlyMoved(s, s', c) && s'.mem == s.mem
    ensures s'.cls[c].pc.Idle? && s'.cls[c].ref == s.cls[c].ref
  {
    hide InnerStep, Closed;
    s' := Advance(cfg, P, s, c);
    s' := Advance(cfg, P, s', c);
  }

  lemma TakeRef(cfg: Config, P: State -> bool, s: State, c: nat) returns (s': State)
    requires Closed(cfg, P) && P(s) && s.lock.None? && c in s.cls && s.cls[c].pc.Idle? && !s.cls[c].ref
    ensures P(s') && s'.lock.None? && OnlyMoved(s, s', c)
    ensures s'.cls[c].pc.Idle? && s'.cls[c].ref && s'.mem == s.mem.(refs := s.mem.refs + 1)
  {
    s' := Begin(cfg, P, s, c, IncrRef);
    s' := Store(cfg, P, s', c);
    s' := Leave(cfg, P, s', c);
  }

  lemma ToCheck(cfg: Config, P: State -> bool, s: State, c: nat, req: seq<int>) returns (s': State)
    requires |req| == 1 && !Noop(L1p, req)
    requires Closed(cfg, P) && P(s) && c in s.cls && s.cls[c].pc.Idle? && s.cls[c].ref
    ensures P(s') && s'.lock == s.lock && s'.mem == s.mem && OnlyMoved(s, s', c)
    ensures s'.cls[c].pc.Check? && s'.cls[c].call == RsvAttr(L1p, req) && s'.cls[c].ref == s.cls[c].ref
  {
    s' := Begin(cfg, P, s, c, RsvAttr(L1p, req));
    s' := Advance(cfg, P, s', c);
  }

  lemma ToLocked(cfg: Config, P: State -> bool, s: State, c: nat, req: seq<int>) returns (s': State)
    requires |req| == 1 && Has(L1p) !in s.mem.alloc
    requires Closed(cfg, P) && P(s) && s.lock.None? && c in s.cls
    requires s.cls[c].pc.Check? && s.cls[c].call == RsvAttr(L1p, req)
    ensures P(s') && OnlyMoved(s, s', c) && s'.mem == s.mem && s'.lock == Some(c)
    ensures s'.cls[c].pc.Locked? && s'.cls[c].call == RsvAttr(L1p, req) && s'.cls[c].ref == s.cls[c].ref
  {
    s' := Advance(cfg, P, s, c);
    s' := Advance(cfg, P, s', c);
  }

  /** The steps of a reservation up to the flag. */
  lemma ModeFlags(cfg: Config, mem: Core, t: Thread, req: seq<int>, bits: set<Bit>)
    requires cfg.l1pFlagFirst && |req| == 1
    ensures Has(L1p) !in mem.alloc ==>
            Micro(cfg, mem, t, RsvAttr(L1p, req), Locked) == Eff(mem, BitsRead(Has(L1p)), false)
    ensures Micro(cfg, mem, t, RsvAttr(L1p, req), BitsRead(Has(L1p))) == Eff(mem, BitsWrite(mem.alloc, Has(L1p)), false)
    ensures Micro(cfg, mem, t, RsvAttr(L1p, req), BitsWrite(bits, Has(L1p)))
            == Eff(mem.(alloc := bits + {Has(L1p)}), ValWrite(0), true)
  {
  }

  lemma ToFlag(cfg: Config, P: State -> bool, s: State, c: nat, req: seq<int>) returns (s': State)
    requires cfg.l1pFlagFirst && |req| == 1 && Has(L1p) !in s.mem.alloc
    requires Closed(cfg, P) && P(s) && s.lock == Some(c) && c in s.cls
    requires s.cls[c].pc.Locked? && s.cls[c].call == RsvAttr(L1p, req)
    ensures P(s') && OnlyMoved(s, s', c) && s'.mem == s.mem && s'.lock == Some(c)
    ensures s'.cls[c].pc == BitsWrite(s.mem.alloc, Has(L1p)) && s'.cls[c].call == RsvAttr(L1p, req)
    ensures s'.cls[c].ref == s.cls[c].ref
  {
    hide Micro, Closed;
    ModeFlags(cfg, s.mem, s.cls[c].t, req, {});
    s' := Advance(cfg, P, s, c);
    ModeFlags(cfg, s'.mem, s'.cls[c].t, req, {});
    s' := Advance(cfg, P, s', c);
  }

  lemma ToWindow(cfg: Config, P: State -> bool, s: State, c: nat, req: seq<int>) returns (s': State)
    requires cfg.l1pFlagFirst && |req| == 1 && Has(L1p) !in s.mem.alloc
    requires Closed(cfg, P) && P(s) && s.lock.None? && c in s.cls
    requires s.cls[c].pc.Check? && s.cls[c].call == RsvAttr(L1p, req)
    ensures P(s') && OnlyMoved(s, s', c) && Window(s') && Winning(s') == req
    ensures s'.lock == Some(c) && s'.cls[c].pc == ValWrite(0) && s'.cls[c].call == RsvAttr(L1p, req)
    ensures s'.cls[c].ref == s.cls[c].ref
    ensures Has(L1p) in s'.mem.alloc && s'.mem.vals == s.mem.vals && s'.mem.refs == s.mem.refs
  {
    hide Micro, Closed;
    s' := ToLocked(cfg, P, s, c, req);
    s' := ToFlag(cfg, P, s', c, req);
    s' := FlagSet(cfg, P, s', c, req);
  }

  lemma FlagSet(cfg: Config, P: State -> bool, s: State, c: nat, req: seq<int>) returns (s': State)
    requires cfg.l1pFlagFirst && |req| == 1 && Closed(cfg, P) && P(s) && c in s.cls
    requires s.cls[c].pc == BitsWrite(s.mem.alloc, Has(L1p)) && s.cls[c].call == RsvAttr(L1p, req)
    ensures P(s') && OnlyMoved(s, s', c) && s'.lock == s.lock
    ensures s'.cls[c].pc == ValWrite(0) && s'.cls[c].call == RsvAttr(L1p, req) && s'.cls[c].ref == s.cls[c].ref
    ensures Has(L1p) in s'.mem.alloc && s'.mem.vals == s.mem.vals && s'.mem.refs == s.mem.refs
  {
    hide Micro, Closed;
    ModeFlags(cfg, s.mem, s.cls[c].t, req, s.mem.alloc);
    s' := Advance(cfg, P, s, c);
  }

  // ----- the two runs -----

  /** The last call to return was client c's request for L1p mode req: it was told `res`, and the indivisible call
      answers `lin`. */
  ghost predicate Told(s: State, c: nat, req: seq<int>, res: bool, lin: bool) {
    && s.hist != [] && |req| == 1
    && var d := s.hist[|s.hist| - 1];
       && d.client == c && d.call == RsvAttr(L1p, req) && d.res == res && d.at < |s.log|
       && s.log[d.at].client == c && s.log[d.at].call == RsvAttr(L1p, req) && s.log[d.at].res == lin
  }

  lemma Returns(cfg: Config, s: State, c: nat, req: seq<int>, lin: bool)
    requires Inv(cfg, s) && c in s.cls && s.cls[c].pc.Ret? && s.cls[c].lin == Some(lin)
    requires |req| == 1 && s.cls[c].call == RsvAttr(L1p, req)
    ensures Enabled(s, Step(c)) && Told(Do(cfg, s, Step(c)), c, req, s.cls[c].pc.res, lin)
    ensures OnlyMoved(s, Do(cfg, s, Step(c)), c)
  {
    hide Inv, Micro, NextClient, NextAbs, Result;
    ClientLogged(cfg, s, c);
    ReturnsIdle(cfg, s.mem, s.abs, |s.log|, s.cls[c]);
  }

  /** Run to its return, the call is told what the cell says; the log has what the winning mode says. */
  lemma ToldFromCell(cfg: Config, s: State, c: nat, req: seq<int>) returns (acts: seq<Action>)
    requires Reachable(cfg, s) && Comparing(s, c) && |req| == 1 && s.cls[c].call == RsvAttr(L1p, req)
    ensures IsRun(cfg, s, acts) && OnlyMoved(s, Exec(cfg, s, acts), c)
    ensures Told(Exec(cfg, s, acts), c, req, s.mem.vals[L1p] == req, Winning(s) == req)
  {
    ReachableInv(cfg, s);
    WinningIsFixed(cfg, s);
    var run := AnswersFromCell(cfg, s, c);
    RunKeeps(cfg, s, run);
    Returns(cfg, Exec(cfg, s, run), c, req, Winning(s) == req);
    SnocRun(cfg, s, run, Step(c));
    acts := run + [Step(c)];
  }

  /** Some run leads from s0 to s. */
  ghost predicate RunTo(cfg: Config, s0: State, s: State) {
    exists acts :: IsRun(cfg, s0, acts) && Exec(cfg, s0, acts) == s
  }

  lemma RunToClosed(cfg: Config, s0: State)
    ensures Closed(cfg, s => RunTo(cfg, s0, s)) && RunTo(cfg, s0, s0)
  {
    forall s, act | RunTo(cfg, s0, s) && Enabled(s, act)
      ensures RunTo(cfg, s0, Do(cfg, s, act))
    {
      var acts :| IsRun(cfg, s0, acts) && Exec(cfg, s0, acts) == s;
      SnocRun(cfg, s0, acts, act);
    }
    assert IsRun(cfg, s0, []) && Exec(cfg, s0, []) == s0;
  }

  lemma {:induction false} RunOn(cfg: Config, s0: State, xs: seq<Action>, ys: seq<Action>)
    requires IsRun(cfg, s0, xs) && IsRun(cfg, Exec(cfg, s0, xs), ys)
    ensures IsRun(cfg, s0, xs + ys) && Exec(cfg, s0, xs + ys) == Exec(cfg, Exec(cfg, s0, xs), ys)
    decreases |xs|
  {
    if xs == [] {
      assert xs + ys == ys;
    } else {
      RunOn(cfg, Do(cfg, s0, xs[0]), xs[1..], ys);
      ConsRun(cfg, s0, xs[0], xs[1..] + ys);
      assert [xs[0]] + (xs[1..] + ys) == xs + ys;
    }
  }

  /** A run from s0 to s, and on until client 1 has its answer. */
  lemma WholeRun(cfg: Config, s0: State, s: State, req: seq<int>) returns (acts: seq<Action>)
    requires Init(s0) && RunTo(cfg, s0, s) && Comparing(s, 1) && |req| == 1 && s.cls[1].call == RsvAttr(L1p, req)
    ensures IsRun(cfg, s0, acts) && OnlyMoved(s, Exec(cfg, s0, acts), 1)
    ensures Told(Exec(cfg, s0, acts), 1, req, s.mem.vals[L1p] == req, Winning(s) == req)
  {
    var xs :| IsRun(cfg, s0, xs) && Exec(cfg, s0, xs) == s;
    assert Reachable(cfg, s);
    var ys := ToldFromCell(cfg, s, 1, req);
    RunOn(cfg, s0, xs, ys);
    acts := xs + ys;
  }

  /** Both clients in a call, client 0 between its two stores. */
  lemma Race(cfg: Config, P: State -> bool, s: State, mine: seq<int>, yours: seq<int>) returns (s': State)
    requires cfg.l1pFlagFirst && |mine| == |yours| == 1 && !Noop(L1p, mine) && !Noop(L1p, yours)
    requires Closed(cfg, P) && P(s) && s.lock.None? && 0 in s.cls && 1 in s.cls && Has(L1p) !in s.mem.alloc
    requires forall c | c == 0 || c == 1 :: s.cls[c].pc.Idle? && !s.cls[c].ref
    ensures P(s') && Comparing(s', 1) && s'.cls[1].call == RsvAttr(L1p, yours) && s'.mem.vals == s.mem.vals
    ensures 0 in s'.cls && s'.cls[0].call == RsvAttr(L1p, mine) && s'.cls[0].pc.ValWrite? && Winning(s') == mine
  {
    s' := TakeRef(cfg, P, s, 0);
    s' := TakeRef(cfg, P, s', 1);
    s' := ToCheck(cfg, P, s', 0, mine);
    s' := ToCheck(cfg, P, s', 1, yours);
    s' := ToWindow(cfg, P, s', 0, mine);
  }

  /** A run in which both clients ask for mode 8 of a fresh record and the second is told it cannot have it, while
      the first, which wins it, has still to store it. */
  lemma SameModeRefused(cfg: Config, s0: State) returns (acts: seq<Action>)
    requires cfg.l1pFlagFirst && Init(s0) && 0 in s0.cls && 1 in s0.cls
    ensures IsRun(cfg, s0, acts)
    ensures var s := Exec(cfg, s0, acts);
            && Told(s, 1, [8], false, true)
            && 0 in s.cls && s.cls[0].call == RsvAttr(L1p, [8]) && s.cls[0].pc.ValWrite?
  {
    RunToClosed(cfg, s0);
    var s := Race(cfg, s => RunTo(cfg, s0, s), s0, [8], [8]);
    assert s.mem.vals[L1p] == Cleared(L1p);
    acts := WholeRun(cfg, s0, s, [8]);
  }

  // ----- the other way round: a mode left over from an earlier session -----

  lemma ModeStores(cfg: Config, mem: Core, t: Thread, req: seq<int>)
    requires cfg.l1pFlagFirst && |req| == 1
    ensures Micro(cfg, mem, t, RsvAttr(L1p, req), ValWrite(0))
            == Eff(mem.(vals := mem.vals[L1p := req]), Unlock(true), false)
    ensures Micro(cfg, mem, t, RsvAttr(L1p, req), Unlock(true)) == Eff(mem, Cmp(0), false)
  {
    assert mem.vals[L1p][0 := req[0]] == req;
  }

  lemma StoreMode(cfg: Config, P: State -> bool, s: State, c: nat, req: seq<int>) returns (s': State)
    requires cfg.l1pFlagFirst && |req| == 1 && Closed(cfg, P) && P(s) && c in s.cls && s.lock == Some(c)
    requires s.cls[c].pc == ValWrite(0) && s.cls[c].call == RsvAttr(L1p, req)
    ensures P(s') && OnlyMoved(s, s', c) && s'.lock.None? && s'.mem.vals[L1p] == req && s'.mem.refs == s.mem.refs
    ensures s'.cls[c].pc == Cmp(0) && s'.cls[c].call == RsvAttr(L1p, req) && s'.cls[c].ref == s.cls[c].ref
  {
    hide Micro, Closed;
    ModeStores(cfg, s.mem, s.cls[c].t, req);
    s' := Advance(cfg, P, s, c);
    ModeStores(cfg, s'.mem, s'.cls[c].t, req);
    s' := Advance(cfg, P, s', c);
  }

  lemma EndCompare(cfg: Config, P: State -> bool, s: State, c: nat, req: seq<int>) returns (s': State)
    requires |req| == 1 && Closed(cfg, P) && P(s) && c in s.cls && s.mem.vals[L1p] == req
    requires s.cls[c].pc == Cmp(0) && s.cls[c].call == RsvAttr(L1p, req)
    ensures P(s') && OnlyMoved(s, s', c) && s'.lock == s.lock && s'.mem == s.mem
    ensures s'.cls[c].pc.Idle? && s'.cls[c].ref == s.cls[c].ref
  {
    hide Micro, Closed;
    ModeCompares(cfg, s.mem, s.cls[c].t, req);
    s' := Advance(cfg, P, s, c);
    ModeCompares(cfg, s'.mem, s'.cls[c].t, req);
    s' := Advance(cfg, P, s', c);
    ReturnsIdle(cfg, s'.mem, s'.abs, 0, s'.cls[c]);
    s' := Advance(cfg, P, s', c);
  }

  /** A whole reservation, alone. */
  lemma Reserve(cfg: Config, P: State -> bool, s: State, c: nat, req: seq<int>) returns (s': State)
    requires cfg.l1pFlagFirst && |req| == 1 && !Noop(L1p, req) && Has(L1p) !in s.mem.alloc
    requires Closed(cfg, P) && P(s) && s.lock.None? && c in s.cls && s.cls[c].pc.Idle? && s.cls[c].ref
    ensures P(s') && OnlyMoved(s, s', c) && s'.lock.None? && s'.mem.vals[L1p] == req && s'.mem.refs == s.mem.refs
    ensures s'.cls[c].pc.Idle? && s'.cls[c].ref
  {
    s' := ToCheck(cfg, P, s, c, req);
    s' := ToWindow(cfg, P, s', c, req);
    s' := StoreMode(cfg, P, s', c, req);
    s' := EndCompare(cfg, P, s', c, req);
  }

  lemma DropToWrite(cfg: Config, P: State -> bool, s: State, c: nat) returns (s': State)
    requires Closed(cfg, P) && P(s) && s.lock.None? && c in s.cls && s.cls[c].pc.Acq? && s.cls[c].call.DecrRef?
    ensures P(s') && OnlyMoved(s, s', c) && s'.lock == Some(c) && s'.mem == s.mem
    ensures s'.cls[c].pc == RefWrite(s.mem.refs) && s'.cls[c].call.DecrRef?
  {
    hide StepIncr, StepRsvGrp, StepRlsGrp, StepRsvAtt, StepRlsAtt, StepMixed, StepAttr, Closed;
    s' := Advance(cfg, P, s, c);
    s' := Advance(cfg, P, s', c);
    s' := Advance(cfg, P, s', c);
  }

  lemma DropClears(cfg: Config, P: State -> bool, s: State, c: nat) returns (s': State)
    requires Closed(cfg, P) && P(s) && c in s.cls && s.cls[c].pc == RefWrite(1) && s.cls[c].call.DecrRef?
    ensures P(s') && OnlyMoved(s, s', c) && s'.lock == s.lock && s'.mem.alloc == {} && s'.mem.vals == s.mem.vals
    ensures s'.cls[c].pc == ZeroCheck(0) && s'.cls[c].call.DecrRef? && !s'.cls[c].ref
  {
    hide StepIncr, StepRsvGrp, StepRlsGrp, StepRsvAtt, StepRlsAtt, StepMixed, StepAttr, Closed;
    s' := Advance(cfg, P, s, c);
    s' := Advance(cfg, P, s', c);
  }

  lemma {:induction false} DropZeroes(cfg: Config, P: State -> bool, s: State, c: nat, i: nat) returns (s': State)
    requires Closed(cfg, P) && P(s) && c in s.cls && i <= 4 && s.cls[c].pc == ZeroCheck(i) && s.cls[c].call.DecrRef?
    ensures P(s') && OnlyMoved(s, s', c) && s'.lock == s.lock
    ensures s'.mem.alloc == s.mem.alloc && s'.mem.vals == s.mem.vals
    ensures s'.cls[c].pc == Unlock(true) && s'.cls[c].call.DecrRef? && s'.cls[c].ref == s.cls[c].ref
    decreases 4 - i
  {
    hide StepIncr, StepRsvGrp, StepRlsGrp, StepRsvAtt, StepRlsAtt, StepMixed, StepAttr, Closed;
    s' := Advance(cfg, P, s, c);
    if i < 4 {
      s' := Advance(cfg, P, s', c);
      s' := DropZeroes(cfg, P, s', c, i + 1);
    }
  }

  lemma DropLeaves(cfg: Config, P: State -> bool, s: State, c: nat) returns (s': State)
    requires Closed(cfg, P) && P(s) && c in s.cls && s.cls[c].pc == Unlock(true) && s.cls[c].call.DecrRef?
    ensures P(s') && OnlyMoved(s, s', c) && s'.lock.None? && s'.mem == s.mem
    ensures s'.cls[c].pc.Idle? && s'.cls[c].ref == s.cls[c].ref
  {
    hide InnerStep, Closed;
    s' := Advance(cfg, P, s, c);
    s' := Advance(cfg, P, s', c);
  }

  /** The last reference is given up: the flag goes, the value stays. */
  lemma DropLast(cfg: Config, P: State -> bool, s: State, c: nat) returns (s': State)
    requires Closed(cfg, P) && P(s) && s.lock.None? && s.mem.refs == 1 && c in s.cls
    requires s.cls[c].pc.Idle? && Permits(s.cls[c], DecrRef)
    ensures P(s') && OnlyMoved(s, s', c) && s'.lock.None? && s'.mem.alloc == {} && s'.mem.vals == s.mem.vals
    ensures s'.cls[c].pc.Idle? && !s'.cls[c].ref
  {
    s' := Begin(cfg, P, s, c, DecrRef);
    s' := DropToWrite(cfg, P, s', c);
    s' := DropClears(cfg, P, s', c);
    s' := DropZeroes(cfg, P, s', c, 0);
    s' := DropLeaves(cfg, P, s', c);
  }

  /** A session that leaves mode 8 behind in the value cell. */
  lemma Leftover(cfg: Config, P: State -> bool, s: State) returns (s': State)
    requires cfg.l1pFlagFirst && Closed(cfg, P) && P(s) && Init(s) && 0 in s.cls && 1 in s.cls
    ensures P(s') && OnlyMoved(s, s', 0) && s'.lock.None? && s'.mem.alloc == {} && s'.mem.vals[L1p] == [8]
    ensures s'.cls[0].pc.Idle? && !s'.cls[0].ref
  {
    s' := TakeRef(cfg, P, s, 0);
    s' := Reserve(cfg, P, s', 0, [8]);
    s' := DropLast(cfg, P, s', 0);
  }

  /** A run in which the second client asks for mode 8 and is told it has it, while the first has won mode 7. */
  lemma WrongModeGranted(cfg: Config, s0: State) returns (acts: seq<Action>)
    requires cfg.l1pFlagFirst && Init(s0) && 0 in s0.cls && 1 in s0.cls
    ensures IsRun(cfg, s0, acts)
    ensures var s := Exec(cfg, s0, acts);
            && Told(s, 1, [8], true, false)
            && 0 in s.cls && s.cls[0].call == RsvAttr(L1p, [7]) && s.cls[0].pc.ValWrite?
  {
    RunToClosed(cfg, s0);
    var s := Leftover(cfg, s => RunTo(cfg, s0, s), s0);
    s := Race(cfg, s => RunTo(cfg, s0, s), s, [7], [8]);
    acts := WholeRun(cfg, s0, s, [8]);
  }
}
