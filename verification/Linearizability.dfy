/** Every run keeps one invariant, and its log is a linearization of the calls it returned. */
module Linearizability {
  import opened CoreRecord
  import opened Protocol
  import opened Invariants
  import opened Sessions

  /** The record after the logged calls, taken as indivisible, one after another. */
  ghost function Replay(env: int -> int, log: seq<Event>): Core {
    if log == [] then Zero()
    else
      var e := log[|log| - 1];
      After(env, Replay(env, log[..|log| - 1]), e.t, e.call)
  }

  /** A legal sequential history: every entry has the answer of the indivisible call and meets its asserts. */
  ghost predicate Legal(env: int -> int, log: seq<Event>) {
    log == [] ||
    var p, e := log[..|log| - 1], log[|log| - 1];
    && Legal(env, p)
    && e.res == Result(env, Replay(env, p), e.t, e.call)
    && Allowed(Replay(env, p), e.t, e.call)
  }

  /** Entry k is the only one of client c from position `from` on. */
  ghost predicate Only(log: seq<Event>, c: nat, from: nat, upto: nat, at: nat) {
    && from <= at < upto <= |log|
    && log[at].client == c
    && forall k | from <= k < upto && log[k].client == c :: k == at
  }

  /** A returned call has exactly one entry between call and return, with the answer it returned. */
  ghost predicate DoneOk(cfg: Config, log: seq<Event>, d: Done) {
    && Only(log, d.client, d.from, d.upto, d.at)
    && log[d.at].call == d.call
    && (log[d.at].res == d.res || Exempt(cfg, d.call))
  }

  ghost predicate ClientLog(log: seq<Event>, c: nat, cl: Client) {
    && cl.from <= |log|
    && match cl.lin
       case None => forall k | cl.from <= k < |log| :: log[k].client != c
       case Some(res) => Only(log, c, cl.from, |log|, cl.at) && log[cl.at] == Event(c, cl.t, cl.call, res)
  }

  ghost predicate Listed(hist: seq<Done>, k: nat) {
    exists i :: 0 <= i < |hist| && hist[i].at == k
  }

  ghost predicate Pending(cls: map<nat, Client>, log: seq<Event>, k: nat)
    requires k < |log|
  {
    var c := log[k].client;
    c in cls && !cls[c].pc.Idle? && cls[c].lin.Some? && cls[c].at == k
  }

  /** The log against the calls: returned calls of a client follow one another, and no entry belongs to no call. */
  ghost predicate Logged(cfg: Config, cls: map<nat, Client>, log: seq<Event>, hist: seq<Done>) {
    && (forall c | c in cls && !cls[c].pc.Idle? :: ClientLog(log, c, cls[c]))
    && (forall i | 0 <= i < |hist| :: DoneOk(cfg, log, hist[i]))
    && (forall i, j | 0 <= i < j < |hist| && hist[i].client == hist[j].client :: hist[i].upto <= hist[j].from)
    && (forall i | 0 <= i < |hist| && hist[i].client in cls && !cls[hist[i].client].pc.Idle? ::
          hist[i].upto <= cls[hist[i].client].from)
    && (forall k: nat | k < |log| :: Listed(hist, k) || Pending(cls, log, k))
  }

  ghost predicate LogInv(cfg: Config, s: State) {
    s.abs == Replay(cfg.env, s.log) && Legal(cfg.env, s.log) && Logged(cfg, s.cls, s.log, s.hist)
  }

  ghost predicate LockInv(s: State) {
    && (forall c | c in s.cls :: Crit(s.cls[c].pc) <==> s.lock == Some(c))
    && (s.lock.Some? ==> s.lock.value in s.cls)
  }

  ghost predicate MemInv(cfg: Config, s: State) {
    if s.lock.Some? then s.lock.value in s.cls && Rel(cfg, s.mem, s.abs, s.cls[s.lock.value]) else s.mem == s.abs
  }

  ghost predicate StateInv(cfg: Config, s: State) {
    && AbsInv(s.abs) && LockInv(s) && MemInv(cfg, s)
    && CountInv(s.abs, s.cls) && AttachInv(s.abs, s.cls)
    && (forall c | c in s.cls :: PcOk(cfg, s.abs, s.cls[c]))
  }

  ghost predicate Inv(cfg: Config, s: State) {
    StateInv(cfg, s) && LogInv(cfg, s)
  }

  lemma AnyoneSees(cfg: Config, s: State)
    requires StateInv(cfg, s)
    ensures Seen(cfg, s.mem, s.abs)
  {
    if s.lock.Some? {
      HoldingsBacked(s.abs, s.cls, s.lock.value);
      RelSeen(cfg, s.mem, s.abs, s.cls[s.lock.value]);
    }
  }

  /** What holds of one client. */
  lemma ClientOk(cfg: Config, s: State, c: nat)
    requires Inv(cfg, s) && c in s.cls
    ensures PcOk(cfg, s.abs, s.cls[c])
    ensures Crit(s.cls[c].pc) || s.lock == Some(c) ==> Rel(cfg, s.mem, s.abs, s.cls[c])
  {
    hide PcOk, Rel, AbsInv, CountInv, AttachInv, LogInv, Crit;
  }

  lemma ClientBacked(cfg: Config, s: State, c: nat)
    requires Inv(cfg, s) && c in s.cls
    ensures Backed(s.abs, s.cls[c])
  {
    hide PcOk, AbsInv, LockInv, MemInv, CountInv, AttachInv, LogInv, Backed;
    HoldingsBacked(s.abs, s.cls, c);
  }

  lemma ClientLogged(cfg: Config, s: State, c: nat)
    requires Inv(cfg, s) && c in s.cls && !s.cls[c].pc.Idle?
    ensures ClientLog(s.log, c, s.cls[c])
  {
    hide StateInv, ClientLog;
  }

  lemma Seeing(cfg: Config, s: State)
    requires Inv(cfg, s)
    ensures Seen(cfg, s.mem, s.abs) && AbsInv(s.abs)
  {
    hide PcOk, AbsInv, LockInv, MemInv, CountInv, AttachInv, LogInv, Seen;
    AnyoneSees(cfg, s);
  }

  lemma StepLocal(cfg: Config, s: State, c: nat, e: Eff, abs': Core, cl': Client)
    requires StateInv(cfg, s) && Enabled(s, Step(c)) && Stepped(cfg, s.mem, s.abs, |s.log|, s.cls[c], e, abs', cl')
    ensures LocalPost(cfg, s.mem, s.abs, s.cls[c], e, abs', cl')
    ensures Backed(s.abs, s.cls[c])
  {
    var cl, n := s.cls[c], |s.log|;
    hide Stepped, LocalPost, AbsInv, Backed, Seen, PcOk, Rel, CountInv, AttachInv;
    HoldingsBacked(s.abs, s.cls, c);
    AnyoneSees(cfg, s);
    LocalStep(cfg, s.mem, s.abs, n, cl, e, abs', cl');
  }

  /** Attributes that are fixed stay fixed with the same value. */
  ghost predicate Fixed(abs: Core, abs': Core) {
    forall a: Attr | Has(a) in abs.alloc :: Has(a) in abs'.alloc && abs'.vals[a] == abs.vals[a]
  }

  /** Only the DecrRef of the last reference undoes an attribute. */
  lemma FixedUntilReset(env: int -> int, abs: Core, t: Thread, call: Call)
    requires !(call.DecrRef? && abs.refs == 1)
    ensures Fixed(abs, After(env, abs, t, call))
  {
  }

  lemma PcStable(cfg: Config, abs: Core, abs': Core, o: Client)
    requires PcOk(cfg, abs, o) && !Crit(o.pc)
    requires o.ref ==> Fixed(abs, abs')
    ensures PcOk(cfg, abs', o)
  {
  }

  /** What holds at a client's program point survives another client's step. */
  lemma OthersKept(cfg: Config, s: State, c: nat, d: nat, e: Eff, abs': Core, cl': Client)
    requires StateInv(cfg, s) && Enabled(s, Step(c)) && d in s.cls && d != c
    requires Stepped(cfg, s.mem, s.abs, |s.log|, s.cls[c], e, abs', cl')
    requires LocalPost(cfg, s.mem, s.abs, s.cls[c], e, abs', cl')
    ensures PcOk(cfg, abs', s.cls[d])
  {
    var cl, o := s.cls[c], s.cls[d];
    if abs' != s.abs {
      assert Crit(cl.pc) && !Crit(o.pc);
      if o.ref {
        if cl.call.DecrRef? && s.abs.refs == 1 {
          assert c in Refs(s.cls) && d in Refs(s.cls);
          Sole(Refs(s.cls), c);
          assert false;
        }
        FixedUntilReset(cfg.env, s.abs, cl.t, cl.call);
      }
      PcStable(cfg, s.abs, abs', o);
    }
  }

  lemma HoldingsKept(cfg: Config, s: State, c: nat, e: Eff, abs': Core, cl': Client)
    requires StateInv(cfg, s) && Enabled(s, Step(c)) && Backed(s.abs, s.cls[c])
    requires Stepped(cfg, s.mem, s.abs, |s.log|, s.cls[c], e, abs', cl')
    requires LocalPost(cfg, s.mem, s.abs, s.cls[c], e, abs', cl')
    ensures AbsInv(abs') && CountInv(abs', s.cls[c := cl']) && AttachInv(abs', s.cls[c := cl'])
  {
    var cl := s.cls[c];
    if e.lin {
      assert PcOk(cfg, s.abs, cl);
      AfterKeeps(cfg.env, s.abs, cl);
      CountKept(cfg.env, s.abs, s.cls, c, cl');
      AttachKept(cfg.env, s.abs, s.cls, c, cl');
    } else {
      SameHoldings(s.abs, s.cls, c, cl');
    }
  }

  lemma LockMemKept(cfg: Config, s: State, c: nat, e: Eff, abs': Core, cl': Client, s': State)
    requires LockInv(s) && MemInv(cfg, s) && Enabled(s, Step(c))
    requires LocalPost(cfg, s.mem, s.abs, s.cls[c], e, abs', cl')
    requires s'.mem == e.mem && s'.lock == NextLock(s, c, s.cls[c].pc) && s'.cls == s.cls[c := cl'] && s'.abs == abs'
    ensures LockInv(s') && MemInv(cfg, s')
  {
  }

  lemma StepKeepsState(cfg: Config, s: State, c: nat)
    requires StateInv(cfg, s) && Enabled(s, Step(c))
    ensures StateInv(cfg, DoStep(cfg, s, c))
  {
    var cl := s.cls[c];
    var e := Micro(cfg, s.mem, cl.t, cl.call, cl.pc);
    var abs', cl' := NextAbs(cfg, s.mem, s.abs, cl), NextClient(cfg, s.mem, s.abs, |s.log|, cl);
    var s' := DoStep(cfg, s, c);
    hide Micro, NextAbs, NextClient, Result, LocalPost, PcOk, AbsInv, LockInv, MemInv, CountInv, AttachInv, Backed;
    StepLocal(cfg, s, c, e, abs', cl');
    HoldingsKept(cfg, s, c, e, abs', cl');
    forall d | d in s'.cls ensures PcOk(cfg, s'.abs, s'.cls[d]) {
      if d != c { OthersKept(cfg, s, c, d, e, abs', cl'); }
    }
    LockMemKept(cfg, s, c, e, abs', cl', s');
  }

  /** A call takes effect: its entry is appended. */
  lemma LogAppended(cfg: Config, cls: map<nat, Client>, log: seq<Event>, hist: seq<Done>, c: nat, cl: Client, res: bool)
    requires Logged(cfg, cls, log, hist) && c in cls && !cls[c].pc.Idle? && cls[c].lin.None?
    requires !cl.pc.Idle? && cl.lin == Some(res) && cl.at == |log| && cl.from == cls[c].from
    ensures Logged(cfg, cls[c := cl], log + [Event(c, cl.t, cl.call, res)], hist)
  {
    var log', n := log + [Event(c, cl.t, cl.call, res)], |log|;
    var cls' := cls[c := cl];
    assert ClientLog(log, c, cls[c]);
    forall d | d in cls' && !cls'[d].pc.Idle? ensures ClientLog(log', d, cls'[d]) {
      if d != c { assert ClientLog(log, d, cls[d]); }
    }
    forall i | 0 <= i < |hist| ensures DoneOk(cfg, log', hist[i]) { assert DoneOk(cfg, log, hist[i]); }
    forall k: nat | k < n + 1 ensures Listed(hist, k) || Pending(cls', log', k) {
      if k < n { assert Listed(hist, k) || Pending(cls, log, k); }
    }
  }

  /** Calls go on. */
  lemma LogUntouched(cfg: Config, cls: map<nat, Client>, cls': map<nat, Client>, log: seq<Event>, hist: seq<Done>)
    requires Logged(cfg, cls, log, hist) && cls'.Keys == cls.Keys
    requires forall c | c in cls ::
               && cls'[c].pc.Idle? == cls[c].pc.Idle? && cls'[c].t == cls[c].t && cls'[c].call == cls[c].call
               && cls'[c].from == cls[c].from && cls'[c].at == cls[c].at && cls'[c].lin == cls[c].lin
    ensures Logged(cfg, cls', log, hist)
  {
    forall c | c in cls' && !cls'[c].pc.Idle? ensures ClientLog(log, c, cls'[c]) {
      assert ClientLog(log, c, cls[c]);
    }
    forall k: nat | k < |log| ensures Listed(hist, k) || Pending(cls', log, k) {
      assert Listed(hist, k) || Pending(cls, log, k);
    }
  }

  /** A call returns: it joins the returned calls. */
  lemma LogReturned(cfg: Config, cls: map<nat, Client>, log: seq<Event>, hist: seq<Done>, c: nat, cl: Client, d: Done)
    requires Logged(cfg, cls, log, hist) && c in cls && cls[c].pc.Ret? && cls[c].lin.Some?
    requires cls[c].pc.res == cls[c].lin.value || Exempt(cfg, cls[c].call)
    requires cl.pc.Idle?
    requires d == Done(c, cls[c].call, cls[c].from, cls[c].at, |log|, cls[c].pc.res)
    ensures Logged(cfg, cls[c := cl], log, hist + [d])
  {
    var cls', hist' := cls[c := cl], hist + [d];
    assert ClientLog(log, c, cls[c]);
    assert DoneOk(cfg, log, d);
    forall k: nat | k < |log| ensures Listed(hist', k) || Pending(cls', log, k) {
      if Listed(hist, k) {
        var i :| 0 <= i < |hist| && hist[i].at == k;
        assert hist'[i].at == k;
      } else {
        assert Pending(cls, log, k);
        if log[k].client == c { assert hist'[|hist|].at == k; }
      }
    }
  }

  /** What the log needs to know of a step. */
  ghost predicate Shape(cfg: Config, mem: Core, abs: Core, cl: Client) {
    var e := Micro(cfg, mem, cl.t, cl.call, cl.pc);
    && !cl.pc.Idle?
    && (e.lin ==> cl.lin.None? && Allowed(abs, cl.t, cl.call))
    && (e.pc.Idle? <==> cl.pc.Ret?)
    && (cl.pc.Ret? ==> !e.lin && cl.lin.Some? && (cl.pc.res == cl.lin.value || Exempt(cfg, cl.call)))
  }

  lemma ShapeFrom(cfg: Config, mem: Core, abs: Core, n: nat, cl: Client, e: Eff, abs': Core, cl': Client)
    requires PcOk(cfg, abs, cl) && Stepped(cfg, mem, abs, n, cl, e, abs', cl')
    requires LocalPost(cfg, mem, abs, cl, e, abs', cl')
    requires !cl.pc.Idle?
    ensures Shape(cfg, mem, abs, cl)
  {
  }

  lemma StepShape(cfg: Config, s: State, c: nat)
    requires StateInv(cfg, s) && Enabled(s, Step(c))
    ensures Shape(cfg, s.mem, s.abs, s.cls[c])
  {
    var cl := s.cls[c];
    var e := Micro(cfg, s.mem, cl.t, cl.call, cl.pc);
    var abs', cl' := NextAbs(cfg, s.mem, s.abs, cl), NextClient(cfg, s.mem, s.abs, |s.log|, cl);
    hide Micro, NextAbs, NextClient, LocalPost, PcOk, Shape;
    StepLocal(cfg, s, c, e, abs', cl');
    ShapeFrom(cfg, s.mem, s.abs, |s.log|, cl, e, abs', cl');
  }

  lemma StepKeepsLog(cfg: Config, s: State, c: nat)
    requires LogInv(cfg, s) && c in s.cls && Shape(cfg, s.mem, s.abs, s.cls[c])
    ensures LogInv(cfg, DoStep(cfg, s, c))
  {
    hide Micro, Result, After, Logged, Exempt;
    var cl := s.cls[c];
    var cl' := NextClient(cfg, s.mem, s.abs, |s.log|, cl);
    if Micro(cfg, s.mem, cl.t, cl.call, cl.pc).lin {
      var res := Result(cfg.env, s.abs, cl.t, cl.call);
      LogAppended(cfg, s.cls, s.log, s.hist, c, cl', res);
      assert (s.log + [Event(c, cl.t, cl.call, res)])[..|s.log|] == s.log;
    } else if cl.pc.Ret? {
      LogReturned(cfg, s.cls, s.log, s.hist, c, cl', Done(c, cl.call, cl.from, cl.at, |s.log|, cl.pc.res));
    } else {
      LogUntouched(cfg, s.cls, s.cls[c := cl'], s.log, s.hist);
    }
  }

  /** A call begins. */
  lemma StartKeeps(cfg: Config, s: State, c: nat, call: Call)
    requires Inv(cfg, s) && Enabled(s, Start(c, call))
    ensures Inv(cfg, Do(cfg, s, Start(c, call)))
  {
    var cl := s.cls[c].(pc := FirstPc(call), call := call, from := |s.log|, lin := None);
    SameHoldings(s.abs, s.cls, c, cl);
    assert !Crit(cl.pc) && PcOk(cfg, s.abs, cl);
    LogStarted(cfg, s.cls, s.log, s.hist, c, cl);
  }

  lemma LogStarted(cfg: Config, cls: map<nat, Client>, log: seq<Event>, hist: seq<Done>, c: nat, cl: Client)
    requires Logged(cfg, cls, log, hist) && c in cls && cls[c].pc.Idle?
    requires cl.from == |log| && cl.lin.None?
    ensures Logged(cfg, cls[c := cl], log, hist)
  {
    forall k: nat | k < |log| ensures Listed(hist, k) || Pending(cls[c := cl], log, k) {
      assert Listed(hist, k) || Pending(cls, log, k);
    }
  }

  lemma HandoverKeepsState(cfg: Config, s: State, a: nat, b: nat)
    requires StateInv(cfg, s) && Enabled(s, Handover(a, b))
    ensures StateInv(cfg, Do(cfg, s, Handover(a, b)))
  {
    HandoverKept(s.abs, s.cls, a, b, s.cls[a].(es := false, att := None), s.cls[b].(es := true, att := s.cls[a].att));
    var s' := Do(cfg, s, Handover(a, b));
    forall c | c in s'.cls ensures PcOk(cfg, s'.abs, s'.cls[c]) { assert PcOk(cfg, s.abs, s.cls[c]); }
    assert forall c | c in s.cls && c != a && c != b :: s'.cls[c] == s.cls[c];
  }

  lemma HandoverKeepsLog(cfg: Config, s: State, a: nat, b: nat)
    requires LogInv(cfg, s) && Enabled(s, Handover(a, b))
    ensures LogInv(cfg, Do(cfg, s, Handover(a, b)))
  {
    LogUntouched(cfg, s.cls, Do(cfg, s, Handover(a, b)).cls, s.log, s.hist);
  }

  lemma DoKeeps(cfg: Config, s: State, act: Action)
    requires Inv(cfg, s) && Enabled(s, act)
    ensures Inv(cfg, Do(cfg, s, act))
  {
    match act
    case Start(c, call) => StartKeeps(cfg, s, c, call);
    case Step(c) =>
      StepKeepsState(cfg, s, c);
      StepShape(cfg, s, c);
      StepKeepsLog(cfg, s, c);
    case Handover(a, b) =>
      HandoverKeepsState(cfg, s, a, b);
      HandoverKeepsLog(cfg, s, a, b);
  }

  lemma InitInv(cfg: Config, s: State)
    requires Init(s)
    ensures Inv(cfg, s)
  {
    assert Refs(s.cls) == {};
    forall t: Thread ensures s.abs.cnt[t] == |Sets(s.cls, t)| { assert Sets(s.cls, t) == {}; }
  }

  /** The invariant holds along every run, for any number of clients. */
  lemma {:induction false} RunKeeps(cfg: Config, s: State, acts: seq<Action>)
    requires Inv(cfg, s) && IsRun(cfg, s, acts)
    ensures Inv(cfg, Exec(cfg, s, acts))
    decreases |acts|
  {
    if acts != [] {
      DoKeeps(cfg, s, acts[0]);
      RunKeeps(cfg, Do(cfg, s, acts[0]), acts[1..]);
    }
  }

  lemma ReachableInv(cfg: Config, s: State)
    requires Reachable(cfg, s)
    ensures Inv(cfg, s)
  {
    var s0, acts :| Init(s0) && IsRun(cfg, s0, acts) && Exec(cfg, s0, acts) == s;
    InitInv(cfg, s0);
    RunKeeps(cfg, s0, acts);
  }

  /** In every reachable state the log is a legal sequential history of the indivisible calls; every returned
      call has exactly one entry, placed between its call and its return and carrying the answer it returned
      (RsvL1pMode with its flag stored first excepted); different returned calls have different entries; every
      entry belongs to a returned call or one in progress; and with the lock free memory is what the log leaves. */
  lemma RunsAreLinearizable(cfg: Config, s: State)
    requires Reachable(cfg, s)
    ensures Legal(cfg.env, s.log)
    ensures forall i | 0 <= i < |s.hist| :: DoneOk(cfg, s.log, s.hist[i])
    ensures forall i, j | 0 <= i < j < |s.hist| :: s.hist[i].at != s.hist[j].at
    ensures forall k: nat | k < |s.log| :: Listed(s.hist, k) || Pending(s.cls, s.log, k)
    ensures s.lock.None? ==> s.mem == Replay(cfg.env, s.log)
  {
    ReachableInv(cfg, s);
    forall i, j | 0 <= i < j < |s.hist| ensures s.hist[i].at != s.hist[j].at {
      assert DoneOk(cfg, s.log, s.hist[i]) && DoneOk(cfg, s.log, s.hist[j]);
    }
  }
}
