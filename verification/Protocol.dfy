/** The record under concurrent use: any number of clients, one memory access per step.

    Every unlocked read, lock acquisition, locked read or write and unlock is a step of its own, and
    a read-modify-write (`x |= y`, `++x`) is a read step followed by a write step. Memory is
    sequentially consistent. `mem` is the shared memory; `abs`, `log` and `hist` are history
    variables that no step function reads.
 */
module Protocol {
  import opened CoreRecord

  /** `env` is the environment override of the context; `l1pFlagFirst` is the store order of RsvL1pMode
      (the source sets the flag before the value). */
  datatype Config = Config(env: int -> int, l1pFlagFirst: bool)

  datatype Pc =
    | Idle
    | Entry                                      // before the unlocked checks
    | Check                                      // unlocked test of an attribute bit
    | Scan(locked: bool, i: nat, seen: bool)     // CtrGrpInUseByOthers, about to look at thread i
    | Acq                                        // waiting for the lock
    | Locked                                     // first access inside the critical section
    | RefRead | RefWrite(r: int)
    | Clear | ZeroCheck(i: nat) | ZeroMask(i: nat)
    | MaskRead | MaskWrite(groups: set<nat>) | MaskClear
    | CntTest | CntRead | CntWrite(r: int) | ZeroTest
    | AttRead | AttWrite(groups: set<nat>)
    | ValWrite(i: nat)
    | BitsRead(bit: Bit) | BitsWrite(bits: set<Bit>, bit: Bit)
    | BothTest
    | Unlock(res: bool)
    | CtxTest
    | Cmp(i: nat)                                // unlocked comparison, about to read cell i
    | Ret(res: bool)

  /** One client (an event set on hardware thread t). `ref`, `es` and `att` say what it holds: a
      reference, an event set on t, an attached mask. `lin`, `at` and `from` place its call in the log. */
  datatype Client = Client(
    t: Thread, pc: Pc, call: Call,
    ref: bool, es: bool, att: Option<set<nat>>,
    from: nat, at: nat, lin: Option<bool>)

  datatype Event = Event(client: nat, t: Thread, call: Call, res: bool)

  /** A returned call: the log had length `from` at the call and `upto` at the return, its entry is at `at`. */
  datatype Done = Done(client: nat, call: Call, from: nat, at: nat, upto: nat, res: bool)

  datatype State = State(
    mem: Core, lock: Option<nat>, cls: map<nat, Client>,
    abs: Core, log: seq<Event>, hist: seq<Done>)

  /** The effect of one step: new memory, next program point, and whether the call takes effect here. */
  datatype Eff = Eff(mem: Core, pc: Pc, lin: bool)

  function StepIncr(mem: Core, pc: Pc): Eff {
    match pc
    case Locked => Eff(mem, RefRead, false)
    case RefRead => Eff(mem, RefWrite(mem.refs), false)
    case RefWrite(r) => Eff(mem.(refs := r + 1), Unlock(true), true)
    case _ => Eff(mem, Ret(true), false)
  }

  function StepDecr(mem: Core, pc: Pc): Eff {
    match pc
    case Locked => Eff(mem, RefRead, false)
    case RefRead => Eff(mem, RefWrite(mem.refs), false)
    case RefWrite(r) =>
      if r - 1 == 0 then Eff(mem.(refs := r - 1), Clear, false)
      else Eff(mem.(refs := r - 1), Unlock(true), true)
    case Clear => Eff(mem.(alloc := {}), ZeroCheck(0), true)
    case ZeroCheck(i) => Eff(mem, if i < 4 then ZeroMask(i) else Unlock(true), false)
    case ZeroMask(i) => Eff(if i < 4 then mem.(mask := mem.mask[i := {}]) else mem, ZeroCheck(i + 1), false)
    case _ => Eff(mem, Ret(true), false)
  }

  function StepRsvGrp(mem: Core, pc: Pc, t: Thread, g: Thread, isNew: bool): Eff {
    match pc
    case Entry => Eff(mem, Scan(false, 0, false), false)
    case Scan(locked, i, seen) =>
      if i < 4 then
        var hit := i != t && g in mem.mask[i];
        Eff(mem, Scan(locked, i + 1, seen || hit), hit && !seen)
      else if seen then Eff(mem, if locked then Unlock(false) else Ret(false), false)
      else Eff(mem, if locked then MaskRead else Acq, false)
    case MaskRead => Eff(mem, MaskWrite(mem.mask[t]), false)
    case MaskWrite(groups) =>
      Eff(mem.(mask := mem.mask[t := groups + {g}]), if isNew then CntRead else Unlock(true), true)
    case CntRead => Eff(mem, CntWrite(mem.cnt[t]), false)
    case CntWrite(r) => Eff(mem.(cnt := mem.cnt[t := r + 1]), Unlock(true), false)
    case _ => Eff(mem, Ret(true), false)
  }

  function StepRlsGrp(mem: Core, pc: Pc, t: Thread): Eff {
    match pc
    case Locked => Eff(mem, CntTest, false)
    case CntTest => if mem.cnt[t] > 0 then Eff(mem, CntRead, false) else Eff(mem, Unlock(true), true)
    case CntRead => Eff(mem, CntWrite(mem.cnt[t]), false)
    case CntWrite(r) => Eff(mem.(cnt := mem.cnt[t := r - 1]), ZeroTest, r - 1 != 0)
    case ZeroTest => Eff(mem, if mem.cnt[t] == 0 then MaskClear else Unlock(true), false)
    case MaskClear => Eff(mem.(mask := mem.mask[t := {}]), Unlock(true), true)
    case _ => Eff(mem, Ret(true), false)
  }

  function StepRsvAtt(mem: Core, pc: Pc, m: set<nat>): Eff {
    match pc
    case Entry => if mem.att * m == {} then Eff(mem, Acq, false) else Eff(mem, Ret(false), true)
    case Locked => if mem.att * m == {} then Eff(mem, AttRead, false) else Eff(mem, Unlock(false), true)
    case AttRead => Eff(mem, AttWrite(mem.att), false)
    case AttWrite(groups) => Eff(mem.(att := groups + m), Unlock(true), true)
    case _ => Eff(mem, Ret(true), false)
  }

  function StepRlsAtt(mem: Core, pc: Pc, m: set<nat>): Eff {
    match pc
    case Locked => Eff(mem, AttRead, false)
    case AttRead => Eff(mem, AttWrite(mem.att), false)
    case AttWrite(groups) => Eff(mem.(att := groups - m), Unlock(true), true)
    case _ => Eff(mem, Ret(true), false)
  }

  function StepMixed(mem: Core, pc: Pc): Eff {
    match pc
    case BitsRead(b) => Eff(mem, BitsWrite(mem.alloc, b), false)
    case BitsWrite(bits, b) => Eff(mem.(alloc := bits + {b}), Unlock(true), true)
    case _ => Eff(mem, Ret(true), false)
  }

  /** RsvL1pMode is the only call that stores its bit before its value. */
  predicate FlagFirst(cfg: Config, a: Attr) {
    a == L1p && cfg.l1pFlagFirst
  }

  /** RsvContext tests the bit once more before it compares. */
  function BeforeCompare(a: Attr): Pc {
    if a == Ctx then CtxTest else Cmp(0)
  }

  function StepAttr(cfg: Config, mem: Core, pc: Pc, a: Attr, req: seq<int>): Eff
    requires |req| == Width(a)
  {
    match pc
    case Entry => if Noop(a, req) then Eff(mem, Ret(true), true) else Eff(mem, Check, false)
    case Check => if Has(a) in mem.alloc then Eff(mem, BeforeCompare(a), true) else Eff(mem, Acq, false)
    case Locked =>
      if Has(a) in mem.alloc then Eff(mem, Unlock(true), true)
      else Eff(mem, if FlagFirst(cfg, a) then BitsRead(Has(a)) else ValWrite(0), false)
    case ValWrite(i) =>
      if i >= Width(a) then Eff(mem, Ret(true), false)
      else
        Eff(mem.(vals := mem.vals[a := mem.vals[a][i := Chosen(cfg.env, a, req)[i]]]),
            if i + 1 < Width(a) then ValWrite(i + 1)
            else if FlagFirst(cfg, a) then Unlock(true)
            else BitsRead(Has(a)), false)
    case BitsRead(b) => Eff(mem, BitsWrite(mem.alloc, b), false)
    case BitsWrite(bits, b) =>
      Eff(mem.(alloc := bits + {b}),
          if b == CtxBoth then Unlock(true)
          else if FlagFirst(cfg, a) then ValWrite(0)
          else if a == Ctx then BothTest
          else Unlock(true), b != CtxBoth)
    case BothTest => Eff(mem, if mem.vals[Ctx] == [CTX_BOTH] then BitsRead(CtxBoth) else Unlock(true), false)
    case CtxTest => Eff(mem, if Has(Ctx) in mem.alloc then Cmp(0) else Ret(true), false)
    case Cmp(i) =>
      if i >= Width(a) then Eff(mem, Ret(true), false)
      else Eff(mem, if mem.vals[a][i] == req[i] then Cmp(i + 1) else Ret(false), false)
    case _ => Eff(mem, Ret(true), false)
  }

  /** Where a call continues once it has the lock, and once it has let it go. */
  function AfterAcq(call: Call): Pc {
    match call
    case RsvGrp(_, _) => Scan(true, 0, false)
    case SetMixed => BitsRead(CtxMixed)
    case _ => Locked
  }

  function AfterUnlock(call: Call, res: bool): Pc {
    if call.RsvAttr? then BeforeCompare(call.attr) else Ret(res)
  }

  function Micro(cfg: Config, mem: Core, t: Thread, call: Call, pc: Pc): Eff {
    match pc
    case Acq => Eff(mem, AfterAcq(call), false)
    case Unlock(res) => Eff(mem, AfterUnlock(call, res), false)
    case Ret(_) => Eff(mem, Idle, false)
    case _ => InnerStep(cfg, mem, t, call, pc)
  }

  function InnerStep(cfg: Config, mem: Core, t: Thread, call: Call, pc: Pc): Eff {
    match call
    case IncrRef => StepIncr(mem, pc)
    case DecrRef => StepDecr(mem, pc)
    case RsvGrp(g, isNew) => StepRsvGrp(mem, pc, t, g, isNew)
    case RlsGrp => StepRlsGrp(mem, pc, t)
    case RsvAtt(m) => StepRsvAtt(mem, pc, m)
    case RlsAtt(m) => StepRlsAtt(mem, pc, m)
    case SetMixed => StepMixed(mem, pc)
    case RsvAttr(a, req) => StepAttr(cfg, mem, pc, a, req)
  }

  /** What a client holds after its call took effect with result `res`. */
  function Own(cl: Client, res: bool): Client {
    match cl.call
    case IncrRef => cl.(ref := true)
    case DecrRef => cl.(ref := false)
    case RsvGrp(_, isNew) => if isNew && res then cl.(es := true) else cl
    case RlsGrp => cl.(es := false)
    case RsvAtt(m) => if res then cl.(att := Some(m)) else cl
    case RlsAtt(_) => cl.(att := None)
    case _ => cl
  }

  /** The order clients keep: a reference around everything else, a new event set on the first group
      reservation only, nothing held at DecrRef, the attached mask released as it was obtained. */
  predicate Permits(cl: Client, call: Call) {
    match call
    case IncrRef => !cl.ref
    case DecrRef => cl.ref && !cl.es && cl.att.None?
    case RsvGrp(_, isNew) => cl.ref && isNew == !cl.es
    case RlsGrp => cl.ref && cl.es
    case RsvAtt(_) => cl.ref && cl.att.None?
    case RlsAtt(m) => cl.ref && cl.att == Some(m)
    case _ => cl.ref
  }

  datatype Action =
    | Start(c: nat, call: Call)
    | Step(c: nat)
    | Handover(a: nat, b: nat)     // event set and attached mask move to another client of the same thread

  predicate Enabled(s: State, act: Action) {
    match act
    case Start(c, call) => c in s.cls && s.cls[c].pc.Idle? && Permits(s.cls[c], call)
    case Step(c) => c in s.cls && !s.cls[c].pc.Idle? && (s.cls[c].pc.Acq? ==> s.lock.None?)
    case Handover(a, b) =>
      && a in s.cls && b in s.cls && a != b
      && s.cls[a].pc.Idle? && s.cls[b].pc.Idle?
      && s.cls[a].t == s.cls[b].t
      && s.cls[a].es && s.cls[b].ref && !s.cls[b].es && s.cls[b].att.None?
  }

  function FirstPc(call: Call): Pc {
    if call.RsvGrp? || call.RsvAtt? || call.RsvAttr? then Entry else Acq
  }

  function NextLock(s: State, c: nat, pc: Pc): Option<nat> {
    if pc.Acq? then Some(c) else if pc.Unlock? then None else s.lock
  }

  /** The effect of a step on the history: the record as if calls were indivisible, and the client. */
  function NextAbs(cfg: Config, mem: Core, abs: Core, cl: Client): Core {
    if Micro(cfg, mem, cl.t, cl.call, cl.pc).lin then After(cfg.env, abs, cl.t, cl.call) else abs
  }

  function NextClient(cfg: Config, mem: Core, abs: Core, n: nat, cl: Client): Client {
    var e := Micro(cfg, mem, cl.t, cl.call, cl.pc);
    if e.lin then
      var res := Result(cfg.env, abs, cl.t, cl.call);
      Own(cl, res).(pc := e.pc, lin := Some(res), at := n)
    else cl.(pc := e.pc)
  }

  function DoStep(cfg: Config, s: State, c: nat): State
    requires c in s.cls
  {
    var cl := s.cls[c];
    var e := Micro(cfg, s.mem, cl.t, cl.call, cl.pc);
    State(
      e.mem,
      NextLock(s, c, cl.pc),
      s.cls[c := NextClient(cfg, s.mem, s.abs, |s.log|, cl)],
      NextAbs(cfg, s.mem, s.abs, cl),
      if e.lin then s.log + [Event(c, cl.t, cl.call, Result(cfg.env, s.abs, cl.t, cl.call))] else s.log,
      if cl.pc.Ret? then s.hist + [Done(c, cl.call, cl.from, cl.at, |s.log|, cl.pc.res)] else s.hist)
  }

  function Do(cfg: Config, s: State, act: Action): State
    requires Enabled(s, act)
  {
    match act
    case Start(c, call) =>
      s.(cls := s.cls[c := s.cls[c].(pc := FirstPc(call), call := call, from := |s.log|, lin := None)])
    case Step(c) => DoStep(cfg, s, c)
    case Handover(a, b) =>
      s.(cls := s.cls[a := s.cls[a].(es := false, att := None)]
                     [b := s.cls[b].(es := true, att := s.cls[a].att)])
  }

  ghost predicate Init(s: State) {
    && s.mem == Zero() && s.abs == Zero() && s.lock.None? && s.log == [] && s.hist == []
    && forall c | c in s.cls :: s.cls[c].pc.Idle? && !s.cls[c].ref && !s.cls[c].es && s.cls[c].att.None?
  }

  /** A finite run: each action is enabled where it happens. */
  ghost predicate IsRun(cfg: Config, s: State, acts: seq<Action>)
    decreases |acts|
  {
    acts == [] || (Enabled(s, acts[0]) && IsRun(cfg, Do(cfg, s, acts[0]), acts[1..]))
  }

  ghost function Exec(cfg: Config, s: State, acts: seq<Action>): State
    requires IsRun(cfg, s, acts)
    decreases |acts|
  {
    if acts == [] then s else Exec(cfg, Do(cfg, s, acts[0]), acts[1..])
  }

  lemma ConsRun(cfg: Config, s: State, act: Action, acts: seq<Action>)
    requires Enabled(s, act) && IsRun(cfg, Do(cfg, s, act), acts)
    ensures IsRun(cfg, s, [act] + acts) && Exec(cfg, s, [act] + acts) == Exec(cfg, Do(cfg, s, act), acts)
  {
    assert ([act] + acts)[1..] == acts;
  }

  /** States that some run from a cleared record reaches. */
  ghost predicate Reachable(cfg: Config, s: State) {
    exists s0, acts :: Init(s0) && IsRun(cfg, s0, acts) && Exec(cfg, s0, acts) == s
  }

  lemma {:induction false} SnocRun(cfg: Config, s: State, acts: seq<Action>, act: Action)
    requires IsRun(cfg, s, acts) && Enabled(Exec(cfg, s, acts), act)
    ensures IsRun(cfg, s, acts + [act])
    ensures Exec(cfg, s, acts + [act]) == Do(cfg, Exec(cfg, s, acts), act)
    decreases |acts|
  {
    if acts == [] {
      ConsRun(cfg, s, act, []);
    } else {
      SnocRun(cfg, Do(cfg, s, acts[0]), acts[1..], act);
      ConsRun(cfg, s, acts[0], acts[1..] + [act]);
      assert [acts[0]] + (acts[1..] + [act]) == acts + [act];
    }
  }
}
