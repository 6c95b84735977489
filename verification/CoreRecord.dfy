/** The shared per-core record, with every call on it as one indivisible operation.
    Masks are sets of bit positions here; CoreReservations.dfy ties them to machine words.
 */
module CoreRecord {
  datatype Option<+T> = None | Some(value: T)

  const CTX_DEFAULT := 0
  const CTX_BOTH := 3
  const L1P_SWITCH := 7
  const L1P_LIST := 9

  type Thread = t: nat | t < 4

  /** The core-wide attributes that can be fixed once. */
  datatype Attr = L1p | Qfpu | Xu | Sqrt | Div | Ctx

  /** The bits of allocMask. */
  datatype Bit = Has(attr: Attr) | CtxBoth | CtxMixed

  /** How many memory cells hold the value of an attribute. */
  function Width(a: Attr): (n: nat) {
    match a
    case Qfpu => 3
    case Xu => 2
    case _ => 1
  }

  datatype RawCore = Core(
    refs: int,
    cnt: seq<int>,
    mask: seq<set<nat>>,
    att: set<nat>,
    alloc: set<Bit>,
    vals: map<Attr, seq<int>>)

  ghost predicate Wf(c: RawCore) {
    && |c.cnt| == 4
    && |c.mask| == 4
    && (forall a: Attr :: a in c.vals && |c.vals[a]| == Width(a))
  }

  const NO_GROUPS: seq<set<nat>> := [{}, {}, {}, {}]

  function Cleared(a: Attr): (v: seq<int>)
    ensures |v| == Width(a)
  {
    match a
    case Qfpu => [0, 0, 0]
    case Xu => [0, 0]
    case _ => [0]
  }

  /** Shared memory is cleared before first use. */
  ghost function Zero(): (r: RawCore)
    ensures Wf(r)
  {
    RawCore.Core(0, [0, 0, 0, 0], NO_GROUPS, {}, {}, map a: Attr | true :: Cleared(a))
  }

  type Core = c: RawCore | Wf(c) ghost witness Zero()

  datatype RawCall =
    | IncrRef
    | DecrRef
    | RsvGrp(grp: Thread, isNew: bool)
    | RlsGrp
    | RsvAtt(m: set<nat>)
    | RlsAtt(m: set<nat>)
    | SetMixed
    | RsvAttr(attr: Attr, req: seq<int>)

  predicate CallWf(c: RawCall) {
    c.RsvAttr? ==> |c.req| == Width(c.attr)
  }

  type Call = c: RawCall | CallWf(c) witness IncrRef

  /** Requests that ask for nothing: an event source outside the exclusive L1p modes, the default context. */
  predicate Noop(a: Attr, req: seq<int>)
    requires |req| == Width(a)
  {
    match a
    case L1p => !(L1P_SWITCH <= req[0] <= L1P_LIST)
    case Ctx => !(req[0] > CTX_DEFAULT)
    case _ => false
  }

  /** The value a winning request stores; `env` is the environment override of the context. */
  function Chosen(env: int -> int, a: Attr, req: seq<int>): (v: seq<int>)
    requires |req| == Width(a)
    ensures |v| == Width(a)
  {
    if a == Ctx then [env(req[0])] else req
  }

  /** A thread other than t owns group g. */
  predicate Owned(core: Core, g: Thread, t: Thread) {
    exists u: Thread :: u != t && g in core.mask[u]
  }

  /** What the assert statements of a call demand when it takes effect. */
  predicate Allowed(core: Core, t: Thread, call: Call) {
    match call
    case IncrRef => core.refs >= 0
    case DecrRef => core.refs > 0 && (core.refs == 1 ==> forall u: Thread :: core.cnt[u] == 0)
    case RsvGrp(_, _) => core.cnt[t] >= 0
    case RlsGrp => core.cnt[t] > 0
    case RlsAtt(m) => m <= core.att
    case _ => true
  }

  function Result(env: int -> int, core: Core, t: Thread, call: Call): bool {
    match call
    case RsvGrp(g, _) => !Owned(core, g, t)
    case RsvAtt(m) => core.att * m == {}
    case RsvAttr(a, req) =>
      if Noop(a, req) then true
      else if Has(a) in core.alloc then core.vals[a] == req
      else Chosen(env, a, req) == req
    case _ => true
  }

  function TakeAttr(core: Core, a: Attr, v: seq<int>): (r: Core)
    requires |v| == Width(a)
  {
    core.(vals := core.vals[a := v],
          alloc := core.alloc + {Has(a)} + if a == Ctx && v == [CTX_BOTH] then {CtxBoth} else {})
  }

  function After(env: int -> int, core: Core, t: Thread, call: Call): (r: Core) {
    match call
    case IncrRef => core.(refs := core.refs + 1)
    case DecrRef =>
      if core.refs == 1 then core.(refs := 0, alloc := {}, mask := NO_GROUPS)
      else core.(refs := core.refs - 1)
    case RsvGrp(g, isNew) =>
      if Owned(core, g, t) then core
      else core.(mask := core.mask[t := core.mask[t] + {g}],
                 cnt := if isNew then core.cnt[t := core.cnt[t] + 1] else core.cnt)
    case RlsGrp =>
      if core.cnt[t] <= 0 then core
      else core.(cnt := core.cnt[t := core.cnt[t] - 1],
                 mask := if core.cnt[t] == 1 then core.mask[t := {}] else core.mask)
    case RsvAtt(m) => if core.att * m == {} then core.(att := core.att + m) else core
    case RlsAtt(m) => core.(att := core.att - m)
    case SetMixed => core.(alloc := core.alloc + {CtxMixed})
    case RsvAttr(a, req) =>
      if Noop(a, req) || Has(a) in core.alloc then core
      else TakeAttr(core, a, Chosen(env, a, req))
  }
}
