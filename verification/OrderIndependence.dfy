/** Reservations without releases: either every order succeeds, with the same outcome, or none does. */
module OrderIndependence {
  import opened CoreRecord

  datatype Op = Op(t: Thread, call: Call)

  predicate Reserves(op: Op) {
    op.call.RsvGrp? || op.call.RsvAtt? || op.call.RsvAttr? || op.call.SetMixed?
  }

  lemma ReservesIs(op: Op)
    ensures Reserves(op) <==> !op.call.IncrRef? && !op.call.DecrRef? && !op.call.RlsGrp? && !op.call.RlsAtt?
  {
  }

  ghost predicate AllSucceed(env: int -> int, core: Core, ops: seq<Op>)
    decreases |ops|
  {
    ops == [] ||
    (Result(env, core, ops[0].t, ops[0].call)
     && AllSucceed(env, After(env, core, ops[0].t, ops[0].call), ops[1..]))
  }

  ghost function RunOps(env: int -> int, core: Core, ops: seq<Op>): Core
    decreases |ops|
  {
    if ops == [] then core else RunOps(env, After(env, core, ops[0].t, ops[0].call), ops[1..])
  }

  /** Two lists succeed from the same state or neither does, and if they do they leave the same record. */
  ghost predicate Same(env: int -> int, core: Core, xs: seq<Op>, ys: seq<Op>) {
    && (AllSucceed(env, core, xs) <==> AllSucceed(env, core, ys))
    && (AllSucceed(env, core, xs) ==> RunOps(env, core, xs) == RunOps(env, core, ys))
  }

  ghost predicate BothSucceed(env: int -> int, core: Core, a: Op, b: Op) {
    Result(env, core, a.t, a.call) && Result(env, After(env, core, a.t, a.call), b.t, b.call)
  }

  ghost predicate Commute(env: int -> int, core: Core, a: Op, b: Op) {
    && BothSucceed(env, core, b, a)
    && After(env, After(env, core, a.t, a.call), b.t, b.call) == After(env, After(env, core, b.t, b.call), a.t, a.call)
  }

  lemma SwapGroups(env: int -> int, core: Core, a: Op, b: Op)
    requires a.call.RsvGrp? && b.call.RsvGrp? && BothSucceed(env, core, a, b)
    ensures Commute(env, core, a, b)
  {
    var ca, cb := After(env, core, a.t, a.call), After(env, core, b.t, b.call);
    assert ca.mask[a.t] == core.mask[a.t] + {a.call.grp};
    assert forall u: Thread :: core.mask[u] <= ca.mask[u];
    assert !Owned(core, b.call.grp, b.t);
    assert !Owned(cb, a.call.grp, a.t);
    assert core.mask[a.t] + {a.call.grp} + {b.call.grp} == core.mask[a.t] + {b.call.grp} + {a.call.grp};
    var cab, cba := After(env, ca, b.t, b.call), After(env, cb, a.t, a.call);
    assert cab.mask == cba.mask;
    assert cab.cnt == cba.cnt;
  }

  lemma SwapSameAttr(env: int -> int, core: Core, a: Op, b: Op)
    requires a.call.RsvAttr? && b.call.RsvAttr? && a.call.attr == b.call.attr && BothSucceed(env, core, a, b)
    ensures Commute(env, core, a, b)
  {
  }

  lemma TakesCommute(core: Core, a: Attr, b: Attr, va: seq<int>, vb: seq<int>)
    requires a != b && |va| == Width(a) && |vb| == Width(b)
    ensures TakeAttr(TakeAttr(core, a, va), b, vb) == TakeAttr(TakeAttr(core, b, vb), a, va)
  {
    assert core.vals[a := va][b := vb] == core.vals[b := vb][a := va];
  }

  lemma SwapAttrs(env: int -> int, core: Core, a: Op, b: Op)
    requires a.call.RsvAttr? && b.call.RsvAttr? && a.call.attr != b.call.attr && BothSucceed(env, core, a, b)
    ensures Commute(env, core, a, b)
  {
    TakesCommute(core, a.call.attr, b.call.attr, Chosen(env, a.call.attr, a.call.req),
                 Chosen(env, b.call.attr, b.call.req));
  }

  /** Group reservations touch fields of their own. */
  lemma SwapGroupOther(env: int -> int, core: Core, a: Op, b: Op)
    requires Reserves(a) && Reserves(b) && BothSucceed(env, core, a, b) && a.call.RsvGrp? && !b.call.RsvGrp?
    ensures Commute(env, core, a, b)
  {
  }

  lemma SwapOtherGroup(env: int -> int, core: Core, a: Op, b: Op)
    requires Reserves(a) && Reserves(b) && BothSucceed(env, core, a, b) && !a.call.RsvGrp? && b.call.RsvGrp?
    ensures Commute(env, core, a, b)
  {
  }

  lemma SwapMasks(env: int -> int, core: Core, a: Op, b: Op)
    requires Reserves(a) && Reserves(b) && BothSucceed(env, core, a, b)
    requires !a.call.RsvGrp? && !b.call.RsvGrp? && !a.call.RsvAttr? && !b.call.RsvAttr?
    ensures Commute(env, core, a, b)
  {
    if a.call.RsvAtt? && b.call.RsvAtt? {
      assert core.att + a.call.m + b.call.m == core.att + b.call.m + a.call.m;
    }
  }

  /** An attribute and the mixed flag. */
  lemma SwapAttrMixed(env: int -> int, core: Core, a: Op, b: Op)
    requires a.call.RsvAttr? && b.call.SetMixed? && (BothSucceed(env, core, a, b) || BothSucceed(env, core, b, a))
    ensures Commute(env, core, a, b) && Commute(env, core, b, a)
  {
    var v := Chosen(env, a.call.attr, a.call.req);
    var mixed := core.(alloc := core.alloc + {CtxMixed});
    assert TakeAttr(mixed, a.call.attr, v).alloc == TakeAttr(core, a.call.attr, v).alloc + {CtxMixed};
  }

  /** An attribute and an attached mask. */
  lemma SwapAttrAtt(env: int -> int, core: Core, a: Op, b: Op)
    requires a.call.RsvAttr? && b.call.RsvAtt? && (BothSucceed(env, core, a, b) || BothSucceed(env, core, b, a))
    ensures Commute(env, core, a, b) && Commute(env, core, b, a)
  {
    hide Chosen;
  }

  lemma SwapAttrMask(env: int -> int, core: Core, a: Op, b: Op)
    requires Reserves(a) && Reserves(b) && BothSucceed(env, core, a, b)
    requires !a.call.RsvGrp? && !b.call.RsvGrp? && a.call.RsvAttr? != b.call.RsvAttr?
    ensures Commute(env, core, a, b)
  {
    var (x, y) := if a.call.RsvAttr? then (a, b) else (b, a);
    hide BothSucceed, Commute;
    if y.call.SetMixed? {
      SwapAttrMixed(env, core, x, y);
    } else {
      SwapAttrAtt(env, core, x, y);
    }
  }

  lemma Swap(env: int -> int, core: Core, a: Op, b: Op)
    requires Reserves(a) && Reserves(b) && BothSucceed(env, core, a, b)
    ensures Commute(env, core, a, b)
  {
    if a.call.RsvGrp? && b.call.RsvGrp? { SwapGroups(env, core, a, b); }
    else if a.call.RsvGrp? { SwapGroupOther(env, core, a, b); }
    else if b.call.RsvGrp? { SwapOtherGroup(env, core, a, b); }
    else if a.call.RsvAttr? && b.call.RsvAttr? {
      if a.call.attr == b.call.attr { SwapSameAttr(env, core, a, b); } else { SwapAttrs(env, core, a, b); }
    }
    else if a.call.RsvAttr? || b.call.RsvAttr? { SwapAttrMask(env, core, a, b); }
    else { SwapMasks(env, core, a, b); }
  }

  lemma SwapFirst(env: int -> int, core: Core, a: Op, b: Op, rest: seq<Op>)
    requires Reserves(a) && Reserves(b)
    ensures Same(env, core, [a, b] + rest, [b, a] + rest)
  {
    TwoFirst(env, core, a, b, rest);
    TwoFirst(env, core, b, a, rest);
    if BothSucceed(env, core, a, b) { Swap(env, core, a, b); }
    if BothSucceed(env, core, b, a) { Swap(env, core, b, a); }
  }

  lemma TwoFirst(env: int -> int, core: Core, a: Op, b: Op, rest: seq<Op>)
    ensures var c2 := After(env, After(env, core, a.t, a.call), b.t, b.call);
            && (AllSucceed(env, core, [a, b] + rest) <==> BothSucceed(env, core, a, b) && AllSucceed(env, c2, rest))
            && RunOps(env, core, [a, b] + rest) == RunOps(env, c2, rest)
  {
    assert ([a, b] + rest)[1..] == [b] + rest;
    assert ([b] + rest)[1..] == rest;
  }

  lemma SameAfterFirst(env: int -> int, core: Core, a: Op, xs: seq<Op>, ys: seq<Op>)
    requires Same(env, After(env, core, a.t, a.call), xs, ys)
    ensures Same(env, core, [a] + xs, [a] + ys)
  {
    assert ([a] + xs)[1..] == xs && ([a] + ys)[1..] == ys;
  }

  /** Any element can be moved to the front. */
  lemma {:induction false} MoveToFront(env: int -> int, core: Core, ops: seq<Op>, k: nat)
    requires k < |ops| && forall op | op in ops :: Reserves(op)
    ensures Same(env, core, ops, [ops[k]] + ops[..k] + ops[k + 1..])
    decreases k
  {
    hide After, Reserves;
    if k == 0 {
      assert [ops[0]] + ops[..0] + ops[1..] == ops;
    } else {
      var a, tail := ops[0], ops[1..];
      var rest := ops[1..k] + ops[k + 1..];
      MovedShape(ops, k);
      MoveToFront(env, After(env, core, a.t, a.call), tail, k - 1);
      SameAfterFirst(env, core, a, tail, [ops[k]] + rest);
      SwapFirst(env, core, a, ops[k], rest);
    }
  }

  lemma MovedShape(ops: seq<Op>, k: nat)
    requires 0 < k < |ops|
    ensures var a, tail, rest := ops[0], ops[1..], ops[1..k] + ops[k + 1..];
            && [tail[k - 1]] + tail[..k - 1] + tail[k..] == [ops[k]] + rest
            && [a] + tail == ops && [a] + ([ops[k]] + rest) == [a, ops[k]] + rest
            && [ops[k], a] + rest == [ops[k]] + ops[..k] + ops[k + 1..]
  {
    assert ops[..k] == [ops[0]] + ops[1..k];
  }

  lemma WithoutOne(xs: seq<Op>, ys: seq<Op>, k: nat)
    requires xs != [] && multiset(xs) == multiset(ys) && k < |ys| && ys[k] == xs[0]
    ensures multiset(xs[1..]) == multiset(ys[..k] + ys[k + 1..])
  {
    assert xs == [xs[0]] + xs[1..];
    assert ys == ys[..k] + [ys[k]] + ys[k + 1..];
    assert multiset(xs) == multiset{xs[0]} + multiset(xs[1..]);
    assert multiset(ys) == multiset(ys[..k]) + multiset{ys[k]} + multiset(ys[k + 1..]);
    assert multiset(ys[..k] + ys[k + 1..]) == multiset(ys[..k]) + multiset(ys[k + 1..]);
    assert multiset(xs[1..]) == multiset(xs) - multiset{xs[0]};
  }

  /** From any state, a list of group, attach and attribute reservations succeeds in one order iff it
      succeeds in every order, with the same masks, counts and reserved values. */
  lemma {:induction false} AnyOrder(env: int -> int, core: Core, xs: seq<Op>, ys: seq<Op>)
    requires multiset(xs) == multiset(ys) && forall op | op in xs :: Reserves(op)
    ensures Same(env, core, xs, ys)
    decreases |xs|
  {
    if xs == [] {
      assert |multiset(ys)| == 0;
    } else {
      var a := xs[0];
      assert a in multiset(ys);
      var k :| 0 <= k < |ys| && ys[k] == a;
      var rest := ys[..k] + ys[k + 1..];
      WithoutOne(xs, ys, k);
      forall op | op in ys ensures Reserves(op) { assert op in multiset(ys); assert op in multiset(xs); }
      MoveToFront(env, core, ys, k);
      AnyOrder(env, After(env, core, a.t, a.call), xs[1..], rest);
      SameAfterFirst(env, core, a, xs[1..], rest);
      assert [ys[k]] + ys[..k] + ys[k + 1..] == [a] + rest && [a] + xs[1..] == xs;
    }
  }
}
