/** Write-once agreement: while the record is in use each attribute has one value, and every caller is told
    whether it asked for that value. */
module Agreement {
  import opened CoreRecord
  import opened Protocol
  import opened Linearizability

  /** refCount stays positive from entry lo to after entry hi - 1. */
  ghost predicate InUse(env: int -> int, log: seq<Event>, lo: nat, hi: nat)
    requires lo <= hi <= |log|
  {
    forall k | lo <= k <= hi :: Replay(env, log[..k]).refs > 0
  }

  /** Entry k asks for a value of attribute a. */
  predicate Asks(e: Event, a: Attr) {
    e.call.RsvAttr? && e.call.attr == a && !Noop(a, e.call.req)
  }

  lemma ReplayNext(env: int -> int, log: seq<Event>, k: nat)
    requires k < |log|
    ensures Replay(env, log[..k + 1]) == After(env, Replay(env, log[..k]), log[k].t, log[k].call)
    ensures Legal(env, log[..k + 1]) ==>
              Legal(env, log[..k]) && log[k].res == Result(env, Replay(env, log[..k]), log[k].t, log[k].call)
  {
    assert log[..k + 1][..k] == log[..k];
  }

  lemma {:induction false} LegalPrefix(env: int -> int, log: seq<Event>, k: nat)
    requires Legal(env, log) && k <= |log|
    ensures Legal(env, log[..k])
    decreases |log| - k
  {
    if k < |log| {
      LegalPrefix(env, log, k + 1);
      ReplayNext(env, log, k);
    } else {
      assert log[..k] == log;
    }
  }

  lemma {:induction false} StaysFixed(env: int -> int, log: seq<Event>, lo: nat, hi: nat, a: Attr)
    requires lo <= hi <= |log| && InUse(env, log, lo, hi)
    requires Has(a) in Replay(env, log[..lo]).alloc
    ensures Has(a) in Replay(env, log[..hi]).alloc
    ensures Replay(env, log[..hi]).vals[a] == Replay(env, log[..lo]).vals[a]
    decreases hi - lo
  {
    if lo < hi {
      ReplayNext(env, log, lo);
      var core, e := Replay(env, log[..lo]), log[lo];
      assert Replay(env, log[..lo + 1]).refs > 0;
      FixedUntilReset(env, core, e.t, e.call);
      StaysFixed(env, log, lo + 1, hi, a);
    }
  }

  /** A request leaves the attribute fixed and is told whether it asked for the value; the first one fixes it. */
  lemma Answered(env: int -> int, core: Core, e: Event, a: Attr)
    requires Asks(e, a)
    ensures var core' := After(env, core, e.t, e.call);
            && Has(a) in core'.alloc
            && (Result(env, core, e.t, e.call) <==> core'.vals[a] == e.call.req)
            && (Has(a) !in core.alloc ==> core'.vals[a] == if a == Ctx then [env(e.call.req[0])] else e.call.req)
  {
  }

  /** In any stretch of a legal history during which refCount stays positive, the requests for an attribute
      agree on one value v: each is answered true iff it asks for v, and v is what the first of them asked for, or, of
      the context, what the environment makes of that. */
  lemma OneValue(env: int -> int, log: seq<Event>, lo: nat, hi: nat, a: Attr) returns (v: seq<int>)
    requires Legal(env, log) && lo <= hi <= |log| && InUse(env, log, lo, hi)
    ensures forall k | lo <= k < hi && Asks(log[k], a) :: log[k].res <==> log[k].call.req == v
    ensures forall k | lo <= k < hi && Asks(log[k], a) && Has(a) !in Replay(env, log[..k]).alloc ::
              v == if a == Ctx then [env(log[k].call.req[0])] else log[k].call.req
    ensures v == Replay(env, log[..hi]).vals[a]
    ensures Has(a) in Replay(env, log[..lo]).alloc ==> v == Replay(env, log[..lo]).vals[a]
  {
    hide After, Result, Replay, Noop;
    v := Replay(env, log[..hi]).vals[a];
    forall k | lo <= k < hi && Asks(log[k], a)
      ensures log[k].res <==> log[k].call.req == v
      ensures Has(a) !in Replay(env, log[..k]).alloc ==>
                v == if a == Ctx then [env(log[k].call.req[0])] else log[k].call.req
    {
      LegalPrefix(env, log, k + 1);
      ReplayNext(env, log, k);
      Answered(env, Replay(env, log[..k]), log[k], a);
      StaysFixed(env, log, k + 1, hi, a);
    }
    if Has(a) in Replay(env, log[..lo]).alloc { StaysFixed(env, log, lo, hi, a); }
  }

  /** The same of the answers clients got, in every run: all calls for attribute a that took effect while
      refCount stayed positive were told whether they asked for one common value, whether or not they took
      the lock. For RsvL1pMode this needs the value to be stored before the flag. */
  lemma CallersAgree(cfg: Config, s: State, lo: nat, hi: nat, a: Attr) returns (v: seq<int>)
    requires Reachable(cfg, s) && !FlagFirst(cfg, a)
    requires lo <= hi <= |s.log| && InUse(cfg.env, s.log, lo, hi)
    ensures forall i | 0 <= i < |s.hist| && lo <= s.hist[i].at < hi
              && s.hist[i].call.RsvAttr? && s.hist[i].call.attr == a && !Noop(a, s.hist[i].call.req) ::
              s.hist[i].res <==> s.hist[i].call.req == v
    ensures forall i | 0 <= i < |s.hist| && lo <= s.hist[i].at < hi && s.hist[i].at <= |s.log|
              && s.hist[i].call.RsvAttr? && s.hist[i].call.attr == a && !Noop(a, s.hist[i].call.req)
              && Has(a) !in Replay(cfg.env, s.log[..s.hist[i].at]).alloc ::
              v == if a == Ctx then [cfg.env(s.hist[i].call.req[0])] else s.hist[i].call.req
    ensures hi == |s.log| && s.lock.None? ==> v == s.mem.vals[a]
  {
    hide Reachable, Legal, Replay, InUse, Noop;
    RunsAreLinearizable(cfg, s);
    v := OneValue(cfg.env, s.log, lo, hi, a);
    assert s.log[..|s.log|] == s.log;
    forall i | 0 <= i < |s.hist| && lo <= s.hist[i].at < hi
      && s.hist[i].call.RsvAttr? && s.hist[i].call.attr == a && !Noop(a, s.hist[i].call.req)
      ensures s.hist[i].res <==> s.hist[i].call.req == v
      ensures s.hist[i].at <= |s.log|
      ensures Has(a) !in Replay(cfg.env, s.log[..s.hist[i].at]).alloc ==>
                v == if a == Ctx then [cfg.env(s.hist[i].call.req[0])] else s.hist[i].call.req
    {
      assert DoneOk(cfg, s.log, s.hist[i]);
      assert Asks(s.log[s.hist[i].at], a);
    }
  }

  /** In every run a call that asked for nothing was granted and left the record alone. */
  lemma NoopGranted(cfg: Config, s: State, i: nat)
    requires Reachable(cfg, s) && i < |s.hist|
    requires s.hist[i].call.RsvAttr? && Noop(s.hist[i].call.attr, s.hist[i].call.req)
    ensures s.hist[i].res && s.hist[i].at < |s.log|
    ensures Replay(cfg.env, s.log[..s.hist[i].at + 1]) == Replay(cfg.env, s.log[..s.hist[i].at])
  {
    RunsAreLinearizable(cfg, s);
    assert DoneOk(cfg, s.log, s.hist[i]);
    NoopEntry(cfg.env, s.log, s.hist[i].at);
  }

  lemma NoopEntry(env: int -> int, log: seq<Event>, k: nat)
    requires Legal(env, log) && k < |log| && log[k].call.RsvAttr? && Noop(log[k].call.attr, log[k].call.req)
    ensures log[k].res && Replay(env, log[..k + 1]) == Replay(env, log[..k])
  {
    hide After, Result;
    LegalPrefix(env, log, k + 1);
    ReplayNext(env, log, k);
    NoopAtomic(env, Replay(env, log[..k]), log[k].t, log[k].call);
  }

  lemma NoopAtomic(env: int -> int, core: Core, t: Thread, call: Call)
    requires call.RsvAttr? && Noop(call.attr, call.req)
    ensures Result(env, core, t, call) && After(env, core, t, call) == core
  {
  }
}
