/** Reference counts against the clients that hold something. */
module Sessions {
  import opened CoreRecord
  import opened Protocol
  import opened Invariants

  ghost function Refs(cls: map<nat, Client>): set<nat> {
    set c | c in cls && cls[c].ref
  }

  ghost function Sets(cls: map<nat, Client>, t: Thread): set<nat> {
    set c | c in cls && cls[c].es && cls[c].t == t
  }

  ghost predicate Attached(cls: map<nat, Client>, c: nat, x: nat) {
    c in cls && cls[c].att.Some? && x in cls[c].att.value
  }

  ghost predicate CountInv(abs: Core, cls: map<nat, Client>) {
    && abs.refs == |Refs(cls)|
    && (forall t: Thread :: abs.cnt[t] == |Sets(cls, t)|)
    && (forall c | c in cls :: (cls[c].es || cls[c].att.Some?) ==> cls[c].ref)
  }

  /** The attached mask is the disjoint union of the masks clients hold. */
  ghost predicate AttachInv(abs: Core, cls: map<nat, Client>) {
    && (forall c, x | Attached(cls, c, x) :: x in abs.att)
    && (forall x | x in abs.att :: exists c :: Attached(cls, c, x))
    && (forall c, d, x | Attached(cls, c, x) && Attached(cls, d, x) :: c == d)
  }

  lemma HoldingsBacked(abs: Core, cls: map<nat, Client>, c: nat)
    requires CountInv(abs, cls) && AttachInv(abs, cls) && c in cls
    ensures Backed(abs, cls[c])
  {
    var cl := cls[c];
    if cl.ref {
      assert c in Refs(cls);
      if !cl.es && abs.refs == 1 {
        assert Refs(cls) == {c} by { Sole(Refs(cls), c); }
        forall u: Thread ensures abs.cnt[u] == 0 {
          assert forall d | d in Sets(cls, u) :: d in Refs(cls);
          assert Sets(cls, u) == {};
        }
      }
    }
    if cl.es { assert c in Sets(cls, cl.t); }
    if cl.att.Some? {
      forall x | x in cl.att.value ensures x in abs.att { assert Attached(cls, c, x); }
    }
  }

  lemma Sole(s: set<nat>, c: nat)
    requires |s| == 1 && c in s
    ensures s == {c}
  {
    assert |s - {c}| == 0;
  }

  lemma Without(s: set<nat>, c: nat)
    ensures |s| == |s - {c}| + if c in s then 1 else 0
  {
    if c in s {
      assert s == s - {c} + {c};
    } else {
      assert s == s - {c};
    }
  }

  lemma RefsUpdate(cls: map<nat, Client>, c: nat, cl: Client)
    requires c in cls
    ensures |Refs(cls[c := cl])| == |Refs(cls)| + (if cl.ref then 1 else 0) - (if cls[c].ref then 1 else 0)
  {
    var cls' := cls[c := cl];
    assert Refs(cls') - {c} == Refs(cls) - {c};
    Without(Refs(cls), c);
    Without(Refs(cls'), c);
  }

  lemma SetsUpdate(cls: map<nat, Client>, c: nat, cl: Client, t: Thread)
    requires c in cls && cls[c].t == cl.t
    ensures |Sets(cls[c := cl], t)| ==
            |Sets(cls, t)| + (if cl.es && cl.t == t then 1 else 0) - (if cls[c].es && cl.t == t then 1 else 0)
  {
    var cls' := cls[c := cl];
    assert Sets(cls', t) - {c} == Sets(cls, t) - {c};
    Without(Sets(cls, t), c);
    Without(Sets(cls', t), c);
  }

  lemma CountUpdate(cls: map<nat, Client>, c: nat, cl: Client)
    requires c in cls && cls[c].t == cl.t
    ensures |Refs(cls[c := cl])| == |Refs(cls)| + (if cl.ref then 1 else 0) - (if cls[c].ref then 1 else 0)
    ensures forall t: Thread :: |Sets(cls[c := cl], t)| ==
              |Sets(cls, t)| + (if cl.es && cl.t == t then 1 else 0) - (if cls[c].es && cl.t == t then 1 else 0)
  {
    hide *;
    RefsUpdate(cls, c, cl);
    forall t: Thread
      ensures |Sets(cls[c := cl], t)| ==
              |Sets(cls, t)| + (if cl.es && cl.t == t then 1 else 0) - (if cls[c].es && cl.t == t then 1 else 0)
    {
      SetsUpdate(cls, c, cl, t);
    }
  }

  lemma SameHoldings(abs: Core, cls: map<nat, Client>, c: nat, cl: Client)
    requires c in cls && CountInv(abs, cls) && AttachInv(abs, cls)
    requires cl.t == cls[c].t && cl.ref == cls[c].ref && cl.es == cls[c].es && cl.att == cls[c].att
    ensures CountInv(abs, cls[c := cl]) && AttachInv(abs, cls[c := cl])
  {
    CountUpdate(cls, c, cl);
    var cls' := cls[c := cl];
    assert forall d, x :: Attached(cls', d, x) <==> Attached(cls, d, x);
    forall x | x in abs.att ensures exists d :: Attached(cls', d, x) {
      var d :| Attached(cls, d, x);
      assert Attached(cls', d, x);
    }
  }

  lemma CountKept(env: int -> int, abs: Core, cls: map<nat, Client>, c: nat, cl: Client)
    requires c in cls && CountInv(abs, cls)
    requires Permits(cls[c], cls[c].call) && Allowed(abs, cls[c].t, cls[c].call)
    requires var o := Own(cls[c], Result(env, abs, cls[c].t, cls[c].call));
             cl.t == o.t && cl.ref == o.ref && cl.es == o.es && cl.att == o.att
    ensures CountInv(After(env, abs, cls[c].t, cls[c].call), cls[c := cl])
  {
    CountUpdate(cls, c, cl);
  }

  lemma AttachKept(env: int -> int, abs: Core, cls: map<nat, Client>, c: nat, cl: Client)
    requires c in cls && AttachInv(abs, cls)
    requires Permits(cls[c], cls[c].call)
    requires cl.att == Own(cls[c], Result(env, abs, cls[c].t, cls[c].call)).att
    ensures AttachInv(After(env, abs, cls[c].t, cls[c].call), cls[c := cl])
  {
    var cls' := cls[c := cl];
    var abs' := After(env, abs, cls[c].t, cls[c].call);
    assert forall d, x | d != c :: Attached(cls', d, x) <==> Attached(cls, d, x);
    assert cl.att == cls[c].att ==> forall x :: Attached(cls', c, x) <==> Attached(cls, c, x);
    assert cls[c].call.RlsAtt? ==> forall x | x in cls[c].call.m :: Attached(cls, c, x);
    if cls[c].call.RsvAtt? && cl.att != cls[c].att {
      forall x | x in cls[c].call.m ensures x !in abs.att { assert x !in abs.att * cls[c].call.m; }
    }
    forall x | x in abs'.att ensures exists d :: Attached(cls', d, x) {
      if x in abs.att {
        var d :| Attached(cls, d, x);
        assert Attached(cls', d, x);
      } else {
        assert Attached(cls', c, x);
      }
    }
  }

  /** An event set and its mask change hands: no count changes. */
  lemma HandoverKept(abs: Core, cls: map<nat, Client>, a: nat, b: nat, cla: Client, clb: Client)
    requires a in cls && b in cls && a != b && CountInv(abs, cls) && AttachInv(abs, cls)
    requires cls[a].t == cls[b].t && cls[a].es && cls[b].ref && !cls[b].es && cls[b].att.None?
    requires cla == cls[a].(es := false, att := None) && clb == cls[b].(es := true, att := cls[a].att)
    ensures CountInv(abs, cls[a := cla][b := clb]) && AttachInv(abs, cls[a := cla][b := clb])
  {
    CountUpdate(cls, a, cla);
    CountUpdate(cls[a := cla], b, clb);
    var cls' := cls[a := cla][b := clb];
    assert forall x :: Attached(cls', b, x) <==> Attached(cls, a, x);
    assert forall d, x | d != a && d != b :: Attached(cls', d, x) <==> Attached(cls, d, x);
    forall x | x in abs.att ensures exists d :: Attached(cls', d, x) {
      var d :| Attached(cls, d, x);
      assert Attached(cls', if d == a then b else d, x);
    }
  }
}
