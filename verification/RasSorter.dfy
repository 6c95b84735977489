/** The sorter: a dictionary of events by id. */
module RasSorter {
  import opened RasEvents

  function Id(e: Details): string {
    Get(e, "id")
  }

  datatype Outcome = Kept(events: map<string, Details>) | Crashed

  /** Attributes the sorter reads without a default. */
  function Needed(): seq<string> {
    ["id", "category", "component", "severity", "message", "description", "service_action", "file_name", "line_num"]
  }

  predicate Accepted(e: Details) {
    forall n | n in Needed() :: n in e
  }

  /** Attributes in which a second definition of an id must agree with the first. */
  function Compared(): seq<string> {
    ["id", "category", "component", "severity", "message", "decoder", "description", "service_action", "control_action"]
  }

  predicate SameMetadata(a: Details, b: Details) {
    forall n | n in Compared() :: Get(a, n) == Get(b, n)
  }

  function Record(e: Details): Details {
    map n | n in Names() :: Get(e, n)
  }

  /** One event sorted in. The run ends when the message about a rejected event has no file or line to name, and
      when definitions differ, whose message uses an undefined name. */
  function SortOne(m: map<string, Details>, e: Details): Outcome {
    if !Accepted(e) then (if Located(e) then Kept(m) else Crashed)
    else if Id(e) in m && !SameMetadata(m[Id(e)], e) then Crashed
    else Kept(m[Id(e) := Record(e)])
  }

  function SortAll(m: map<string, Details>, es: seq<Details>): Outcome {
    if es == [] then Kept(m)
    else
      var o := SortAll(m, es[..|es| - 1]);
      if o.Crashed? then Crashed else SortOne(o.events, es[|es| - 1])
  }

  /** The lists by name. */
  lemma AcceptedIs(e: Details)
    ensures Accepted(e) <==>
            "id" in e && "category" in e && "component" in e && "severity" in e && "message" in e &&
            "description" in e && "service_action" in e && "file_name" in e && "line_num" in e
  {
    assert forall n :: n in Needed() <==>
           n == "id" || n == "category" || n == "component" || n == "severity" || n == "message" ||
           n == "description" || n == "service_action" || n == "file_name" || n == "line_num";
  }

  lemma SameIs(a: Details, b: Details)
    ensures SameMetadata(a, b) <==>
            Get(a, "id") == Get(b, "id") && Get(a, "category") == Get(b, "category") &&
            Get(a, "component") == Get(b, "component") && Get(a, "severity") == Get(b, "severity") &&
            Get(a, "message") == Get(b, "message") && Get(a, "decoder") == Get(b, "decoder") &&
            Get(a, "description") == Get(b, "description") &&
            Get(a, "service_action") == Get(b, "service_action") &&
            Get(a, "control_action") == Get(b, "control_action")
  {
    hide Get;
    assert forall n :: n in Compared() <==>
           n == "id" || n == "category" || n == "component" || n == "severity" || n == "message" ||
           n == "decoder" || n == "description" || n == "service_action" || n == "control_action";
  }

  lemma NamesAre(n: string)
    ensures n in Names() <==> n in {
              "id", "category", "component", "severity", "message", "description", "service_action", "decoder",
              "control_action", "threshold_count", "threshold_period", "relevant_diags", "file_name", "line_num"}
  {
  }

  lemma RecordIs(e: Details)
    ensures Record(e).Keys == {
              "id", "category", "component", "severity", "message", "description", "service_action", "decoder",
              "control_action", "threshold_count", "threshold_period", "relevant_diags", "file_name", "line_num"}
    ensures forall n | n in Record(e) :: Record(e)[n] == Get(e, n)
  {
    hide Get, Names;
    forall n
      ensures n in Record(e) <==> n in {
                "id", "category", "component", "severity", "message", "description", "service_action", "decoder",
                "control_action", "threshold_count", "threshold_period", "relevant_diags", "file_name", "line_num"}
    {
      NamesAre(n);
    }
  }

  class RasEventSorter {
    var events: map<string, Details>

    constructor ()
      ensures events == map[]
    {
      events := map[];
    }

    method AddEvent(e: Details) returns (crashed: bool)
      requires Accepted(e)
      modifies this
      ensures crashed <==> Get(e, "id") in old(events) && !SameMetadata(old(events)[Get(e, "id")], e)
      ensures events == if crashed then old(events) else old(events)[Get(e, "id") := Record(e)]
      ensures crashed <==> SortOne(old(events), e).Crashed?
      ensures events == if crashed then old(events) else SortOne(old(events), e).events
    {
      var id := Id(e);
      if id in events && !SameMetadata(events[id], e) {
        return true;
      }
      events := events[id := Record(e)];
      return false;
    }

    /** Rejects an event that lacks an attribute, if it can say where it is. */
    method Take(e: Details) returns (crashed: bool)
      modifies this
      ensures !Accepted(e) ==> events == old(events) && (crashed <==> !("file_name" in e && "line_num" in e))
      ensures SortOne(old(events), e) == if crashed then Crashed else Kept(events)
    {
      if Accepted(e) {
        crashed := AddEvent(e);
      } else {
        crashed := !Located(e);
      }
    }

    method Sort(es: seq<Details>) returns (crashed: bool)
      modifies this
      ensures crashed <==> SortAll(old(events), es).Crashed?
      ensures !crashed ==> events == SortAll(old(events), es).events
    {
      for i := 0 to |es|
        invariant SortAll(old(events), es[..i]) == Kept(events)
      {
        ghost var m := events;
        var c := Take(es[i]);
        SortNext(old(events), es, i, m);
        if c {
          CrashStays(old(events), es, i + 1);
          return true;
        }
      }
      assert es[..|es|] == es;
      return false;
    }
  }

  lemma SortNext(m: map<string, Details>, es: seq<Details>, i: nat, m': map<string, Details>)
    requires i < |es| && SortAll(m, es[..i]) == Kept(m')
    ensures SortAll(m, es[..i + 1]) == SortOne(m', es[i])
  {
    assert es[..i + 1][..i] == es[..i];
  }

  lemma {:induction false} CrashStays(m: map<string, Details>, es: seq<Details>, i: nat)
    requires i <= |es| && SortAll(m, es[..i]).Crashed?
    ensures SortAll(m, es).Crashed?
    decreases |es| - i
  {
    if i == |es| {
      assert es[..i] == es;
    } else {
      assert es[..i + 1][..i] == es[..i];
      CrashStays(m, es, i + 1);
    }
  }

  // ----- what sorting a list of events leaves -----

  /** es[i] is the last accepted event with the id x. */
  ghost predicate Last(es: seq<Details>, i: int, x: string) {
    && 0 <= i < |es| && Accepted(es[i]) && Id(es[i]) == x
    && forall j | i < j < |es| && Accepted(es[j]) :: Id(es[j]) != x
  }

  /** m holds the record of the last event of each id, and nothing else. */
  ghost predicate Latest(m: map<string, Details>, es: seq<Details>) {
    && (forall i | 0 <= i < |es| && Accepted(es[i]) :: Id(es[i]) in m)
    && forall x | x in m :: exists i :: Last(es, i, x) && m[x] == Record(es[i])
  }

  /** All accepted definitions of an id agree. */
  ghost predicate Consistent(es: seq<Details>) {
    forall i, j | 0 <= i < j < |es| :: Agree(es[i], es[j])
  }

  ghost predicate Agree(a: Details, b: Details) {
    Accepted(a) && Accepted(b) && Id(a) == Id(b) ==> SameMetadata(a, b)
  }

  lemma RecordSame(a: Details, b: Details)
    ensures SameMetadata(Record(a), b) <==> SameMetadata(a, b)
  {
    forall n | n in Compared()
      ensures Get(Record(a), n) == Get(a, n)
    {
      assert n in Names();
    }
  }

  lemma LastKept(es: seq<Details>, e: Details, i: int, x: string)
    requires Last(es, i, x) && (Accepted(e) ==> Id(e) != x)
    ensures Last(es + [e], i, x)
  {
  }

  lemma LatestSkips(m: map<string, Details>, es: seq<Details>, e: Details)
    requires Latest(m, es) && !Accepted(e)
    ensures Latest(m, es + [e])
  {
    var es' := es + [e];
    forall x | x in m
      ensures exists i :: Last(es', i, x) && m[x] == Record(es'[i])
    {
      var i :| Last(es, i, x) && m[x] == Record(es[i]);
      LastKept(es, e, i, x);
      assert es'[i] == es[i];
    }
  }

  lemma LatestTakes(m: map<string, Details>, es: seq<Details>, e: Details, r: Details)
    requires Latest(m, es) && Accepted(e) && r == Record(e)
    ensures Latest(m[Id(e) := r], es + [e])
  {
    var es', m' := es + [e], m[Id(e) := r];
    forall x | x in m'
      ensures exists i :: Last(es', i, x) && m'[x] == Record(es'[i])
    {
      if x == Id(e) {
        assert Last(es', |es|, x) && es'[|es|] == e;
      } else {
        var i :| Last(es, i, x) && m[x] == Record(es[i]);
        LastKept(es, e, i, x);
        assert es'[i] == es[i];
      }
    }
  }

  /** Whether the next event agrees with all before it shows in the record kept for its id. */
  lemma AgreesWithKept(m: map<string, Details>, es: seq<Details>, e: Details)
    requires Latest(m, es) && Consistent(es) && Accepted(e)
    ensures (forall j | 0 <= j < |es| :: Agree(es[j], e)) <==> (Id(e) in m ==> SameMetadata(m[Id(e)], e))
  {
    if Id(e) in m {
      var i :| Last(es, i, Id(e)) && m[Id(e)] == Record(es[i]);
      RecordSame(es[i], e);
      if SameMetadata(m[Id(e)], e) {
        forall j | 0 <= j < |es|
          ensures Agree(es[j], e)
        {
          if Accepted(es[j]) && Id(es[j]) == Id(e) && j != i {
            assert Agree(es[j], es[i]);
          }
        }
      } else {
        assert !Agree(es[i], e);
      }
    }
  }

  lemma ConsistentNext(es: seq<Details>, e: Details)
    ensures Consistent(es + [e]) <==> Consistent(es) && forall j | 0 <= j < |es| :: Agree(es[j], e)
  {
    var es', n := es + [e], |es|;
    if Consistent(es') {
      forall j | 0 <= j < n
        ensures Agree(es[j], e)
      {
        assert Agree(es'[j], es'[n]);
      }
      forall i, j | 0 <= i < j < n
        ensures Agree(es[i], es[j])
      {
        assert Agree(es'[i], es'[j]);
      }
    }
  }

  ghost predicate AllLocated(es: seq<Details>) {
    forall i | 0 <= i < |es| :: Located(es[i])
  }

  lemma AcceptedLocated(e: Details)
    requires Accepted(e)
    ensures Located(e)
  {
    assert "file_name" in Needed() && "line_num" in Needed();
  }

  /** Sorting succeeds exactly when every event names its file and line and all definitions of an id agree, and
      then keeps the last of each. */
  lemma {:induction false} SortExact(es: seq<Details>)
    ensures SortAll(map[], es).Kept? <==> AllLocated(es) && Consistent(es)
    ensures SortAll(map[], es).Kept? ==> Latest(SortAll(map[], es).events, es)
  {
    if es != [] {
      var n := |es| - 1;
      var front, e := es[..n], es[n];
      assert es == front + [e];
      SortExact(front);
      ConsistentNext(front, e);
      if SortAll(map[], front).Kept? {
        var m := SortAll(map[], front).events;
        if Accepted(e) {
          AcceptedLocated(e);
          AgreesWithKept(m, front, e);
          LatestTakes(m, front, e, Record(e));
        } else {
          LatestSkips(m, front, e);
        }
      }
    }
  }

  ghost predicate DistinctIds(es: seq<Details>) {
    forall i, j | 0 <= i < j < |es| :: Id(es[i]) != Id(es[j])
  }

  /** m holds exactly the records of es, each under its id. */
  ghost predicate Holding(m: map<string, Details>, es: seq<Details>) {
    && (forall i | 0 <= i < |es| :: Id(es[i]) in m && m[Id(es[i])] == Record(es[i]))
    && forall x | x in m :: exists i :: 0 <= i < |es| && Id(es[i]) == x
  }

  lemma DistinctConsistent(es: seq<Details>)
    requires DistinctIds(es)
    ensures Consistent(es)
  {
    forall i, j | 0 <= i < j < |es|
      ensures Agree(es[i], es[j])
    {
      assert Id(es[i]) != Id(es[j]);
    }
  }

  lemma LatestHolding(m: map<string, Details>, es: seq<Details>)
    requires Latest(m, es) && DistinctIds(es) && forall i | 0 <= i < |es| :: Accepted(es[i])
    ensures Holding(m, es)
  {
    forall i | 0 <= i < |es|
      ensures Id(es[i]) in m && m[Id(es[i])] == Record(es[i])
    {
      var k :| Last(es, k, Id(es[i])) && m[Id(es[i])] == Record(es[k]);
      assert k == i;
    }
    forall x | x in m
      ensures exists i :: 0 <= i < |es| && Id(es[i]) == x
    {
      var i :| Last(es, i, x) && m[x] == Record(es[i]);
    }
  }

  /** Accepted events with distinct ids are all kept, each under its id. */
  lemma SortKeeps(es: seq<Details>)
    requires DistinctIds(es) && forall i | 0 <= i < |es| :: Accepted(es[i])
    ensures SortAll(map[], es).Kept? && Holding(SortAll(map[], es).events, es)
  {
    SortExact(es);
    DistinctConsistent(es);
    forall i | 0 <= i < |es|
      ensures Located(es[i])
    {
      AcceptedLocated(es[i]);
    }
    LatestHolding(SortAll(map[], es).events, es);
  }
}
