/** The report and the apply plan. PowerDNS is not called: each create or
    delete call the script would make is recorded, in order, as a `Call`. */
module Apply {
  import opened Records
  import opened Reconciler

  /** The word the script prints before each tuple it acts on. */
  datatype Verb = Creating | Updating | Deleting

  datatype Op = CreateRecords | DeleteRecords

  /** A PowerDNS RRSet: name, type, (content, disabled) values, comments. */
  datatype RRSet = RRSet(name: string, rtype: string, values: seq<(string, bool)>, comments: seq<string>)

  /** One store call: the operation, the zone it goes to, the RRSet it sends. */
  datatype Call = Call(op: Op, zone: string, rrset: RRSet)

  /** One trace line of the apply phase. */
  datatype Step = Step(verb: Verb, rec: Rec)

  /** One report block: its heading, the set's size, one name per tuple. */
  datatype Section = Section(heading: string, count: nat, names: seq<string>)

  /** The call issued for tuple `t` after printing `verb`: to zone `t.zone`,
      an RRSet of `t`'s name and type holding `t`'s value, enabled, and the
      marker comment. Creating and updating issue the same call. */
  function CallFor(verb: Verb, t: Rec): Call
  {
    Call(if verb == Deleting then DeleteRecords else CreateRecords, t.zone,
         RRSet(t.name, t.rtype, [(t.value, false)], [Marker]))
  }

  predicate Distinct<T(==)>(s: seq<T>)
  {
    forall i, j :: 0 <= i < j < |s| ==> s[i] != s[j]
  }

  /** `order` lists each tuple of `s` exactly once: an iteration order of `s`. */
  ghost predicate Enumerates(order: seq<Rec>, s: set<Rec>)
  {
    |order| == |s| && Distinct(order) && forall t :: t in order <==> t in s
  }

  function Names(order: seq<Rec>): seq<string>
  {
    seq(|order|, k requires 0 <= k < |order| => order[k].name)
  }

  /** `print(len(s), heading)` then `print(record[0])` for each tuple of `s`.
      The iteration order of a set is left open; `order` names the one taken. */
  method ReportSection(heading: string, s: set<Rec>) returns (sec: Section, ghost order: seq<Rec>)
    ensures sec.heading == heading && sec.count == |s| && |sec.names| == |s|
    ensures forall t :: t in s ==> t.name in sec.names
    ensures forall n :: n in sec.names ==> exists t :: t in s && t.name == n
    ensures Enumerates(order, s)
    ensures sec == Section(heading, |s|, Names(order))
  {
    var names: seq<string> := [];
    order := [];
    var rest := s;
    while rest != {}
      invariant rest <= s
      invariant forall t :: t in order <==> t in s && t !in rest
      invariant Distinct(order) && |order| + |rest| == |s|
      invariant names == Names(order)
      decreases |rest|
    {
      var t :| t in rest;
      names := names + [t.name];
      order := order + [t];
      rest := rest - {t};
    }
    sec := Section(heading, |s|, names);
    NamesFrom(order, s);
  }

  /** `sec` is the block the script prints for set `s` under `heading`: the
      set's size, then one name per tuple in some iteration order of `s`. */
  ghost predicate Lists(sec: Section, heading: string, s: set<Rec>)
  {
    exists order :: Enumerates(order, s) && sec == Section(heading, |s|, Names(order))
  }

  /** The four report blocks, in the script's order. */
  method Report(a: Actions) returns (report: seq<Section>)
    ensures |report| == 4
    ensures Lists(report[0], "records to create:", a.toCreate)
    ensures Lists(report[1], "records to update:", a.toUpdate)
    ensures Lists(report[2], "records to delete:", a.toDelete)
    ensures Lists(report[3], "missing records:", a.missing)
    ensures report[0].count == |a.toCreate| && report[1].count == |a.toUpdate|
    ensures report[2].count == |a.toDelete| && report[3].count == |a.missing|
    ensures forall k :: 0 <= k < 4 ==> forall t :: t in [a.toCreate, a.toUpdate, a.toDelete, a.missing][k] ==>
      t.name in report[k].names
    ensures forall k :: 0 <= k < 4 ==> forall n :: n in report[k].names ==>
      exists t :: t in [a.toCreate, a.toUpdate, a.toDelete, a.missing][k] && t.name == n
  {
    var c, oc := ReportSection("records to create:", a.toCreate);
    var u, ou := ReportSection("records to update:", a.toUpdate);
    var d, od := ReportSection("records to delete:", a.toDelete);
    var m, om := ReportSection("missing records:", a.missing);
    report := [c, u, d, m];
    NamesFrom(oc, a.toCreate);
    NamesFrom(ou, a.toUpdate);
    NamesFrom(od, a.toDelete);
    NamesFrom(om, a.missing);
  }

  /** The names of an enumeration of `s` are exactly the names of `s`'s tuples. */
  lemma NamesFrom(order: seq<Rec>, s: set<Rec>)
    requires Enumerates(order, s)
    ensures forall t :: t in s ==> t.name in Names(order)
    ensures forall n :: n in Names(order) ==> exists t :: t in s && t.name == n
  {
    forall t | t in s
      ensures t.name in Names(order)
    {
      var k :| 0 <= k < |order| && order[k] == t;
      assert Names(order)[k] == t.name;
    }
    forall n | n in Names(order)
      ensures exists t :: t in s && t.name == n
    {
      var k :| 0 <= k < |order| && Names(order)[k] == n;
      assert order[k] in s;
    }
  }

  /** The calls the trace `steps` gives rise to, one per step. */
  function CallsFor(steps: seq<Step>): seq<Call>
  {
    seq(|steps|, k requires 0 <= k < |steps| => CallFor(steps[k].verb, steps[k].rec))
  }

  /** One apply loop: `print(verb, record)` for each tuple of `s`, then,
      unless `debug`, the store call for it. */
  method ApplySet(verb: Verb, s: set<Rec>, debug: bool) returns (steps: seq<Step>, calls: seq<Call>)
    ensures |steps| == |s| && Distinct(steps)
    ensures forall t :: Step(verb, t) in steps <==> t in s
    ensures forall k :: 0 <= k < |steps| ==> steps[k].verb == verb
    ensures calls == if debug then [] else CallsFor(steps)
  {
    steps, calls := [], [];
    var rest := s;
    while rest != {}
      invariant rest <= s
      invariant forall k :: 0 <= k < |steps| ==> steps[k].verb == verb
      invariant forall t :: Step(verb, t) in steps <==> t in s && t !in rest
      invariant Distinct(steps) && |steps| + |rest| == |s|
      invariant calls == if debug then [] else CallsFor(steps)
      decreases |rest|
    {
      var t :| t in rest;
      steps := steps + [Step(verb, t)];
      if !debug {
        calls := calls + [CallFor(verb, t)];
      }
      rest := rest - {t};
    }
  }

  lemma CallsForAppend(s: seq<Step>, u: seq<Step>)
    ensures CallsFor(s + u) == CallsFor(s) + CallsFor(u)
  {
  }

  /** Two traces without repeats and without a verb in common join into one
      without repeats. */
  lemma DistinctJoin(s: seq<Step>, u: seq<Step>, vs: set<Verb>)
    requires Distinct(s) && Distinct(u)
    requires forall k :: 0 <= k < |s| ==> s[k].verb in vs
    requires forall k :: 0 <= k < |u| ==> u[k].verb !in vs
    ensures Distinct(s + u)
  {
    var w := s + u;
    forall i, j | 0 <= i < j < |w|
      ensures w[i] != w[j]
    {
      if i < |s| && j >= |s| {
        assert w[i].verb in vs && w[j].verb !in vs;
      }
    }
  }

  /** The position of a verb's loop among the three apply loops. */
  function Rank(v: Verb): nat
  {
    match v
    case Creating => 0
    case Updating => 1
    case Deleting => 2
  }

  /** The three apply loops: creates, then updates, then deletes. The missing
      set has no loop. */
  method ApplyAll(a: Actions, debug: bool) returns (trace: seq<Step>, calls: seq<Call>)
    ensures |trace| == |a.toCreate| + |a.toUpdate| + |a.toDelete|
    ensures forall t :: Step(Creating, t) in trace <==> t in a.toCreate
    ensures forall t :: Step(Updating, t) in trace <==> t in a.toUpdate
    ensures forall t :: Step(Deleting, t) in trace <==> t in a.toDelete
    ensures forall s :: s in trace ==> s.rec in Acted(a)
    ensures Distinct(trace)
    // every create is traced before every update, every update before every delete
    ensures forall i, j :: 0 <= i < j < |trace| ==> Rank(trace[i].verb) <= Rank(trace[j].verb)
    ensures calls == if debug then [] else CallsFor(trace)
    // so no create call is issued after a delete call
    ensures forall i, j :: 0 <= i < j < |calls| ==>
      !(calls[i].op == DeleteRecords && calls[j].op == CreateRecords)
  {
    var sc, cc := ApplySet(Creating, a.toCreate, debug);
    var su, cu := ApplySet(Updating, a.toUpdate, debug);
    var sd, cd := ApplySet(Deleting, a.toDelete, debug);
    DistinctJoin(sc, su, {Creating});
    DistinctJoin(sc + su, sd, {Creating, Updating});
    trace := sc + su + sd;
    JoinInLoopOrder(sc, su, sd);
    calls := cc + cu + cd;
    if !debug {
      CallsForAppend(sc, su);
      CallsForAppend(sc + su, sd);
      CallsKeepOrder(trace);
    }
  }

  /** The create, update and delete traces, joined in that order, are in loop
      order. */
  lemma JoinInLoopOrder(sc: seq<Step>, su: seq<Step>, sd: seq<Step>)
    requires forall k :: 0 <= k < |sc| ==> sc[k].verb == Creating
    requires forall k :: 0 <= k < |su| ==> su[k].verb == Updating
    requires forall k :: 0 <= k < |sd| ==> sd[k].verb == Deleting
    ensures var w := sc + su + sd;
      forall i, j :: 0 <= i < j < |w| ==> Rank(w[i].verb) <= Rank(w[j].verb)
  {
    var w := sc + su + sd;
    forall k | 0 <= k < |w|
      ensures Rank(w[k].verb) == if k < |sc| then 0 else if k < |sc| + |su| then 1 else 2
    {
      if k < |sc| {
        assert w[k] == sc[k];
      } else if k < |sc| + |su| {
        assert w[k] == su[k - |sc|];
      } else {
        assert w[k] == sd[k - |sc| - |su|];
      }
    }
  }

  /** Calls follow their trace lines, so a trace in loop order issues no
      create call after a delete call. */
  lemma CallsKeepOrder(trace: seq<Step>)
    requires forall i, j :: 0 <= i < j < |trace| ==> Rank(trace[i].verb) <= Rank(trace[j].verb)
    ensures var calls := CallsFor(trace);
      forall i, j :: 0 <= i < j < |calls| ==> !(calls[i].op == DeleteRecords && calls[j].op == CreateRecords)
  {
    var calls := CallsFor(trace);
    forall i, j | 0 <= i < j < |calls|
      ensures !(calls[i].op == DeleteRecords && calls[j].op == CreateRecords)
    {
      assert calls[i].op == DeleteRecords <==> trace[i].verb == Deleting;
      assert calls[j].op == CreateRecords <==> trace[j].verb != Deleting;
    }
  }
}
