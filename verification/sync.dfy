/** The whole script: gather the three lists over the configured zones,
    reconcile, report, and apply. */
module Sync {
  import opened Records
  import opened AddrText
  import opened Extract
  import opened Partition
  import opened Reconciler
  import opened Apply

  /** The canonical name of a forward zone. */
  function Canonical(f: ForwardZone): string
  {
    f.name + "."
  }

  function ForwardDesired(fzs: seq<ForwardZone>): seq<Rec>
  {
    if fzs == [] then []
    else ForwardDesired(fzs[..|fzs| - 1]) + ForwardHosts(fzs[|fzs| - 1].name, fzs[|fzs| - 1].ips)
  }

  function ForwardOwned(fzs: seq<ForwardZone>): seq<Rec>
  {
    if fzs == [] then []
    else ForwardOwned(fzs[..|fzs| - 1]) + OwnedTuples(Canonical(fzs[|fzs| - 1]), fzs[|fzs| - 1].records)
  }

  /** `record_wo_comment_ips`: only forward zones feed it. */
  function ForwardUnmarked(fzs: seq<ForwardZone>): seq<Rec>
  {
    if fzs == [] then []
    else ForwardUnmarked(fzs[..|fzs| - 1]) + AllTuples(Canonical(fzs[|fzs| - 1]), fzs[|fzs| - 1].records)
  }

  function ReverseDesired(rzs: seq<ReverseZone>): seq<Rec>
  {
    if rzs == [] then []
    else ReverseDesired(rzs[..|rzs| - 1]) + ReverseHosts(rzs[|rzs| - 1].zone, rzs[|rzs| - 1].ips)
  }

  function ReverseOwned(rzs: seq<ReverseZone>): seq<Rec>
  {
    if rzs == [] then []
    else ReverseOwned(rzs[..|rzs| - 1]) + OwnedTuples(rzs[|rzs| - 1].zone, rzs[|rzs| - 1].records)
  }

  /** `host_ips`: forward zones first, then reverse zones. */
  function Desired(fzs: seq<ForwardZone>, rzs: seq<ReverseZone>): seq<Rec>
  {
    ForwardDesired(fzs) + ReverseDesired(rzs)
  }

  /** `record_ips`: forward zones first, then reverse zones. */
  function Owned(fzs: seq<ForwardZone>, rzs: seq<ReverseZone>): seq<Rec>
  {
    ForwardOwned(fzs) + ReverseOwned(rzs)
  }

  /** The action sets of a run over these zones. */
  function Plan(fzs: seq<ForwardZone>, rzs: seq<ReverseZone>): Actions
  {
    Reconcile(Elems(Desired(fzs, rzs)), Elems(Owned(fzs, rzs)), Elems(ForwardUnmarked(fzs)))
  }

  /** The forward-zone loop, appending to the three lists. */
  method CollectForward(fzs: seq<ForwardZone>)
    returns (hostIps: seq<Rec>, recordIps: seq<Rec>, recordWoCommentIps: seq<Rec>)
    ensures hostIps == ForwardDesired(fzs)
    ensures recordIps == ForwardOwned(fzs)
    ensures recordWoCommentIps == ForwardUnmarked(fzs)
  {
    hostIps, recordIps, recordWoCommentIps := [], [], [];
    var i := 0;
    while i < |fzs|
      invariant 0 <= i <= |fzs|
      invariant hostIps == ForwardDesired(fzs[..i])
      invariant recordIps == ForwardOwned(fzs[..i])
      invariant recordWoCommentIps == ForwardUnmarked(fzs[..i])
    {
      var f := fzs[i];
      assert fzs[..i + 1][..i] == fzs[..i] && fzs[..i + 1][i] == f;
      var hosts := ExtractForward(f.name, f.ips);
      hostIps := hostIps + hosts;
      var owned, unmarked := PartitionForward(Canonical(f), f.records);
      recordIps := recordIps + owned;
      recordWoCommentIps := recordWoCommentIps + unmarked;
      i := i + 1;
    }
    assert fzs[..i] == fzs;
  }

  /** The reverse-zone loop, appending to the desired and owned lists. */
  method CollectReverse(rzs: seq<ReverseZone>) returns (hostIps: seq<Rec>, recordIps: seq<Rec>)
    ensures hostIps == ReverseDesired(rzs)
    ensures recordIps == ReverseOwned(rzs)
  {
    hostIps, recordIps := [], [];
    var j := 0;
    while j < |rzs|
      invariant 0 <= j <= |rzs|
      invariant hostIps == ReverseDesired(rzs[..j])
      invariant recordIps == ReverseOwned(rzs[..j])
    {
      var z := rzs[j];
      assert rzs[..j + 1][..j] == rzs[..j] && rzs[..j + 1][j] == z;
      var hosts := ExtractReverse(z.zone, z.ips);
      hostIps := hostIps + hosts;
      var owned := PartitionReverse(z.zone, z.records);
      recordIps := recordIps + owned;
      j := j + 1;
    }
    assert rzs[..j] == rzs;
  }

  /** What one run yields: the action sets, the report, the apply trace and
      the store calls the script makes when every call returns. */
  datatype SyncRun = SyncRun(actions: Actions, report: seq<Section>, trace: seq<Step>, calls: seq<Call>)

  /** One run of the script over the given zones. `debug` switches the store
      calls off and nothing else. */
  method Run(fzs: seq<ForwardZone>, rzs: seq<ReverseZone>, debug: bool) returns (run: SyncRun)
    ensures run.actions == Plan(fzs, rzs)
    ensures |run.report| == 4
    ensures run.report[0].count == |run.actions.toCreate| && run.report[1].count == |run.actions.toUpdate|
    ensures run.report[2].count == |run.actions.toDelete| && run.report[3].count == |run.actions.missing|
    ensures Lists(run.report[0], "records to create:", run.actions.toCreate)
    ensures Lists(run.report[1], "records to update:", run.actions.toUpdate)
    ensures Lists(run.report[2], "records to delete:", run.actions.toDelete)
    ensures Lists(run.report[3], "missing records:", run.actions.missing)
    ensures forall t :: Step(Creating, t) in run.trace <==> t in run.actions.toCreate
    ensures forall t :: Step(Updating, t) in run.trace <==> t in run.actions.toUpdate
    ensures forall t :: Step(Deleting, t) in run.trace <==> t in run.actions.toDelete
    ensures Distinct(run.trace)
    ensures forall i, j :: 0 <= i < j < |run.trace| ==> Rank(run.trace[i].verb) <= Rank(run.trace[j].verb)
    ensures forall s :: s in run.trace ==> s.rec !in run.actions.missing - run.actions.toUpdate
    ensures debug ==> run.calls == []
    ensures !debug ==> run.calls == CallsFor(run.trace) && Distinct(run.calls)
    // no create call is issued after a delete call
    ensures forall i, j :: 0 <= i < j < |run.calls| ==>
      !(run.calls[i].op == DeleteRecords && run.calls[j].op == CreateRecords)
  {
    var hostIps, recordIps, recordWoCommentIps := CollectForward(fzs);
    var reverseHostIps, reverseRecordIps := CollectReverse(rzs);
    hostIps, recordIps := hostIps + reverseHostIps, recordIps + reverseRecordIps;
    var actions := Reconcile(Elems(hostIps), Elems(recordIps), Elems(recordWoCommentIps));
    var report := Report(actions);
    var trace, calls := ApplyAll(actions, debug);
    if !debug {
      CallsDistinct(actions, trace);
    }
    run := SyncRun(actions, report, trace, calls);
  }

  /** No store call is issued twice: a tuple is created or updated, never
      both, because the create and update sets are disjoint. */
  lemma CallsDistinct(a: Actions, trace: seq<Step>)
    requires a.toCreate !! a.toUpdate && Distinct(trace)
    requires forall t :: Step(Creating, t) in trace <==> t in a.toCreate
    requires forall t :: Step(Updating, t) in trace <==> t in a.toUpdate
    ensures Distinct(CallsFor(trace))
  {
    var calls := CallsFor(trace);
    forall i, j | 0 <= i < j < |trace|
      ensures calls[i] != calls[j]
    {
      assert trace[i] in trace && trace[j] in trace;
    }
  }

  /** The forward part of `host_ips` holds one tuple per NetBox IP of each
      forward zone, and nothing else. */
  lemma {:induction false} ForwardDesiredMembers(fzs: seq<ForwardZone>, t: Rec)
    ensures t in ForwardDesired(fzs) <==> exists f :: f in fzs && t in ForwardHosts(f.name, f.ips)
  {
    if fzs != [] {
      var n := |fzs|;
      var init, last := fzs[..n - 1], fzs[n - 1];
      ForwardDesiredMembers(init, t);
      assert fzs == init + [last];
    }
  }

  /** Forward zones contribute only A and AAAA tuples whose value carries no
      prefix length, named and zoned with a trailing dot. */
  lemma ForwardDesiredShape(fzs: seq<ForwardZone>, t: Rec)
    requires t in ForwardDesired(fzs)
    ensures t.rtype == "A" || t.rtype == "AAAA"
    ensures '/' !in t.value
    ensures |t.name| > 0 && t.name[|t.name| - 1] == '.'
    ensures exists f :: f in fzs && t.zone == Canonical(f)
  {
    ForwardDesiredMembers(fzs, t);
    var f :| f in fzs && t in ForwardHosts(f.name, f.ips);
    ForwardHostsMembers(f.name, f.ips, t);
    var k :| 0 <= k < |f.ips| && t == ForwardTuple(f.name, f.ips[k]);
    ForwardTupleShape(f.name, f.ips[k]);
  }

  /** `record_wo_comment_ips` holds exactly the value tuples of the forward
      zones' record sets, marked or not; no reverse-zone record reaches it. */
  lemma {:induction false} ForwardUnmarkedMembers(fzs: seq<ForwardZone>, t: Rec)
    ensures t in ForwardUnmarked(fzs) <==>
      exists f :: f in fzs && exists r :: r in f.records && Carries(r, Canonical(f), t)
  {
    if fzs != [] {
      var n := |fzs|;
      var init, last := fzs[..n - 1], fzs[n - 1];
      ForwardUnmarkedMembers(init, t);
      AllTuplesMembers(Canonical(last), last.records, t);
      assert fzs == init + [last];
    }
  }

  lemma {:induction false} ForwardOwnedMembers(fzs: seq<ForwardZone>, t: Rec)
    ensures t in ForwardOwned(fzs) <==>
      exists f :: f in fzs && exists r :: r in f.records && Marker in r.comments && Carries(r, Canonical(f), t)
  {
    if fzs != [] {
      var n := |fzs|;
      var init, last := fzs[..n - 1], fzs[n - 1];
      ForwardOwnedMembers(init, t);
      OwnedTuplesMembers(Canonical(last), last.records, t);
      assert fzs == init + [last];
    }
  }

  lemma {:induction false} ReverseOwnedMembers(rzs: seq<ReverseZone>, t: Rec)
    ensures t in ReverseOwned(rzs) <==>
      exists z :: z in rzs && exists r :: r in z.records && Marker in r.comments && Carries(r, z.zone, t)
  {
    if rzs != [] {
      var n := |rzs|;
      var init, last := rzs[..n - 1], rzs[n - 1];
      ReverseOwnedMembers(init, t);
      OwnedTuplesMembers(last.zone, last.records, t);
      assert rzs == init + [last];
    }
  }

  /** Over all forward zones, `record_ips` lies within `record_wo_comment_ips`. */
  lemma ForwardOwnedWithinUnmarked(fzs: seq<ForwardZone>)
    ensures Elems(ForwardOwned(fzs)) <= Elems(ForwardUnmarked(fzs))
  {
    forall t | t in ForwardOwned(fzs)
      ensures t in ForwardUnmarked(fzs)
    {
      ForwardOwnedMembers(fzs, t);
      ForwardUnmarkedMembers(fzs, t);
    }
  }

  /** Only tuples of marked record sets are deleted: every tuple to delete is
      a value entry of a record set, in a configured zone, whose comments
      include the marker, and no desired tuple is deleted. */
  lemma DeletesOnlyMarked(fzs: seq<ForwardZone>, rzs: seq<ReverseZone>, t: Rec)
    requires t in Plan(fzs, rzs).toDelete
    ensures t !in Desired(fzs, rzs)
    ensures (exists f :: f in fzs && exists r :: r in f.records && Marker in r.comments && Carries(r, Canonical(f), t))
         || (exists z :: z in rzs && exists r :: r in z.records && Marker in r.comments && Carries(r, z.zone, t))
  {
    ForwardOwnedMembers(fzs, t);
    ReverseOwnedMembers(rzs, t);
  }

  /** Conversely, a value entry of a marked forward-zone record set that is no
      longer desired is deleted. */
  lemma StaleMarkedIsDeleted(fzs: seq<ForwardZone>, rzs: seq<ReverseZone>, f: ForwardZone, r: ZoneRecord, t: Rec)
    requires f in fzs && r in f.records && Marker in r.comments && Carries(r, Canonical(f), t)
    requires t !in Desired(fzs, rzs)
    ensures t in Plan(fzs, rzs).toDelete
  {
    ForwardOwnedMembers(fzs, t);
  }

  /** The same for a marked record set of a reverse zone. */
  lemma StaleMarkedReverseIsDeleted(fzs: seq<ForwardZone>, rzs: seq<ReverseZone>, z: ReverseZone, r: ZoneRecord, t: Rec)
    requires z in rzs && r in z.records && Marker in r.comments && Carries(r, z.zone, t)
    requires t !in Desired(fzs, rzs)
    ensures t in Plan(fzs, rzs).toDelete
  {
    ReverseOwnedMembers(rzs, t);
  }

  /** A value entry of a forward-zone record set that NetBox does not
      document, and that no marked record set holds, is reported missing. */
  lemma UnmarkedUndesiredIsMissing(fzs: seq<ForwardZone>, rzs: seq<ReverseZone>, f: ForwardZone, r: ZoneRecord, t: Rec)
    requires f in fzs && r in f.records && Carries(r, Canonical(f), t)
    requires t !in Desired(fzs, rzs) && t !in Owned(fzs, rzs)
    ensures t in Plan(fzs, rzs).missing
  {
    ForwardUnmarkedMembers(fzs, t);
  }

  /** A desired tuple found in a marked forward-zone record set is updated:
      the for-else also files it as unmarked. Re-running after a complete
      apply therefore re-creates every desired forward tuple again. */
  lemma MarkedDesiredForwardIsUpdated(fzs: seq<ForwardZone>, rzs: seq<ReverseZone>, f: ForwardZone, r: ZoneRecord, t: Rec)
    requires f in fzs && r in f.records && Marker in r.comments && Carries(r, Canonical(f), t)
    requires t in Desired(fzs, rzs)
    ensures t in Plan(fzs, rzs).toUpdate && t in Plan(fzs, rzs).missing
    ensures t !in Plan(fzs, rzs).toCreate && t !in Plan(fzs, rzs).toDelete
  {
    ForwardUnmarkedMembers(fzs, t);
  }

  /** The host a.example.com at 10.0.0.1/24 in forward zone example.com. */
  function ExampleIp(): NbIp
  {
    NbIp("a.example.com", 4, "10.0.0.1/24", V4(10, 0, 0, 1))
  }

  function ExampleTuple(): Rec
  {
    Rec("a.example.com.", "A", "10.0.0.1", "example.com.")
  }

  lemma ExampleStrip()
    ensures StripPrefix(ExampleIp().text) == "10.0.0.1"
  {
    StripPrefixOfCidr("10.0.0.1", "24");
    assert "10.0.0.1" + "/" + "24" == ExampleIp().text;
  }

  lemma ExampleForwardHosts()
    ensures ForwardDesired([ForwardZone("example.com", [ExampleIp()], [])]) == [ExampleTuple()]
  {
    var ip := ExampleIp();
    ExampleStrip();
    assert ip.dnsName + "." == "a.example.com.";
    assert "example.com" + "." == "example.com.";
    assert ForwardTuple("example.com", ip) == ExampleTuple();
    var f := ForwardZone("example.com", [ip], []);
    assert f.ips[..0] == [];
    assert ForwardHosts(f.name, f.ips) == [ExampleTuple()];
    assert [f][..0] == [];
  }

  /** The first run over a zone without records creates the host's A record
      and does nothing else. */
  lemma FirstRunCreates()
    ensures Plan([ForwardZone("example.com", [ExampleIp()], [])], []) == Actions({ExampleTuple()}, {}, {}, {})
  {
    var f := ForwardZone("example.com", [ExampleIp()], []);
    ExampleForwardHosts();
    assert [f][..0] == [];
    assert Desired([f], []) == [ExampleTuple()];
    assert Owned([f], []) == [] && ForwardUnmarked([f]) == [];
    assert Elems([ExampleTuple()]) == {ExampleTuple()};
  }

  /** The A record of that host as a previous run created it. */
  function ExampleRecord(): ZoneRecord
  {
    ZoneRecord("a.example.com.", "A", ["10.0.0.1"], [Marker])
  }

  lemma ExampleRecordTuples()
    ensures OwnedTuples("example.com.", [ExampleRecord()]) == [ExampleTuple()]
    ensures AllTuples("example.com.", [ExampleRecord()]) == [ExampleTuple()]
  {
    var r, t := ExampleRecord(), ExampleTuple();
    assert [r][..0] == [] && r.comments[..0] == [];
    assert ValueTuples("example.com.", r) == [t];
    assert MarkedCopies(r.comments, [t]) == [t];
  }

  lemma ExampleObserved()
    ensures var f := ForwardZone("example.com", [ExampleIp()], [ExampleRecord()]);
      ForwardDesired([f]) == [ExampleTuple()] && ForwardOwned([f]) == [ExampleTuple()]
      && ForwardUnmarked([f]) == [ExampleTuple()]
  {
    var f := ForwardZone("example.com", [ExampleIp()], [ExampleRecord()]);
    ExampleForwardHosts();
    ExampleRecordTuples();
    assert [f][..0] == [];
    assert "example.com" + "." == "example.com.";
    assert Canonical(f) == "example.com.";
    assert ForwardDesired([f]) == ForwardDesired([ForwardZone("example.com", [ExampleIp()], [])]);
    assert ForwardOwned([f]) == ForwardOwned([]) + OwnedTuples(Canonical(f), [ExampleRecord()]);
    assert ForwardUnmarked([f]) == ForwardUnmarked([]) + AllTuples(Canonical(f), [ExampleRecord()]);
  }

  /** Once that record exists with the marker, the next run does not find
      everything done: it updates the record and reports it missing. */
  lemma RerunUpdates()
    ensures Plan([ForwardZone("example.com", [ExampleIp()], [ExampleRecord()])], []) ==
              Actions({}, {ExampleTuple()}, {}, {ExampleTuple()})
  {
    var t := ExampleTuple();
    var f := ForwardZone("example.com", [ExampleIp()], [ExampleRecord()]);
    ExampleObserved();
    assert Desired([f], []) == [t] && Owned([f], []) == [t];
    assert Elems([t]) == {t};
    assert Plan([f], []) == Reconcile({t}, {t}, {t});
    assert {t} - {t} == {} && {t} * {t} == {t};
  }
}
