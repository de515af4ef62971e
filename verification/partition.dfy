/** Observed state: the tuples the sync reads from a PowerDNS zone, split by
    whether the record set carries the ownership marker.

    The script writes the forward-zone split as `for comment ...: if marker:
    append ... else: append ...`, where the `else` belongs to the `for` loop.
    That loop never breaks, so its `else` always runs: every value entry of
    every forward-zone record set goes to the unmarked list, and the entries
    of a marked record set go to the owned list as well, once per comment
    equal to the marker. Reverse zones have no `else` and feed only the owned
    list. */
module Partition {
  import opened Records

  /** One tuple per value entry of record set `r`, in entry order. */
  function ValueTuples(zone: string, r: ZoneRecord): seq<Rec>
  {
    seq(|r.contents|, j requires 0 <= j < |r.contents| => Rec(r.name, r.rtype, r.contents[j], zone))
  }

  /** `vals` once for each comment equal to the marker, in comment order. */
  function MarkedCopies(comments: seq<string>, vals: seq<Rec>): seq<Rec>
  {
    if comments == [] then []
    else
      MarkedCopies(comments[..|comments| - 1], vals)
        + (if comments[|comments| - 1] == Marker then vals else [])
  }

  /** The owned list a zone's record sets give. */
  function OwnedTuples(zone: string, records: seq<ZoneRecord>): seq<Rec>
  {
    if records == [] then []
    else
      var r := records[|records| - 1];
      OwnedTuples(zone, records[..|records| - 1]) + MarkedCopies(r.comments, ValueTuples(zone, r))
  }

  /** The list of every value entry of a zone's record sets. */
  function AllTuples(zone: string, records: seq<ZoneRecord>): seq<Rec>
  {
    if records == [] then []
    else
      AllTuples(zone, records[..|records| - 1]) + ValueTuples(zone, records[|records| - 1])
  }

  /** `for ip in record["records"]: l.append(...)`. */
  method AppendValues(l: seq<Rec>, zone: string, r: ZoneRecord) returns (l': seq<Rec>)
    ensures l' == l + ValueTuples(zone, r)
  {
    l' := l;
    var j := 0;
    while j < |r.contents|
      invariant 0 <= j <= |r.contents|
      invariant l' == l + ValueTuples(zone, r)[..j]
    {
      l' := l' + [Rec(r.name, r.rtype, r.contents[j], zone)];
      j := j + 1;
    }
    assert ValueTuples(zone, r)[..j] == ValueTuples(zone, r);
  }

  /** The loop over the comments of one record set: each comment equal to the
      marker appends all of the record set's value tuples. */
  method AppendMarked(l: seq<Rec>, zone: string, r: ZoneRecord) returns (l': seq<Rec>)
    ensures l' == l + MarkedCopies(r.comments, ValueTuples(zone, r))
  {
    l' := l;
    var c := 0;
    while c < |r.comments|
      invariant 0 <= c <= |r.comments|
      invariant l' == l + MarkedCopies(r.comments[..c], ValueTuples(zone, r))
    {
      assert r.comments[..c + 1][..c] == r.comments[..c];
      if r.comments[c] == Marker {
        l' := AppendValues(l', zone, r);
      }
      c := c + 1;
    }
    assert r.comments[..c] == r.comments;
  }

  /** The record loop of a forward zone: `owned` is the script's
      `record_ips` part, `unmarked` its `record_wo_comment_ips` part. */
  method PartitionForward(zone: string, records: seq<ZoneRecord>) returns (owned: seq<Rec>, unmarked: seq<Rec>)
    ensures owned == OwnedTuples(zone, records)
    ensures unmarked == AllTuples(zone, records)
  {
    owned, unmarked := [], [];
    var i := 0;
    while i < |records|
      invariant 0 <= i <= |records|
      invariant owned == OwnedTuples(zone, records[..i])
      invariant unmarked == AllTuples(zone, records[..i])
    {
      assert records[..i + 1][..i] == records[..i];
      owned := AppendMarked(owned, zone, records[i]);
      // the for-else branch: runs after every comment loop
      unmarked := AppendValues(unmarked, zone, records[i]);
      i := i + 1;
    }
    assert records[..i] == records;
  }

  /** The record loop of a reverse zone: only marked record sets count. */
  method PartitionReverse(zone: string, records: seq<ZoneRecord>) returns (owned: seq<Rec>)
    ensures owned == OwnedTuples(zone, records)
  {
    owned := [];
    var i := 0;
    while i < |records|
      invariant 0 <= i <= |records|
      invariant owned == OwnedTuples(zone, records[..i])
    {
      assert records[..i + 1][..i] == records[..i];
      owned := AppendMarked(owned, zone, records[i]);
      i := i + 1;
    }
    assert records[..i] == records;
  }

  /** A record set's value tuples appear once per marker comment. */
  lemma {:induction false} MarkedCopiesLength(comments: seq<string>, vals: seq<Rec>)
    ensures |MarkedCopies(comments, vals)| == multiset(comments)[Marker] * |vals|
  {
    if comments != [] {
      var n := |comments|;
      var init, last := comments[..n - 1], comments[n - 1];
      assert comments == init + [last];
      MarkedCopiesLength(init, vals);
      MarkerCountSnoc(init, last);
      if last == Marker {
        MulSucc(multiset(init)[Marker], |vals|);
      }
    }
  }

  lemma MulSucc(m: int, v: int)
    ensures (m + 1) * v == m * v + v
  {
  }

  /** The marker count of a comment list grows by one exactly when the
      appended comment is the marker. */
  lemma MarkerCountSnoc(init: seq<string>, last: string)
    ensures multiset(init + [last])[Marker] == multiset(init)[Marker] + (if last == Marker then 1 else 0)
  {
    assert multiset(init + [last]) == multiset(init) + multiset{last};
  }

  lemma {:induction false} MarkedCopiesMembers(comments: seq<string>, vals: seq<Rec>, t: Rec)
    ensures t in MarkedCopies(comments, vals) <==> Marker in comments && t in vals
  {
    if comments != [] {
      var n := |comments|;
      MarkedCopiesMembers(comments[..n - 1], vals, t);
      assert comments == comments[..n - 1] + [comments[n - 1]];
    }
  }

  lemma ValueTuplesMembers(zone: string, r: ZoneRecord, t: Rec)
    ensures t in ValueTuples(zone, r) <==> Carries(r, zone, t)
  {
    if Carries(r, zone, t) {
      var j :| 0 <= j < |r.contents| && r.contents[j] == t.value;
      assert ValueTuples(zone, r)[j] == t;
    }
  }

  /** A tuple is in the unmarked list exactly when some record set of the
      zone has a value entry that gives it. */
  lemma {:induction false} AllTuplesMembers(zone: string, records: seq<ZoneRecord>, t: Rec)
    ensures t in AllTuples(zone, records) <==> exists r :: r in records && Carries(r, zone, t)
  {
    if records != [] {
      var n := |records|;
      var init, last := records[..n - 1], records[n - 1];
      AllTuplesMembers(zone, init, t);
      ValueTuplesMembers(zone, last, t);
      assert records == init + [last];
    }
  }

  /** A tuple is in the owned list exactly when some record set of the zone
      that carries a marker comment has a value entry that gives it. */
  lemma {:induction false} OwnedTuplesMembers(zone: string, records: seq<ZoneRecord>, t: Rec)
    ensures t in OwnedTuples(zone, records) <==>
      exists r :: r in records && Marker in r.comments && Carries(r, zone, t)
  {
    if records != [] {
      var n := |records|;
      var init, last := records[..n - 1], records[n - 1];
      OwnedTuplesMembers(zone, init, t);
      MarkedCopiesMembers(last.comments, ValueTuples(zone, last), t);
      ValueTuplesMembers(zone, last, t);
      assert records == init + [last];
    }
  }

  /** In a forward zone the owned tuples are among the unmarked ones: the two
      lists the script builds are not disjoint. */
  lemma OwnedWithinAll(zone: string, records: seq<ZoneRecord>)
    ensures Elems(OwnedTuples(zone, records)) <= Elems(AllTuples(zone, records))
  {
    forall t | t in OwnedTuples(zone, records)
      ensures t in AllTuples(zone, records)
    {
      OwnedTuplesMembers(zone, records, t);
      AllTuplesMembers(zone, records, t);
    }
  }
}
