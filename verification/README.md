# netbox-powerdns-sync, modelled in Dafny

`netbox-powerdns-sync.py` keeps PowerDNS zones in line with the IP addresses
documented in NetBox. Every run does the following:

1. It builds the **desired** tuples `(name, type, value, zone)`:
   - For each forward zone, every NetBox IP whose DNS name ends in the zone
     gives an A or AAAA tuple. The name and zone get a trailing dot, and the
     value is the address text without its `/prefixlen`.
   - For each reverse zone, every NetBox IP inside the zone's prefix that has
     a DNS name gives a PTR tuple. Its name is the address's reverse-lookup
     name plus a dot.
2. It reads each zone's PowerDNS record sets and builds two **observed**
   lists:
   - `record_ips` holds the tuples of record sets that carry the comment
     `NetBox`, the ownership marker.
   - `record_wo_comment_ips` is meant to hold the unmarked tuples.
3. It computes four sets: `to_create`, `to_update`, `to_delete` and
   `missing`.
4. It prints each set's size and names. Then, unless `DEBUG` is set, it sends
   one create call per tuple to create or update, and one delete call per
   tuple to delete. Each call carries the marker comment.

The model follows the script's structure:

| module | file | what it holds |
|---|---|---|
| `Records` | records.dfy | The tuple, NetBox IPs, PowerDNS record sets, the configured zones, the marker. |
| `AddrText` | addr_text.dfy | The substitution of `/[0-9]*`, and `reverse_pointer` over parsed octets and nibbles (section 3.5 of RFC 1035, section 2.5 of RFC 3596). |
| `Extract` | extract.dfy | The two NetBox loops, as methods with loop invariants. |
| `Partition` | partition.dfy | The PowerDNS record loops, as methods with loop invariants, including the `for`/`else` of the forward zones. |
| `Reconciler` | reconciler.dfy | The four set formulas, as a function, with their properties. |
| `Apply` | apply.dfy | The report and apply loops over sets. Each store call is recorded as a `Call` value. |
| `Sync` | sync.dfy | The two zone loops, the whole run, and lemmas over all configured zones. |

### Behaviour as written

Three points of the script's behaviour differ from what its comments
suggest. The model keeps each of them as written.

- **Every forward record set counts as unmarked.** The `else:` at line 63
  belongs to the `for comment` loop, not to the `if`. That loop never breaks,
  so the `else` always runs:
  - Every value entry of every forward-zone record set goes into
    `record_wo_comment_ips`.
  - A marked record set's entries also go into `record_ips`, once per
    `NetBox` comment.
  - Reverse zones have no `else`, so they only ever feed `record_ips`.

  As a result, the owned and unmarked lists overlap (`ForwardOwnedWithinUnmarked`).
- **The sync does not settle.** A desired forward tuple that the sync itself
  created earlier, with the marker, lands in `to_update` again on every later
  run (`MarkedDesiredForwardIsUpdated`, `RerunUpdates`). The next run
  therefore does not come back with empty create, update and delete sets.
- **Updated tuples are also reported as missing.** `missing` is
  `unmarked − (owned − desired)`, and this contains `to_update`. So some
  tuples are both reported as missing and re-created with the marker.
  `MissingActedIsUpdated` shows that these are exactly the `to_update`
  tuples. A missing tuple that is not being updated is never acted on.

## Model

| member | source | states |
|---|---|---|
| `AddrText.StripPrefix` | netbox-powerdns-sync.py:39 | The result of removing `/[0-9]*` contains no `/` and is no longer than the input. Text without a `/` is left unchanged. |
| `AddrText.StripPrefixOfCidr` | netbox-powerdns-sync.py:39 | `address/prefixlen` becomes exactly `address`, for any slash-free address and any digit run. |
| `AddrText.StripPrefixIdempotent` | netbox-powerdns-sync.py:39 | Stripping twice gives the same result as stripping once. |
| `AddrText.ReversePointer` | netbox-powerdns-sync.py:83 | An IPv4 reverse name ends in `.in-addr.arpa` and has at most 28 characters. An IPv6 reverse name has 72 characters and ends in `ip6.arpa`. |
| `AddrText.ReversePointerInjective` | netbox-powerdns-sync.py:83 | Distinct addresses have distinct reverse-lookup names. |
| `Extract.ForwardTupleOfCidr` | netbox-powerdns-sync.py:39 | For NetBox's `address/prefixlen` text, the tuple's value is exactly the address. |
| `Extract.ForwardTupleShape` | netbox-powerdns-sync.py:30-42 | The type is `AAAA` exactly when the family is 6, and `A` otherwise. Name and zone get a trailing dot. The value has no `/`, and is the address text itself when that has no `/`. |
| `Extract.ForwardHostsMembers` | netbox-powerdns-sync.py:30-42 | A tuple is in a forward zone's host list exactly when it is the tuple of one of the zone's NetBox IPs. |
| `Extract.ExtractForward` | netbox-powerdns-sync.py:30-42 | The loop appends one tuple per NetBox IP, in order. |
| `Extract.ExtractReverse` | netbox-powerdns-sync.py:80-91 | The loop appends one PTR tuple per NetBox IP that has a DNS name, in order. |
| `Extract.ReverseHostsMembers` | netbox-powerdns-sync.py:80-91 | A PTR tuple is in the list exactly when some IP with a non-empty DNS name produces it. |
| `Extract.ReverseHostsShape` | netbox-powerdns-sync.py:84-91 | Every reverse tuple has type `PTR` and uses the zone name unchanged. Its value is a non-empty DNS name followed by a dot. |
| `Extract.PtrNamesIdentifyAddresses` | netbox-powerdns-sync.py:83-86 | Two IPs whose PTR tuples have the same name have the same address. |
| `Partition.AppendValues` | netbox-powerdns-sync.py:64-72 | Appends one tuple per value entry of the record set, in order, and nothing else. |
| `Partition.AppendMarked` | netbox-powerdns-sync.py:52-62 | Appends the record set's value tuples once for each `NetBox` comment, in comment order. |
| `Partition.PartitionForward` | netbox-powerdns-sync.py:51-72 | For a forward zone, the owned list holds the marked copies and the unmarked list holds every value tuple of every record set. This is the for-else. |
| `Partition.PartitionReverse` | netbox-powerdns-sync.py:100-111 | For a reverse zone, only the marked copies are produced. |
| `Partition.MarkedCopiesLength` | netbox-powerdns-sync.py:52-62 | A marked record set contributes its value tuples exactly (number of marker comments) times. |
| `Partition.MarkedCopiesMembers` | netbox-powerdns-sync.py:52-62 | A record set contributes to the owned list exactly when one of its comments is the marker. |
| `Partition.AllTuplesMembers` | netbox-powerdns-sync.py:63-72 | A tuple is in the unmarked list exactly when some record set of the zone has a value entry that gives it, marked or not. |
| `Partition.OwnedTuplesMembers` | netbox-powerdns-sync.py:51-62 | A tuple is in the owned list exactly when a marked record set of the zone has a value entry that gives it. |
| `Partition.OwnedWithinAll` | netbox-powerdns-sync.py:51-72 | In a forward zone, the owned tuples are among the unmarked ones. |
| `Reconciler.Reconcile` | netbox-powerdns-sync.py:113-127 | The create, update and delete sets are pairwise disjoint. The desired set is create ∪ update ∪ (desired ∩ owned). Created tuples are seen in neither observed list. Deleted tuples are owned and never desired, and every owned tuple that is not desired is deleted. Every desired tuple in the unmarked list is updated. `missing` holds exactly the unmarked tuples that are not deleted, and so contains the updated ones. |
| `Reconciler.MissingActedIsUpdated` | netbox-powerdns-sync.py:115-127 | The missing tuples that get a create or delete call are exactly the updated ones. |
| `Reconciler.EmptyZoneCreatesAll` | netbox-powerdns-sync.py:115-127 | With nothing observed, every desired tuple is created and all other sets are empty. |
| `Apply.ReportSection` | netbox-powerdns-sync.py:131-133 | A report block holds its heading, the set's size, and one name per tuple, taken in an iteration order that lists each tuple exactly once. Every tuple's name is printed, and every printed name is the name of a tuple in the set. |
| `Apply.Report` | netbox-powerdns-sync.py:129-153 | Four blocks in the order create, update, delete, missing, headed `records to create:`, `records to update:`, `records to delete:` and `missing records:`. Each block lists its set: its size, then the name of each of its tuples exactly once in some iteration order. |
| `Apply.ApplySet` | netbox-powerdns-sync.py:155-168 | One trace line per tuple of the set, each tuple once. Without `DEBUG`, one call per trace line: to zone `record[3]`, with the RRSet `(record[0], record[1], [(record[2], False)])` and the `NetBox` comment. With `DEBUG`, no call. |
| `Apply.JoinInLoopOrder` | netbox-powerdns-sync.py:155-202 | The create, update and delete traces, joined in the script's loop order, are ordered by verb. |
| `Apply.CallsKeepOrder` | netbox-powerdns-sync.py:155-202 | A trace in loop order issues no create call after a delete call. |
| `Apply.ApplyAll` | netbox-powerdns-sync.py:155-202 | The creates, updates and deletes are traced with their own verb, each tuple once. All creates come first, then all updates, then all deletes. Every traced tuple is in one of the three sets. The calls follow the trace one-to-one, or there are none under `DEBUG`, so no create call comes after a delete call. |
| `Sync.CollectForward` | netbox-powerdns-sync.py:22-72 | The forward-zone loop builds the desired, owned and unmarked lists zone by zone, in configuration order. |
| `Sync.CollectReverse` | netbox-powerdns-sync.py:74-111 | The reverse-zone loop adds to the desired and owned lists only. |
| `Sync.Run` | netbox-powerdns-sync.py:19-202 | The action sets depend only on the zones, not on `DEBUG`. Each report block lists its set's size and the name of each of its tuples once, under the script's heading. Each create, update and delete tuple is traced once, all creates before all updates before all deletes. No missing tuple outside `to_update` is acted on. No call is issued under `DEBUG`; otherwise the calls follow the trace, none is issued twice, and no create call comes after a delete call. |
| `Sync.CallsDistinct` | netbox-powerdns-sync.py:155-202 | Because create and update are disjoint, the calls of a run are pairwise distinct. |
| `Sync.ForwardDesiredMembers` | netbox-powerdns-sync.py:22-42 | The forward part of `host_ips` holds exactly the tuples of the forward zones' NetBox IPs. |
| `Sync.ForwardDesiredShape` | netbox-powerdns-sync.py:22-42 | Every forward tuple is of type `A` or `AAAA`, has no `/` in its value, has a dot-terminated name, and lies in a configured zone's canonical name. |
| `Sync.ForwardUnmarkedMembers` | netbox-powerdns-sync.py:51-72 | `record_wo_comment_ips` holds exactly the value tuples of the forward zones' record sets. No reverse zone reaches it. |
| `Sync.ForwardOwnedMembers` | netbox-powerdns-sync.py:51-62 | The forward part of `record_ips` holds exactly the value tuples of marked forward record sets. |
| `Sync.ReverseOwnedMembers` | netbox-powerdns-sync.py:100-111 | The reverse part of `record_ips` holds exactly the value tuples of marked reverse record sets. |
| `Sync.ForwardOwnedWithinUnmarked` | netbox-powerdns-sync.py:51-72 | Over all forward zones, `record_ips` lies within `record_wo_comment_ips`. |
| `Sync.DeletesOnlyMarked` | netbox-powerdns-sync.py:123 | A tuple to delete is not desired, and comes from a marked record set of a configured zone. |
| `Sync.StaleMarkedIsDeleted` | netbox-powerdns-sync.py:122-123 | A value entry of a marked forward-zone record set that is no longer desired is deleted. |
| `Sync.StaleMarkedReverseIsDeleted` | netbox-powerdns-sync.py:122-123 | A value entry of a marked reverse-zone record set that is no longer desired is deleted. |
| `Sync.UnmarkedUndesiredIsMissing` | netbox-powerdns-sync.py:125-127 | A value entry of a forward-zone record set that NetBox does not document, and that no marked record set holds, is reported missing. |
| `Sync.MarkedDesiredForwardIsUpdated` | netbox-powerdns-sync.py:51-119 | A desired tuple found in a marked forward record set is in `to_update` and `missing`, and in neither `to_create` nor `to_delete`. |
| `Sync.FirstRunCreates` | netbox-powerdns-sync.py:30-127 | For a host in a zone without records, the only action is to create its A record. |
| `Sync.RerunUpdates` | netbox-powerdns-sync.py:51-127 | Once that record exists with the marker, the next run updates it and reports it missing, instead of finding nothing to do. |

## Left out

- Client setup, the configuration import and the `REQUESTS_CA_BUNDLE` environment change (lines 3-17) are left out. They are I/O and foreign libraries.
- NetBox's server-side filters (`dns_name__iew` and `parent=`, lines 26 and 76) are left out. Each zone carries the IP list that its query returns.
- The PowerDNS zone reads (`get_zone`, lines 45, 94, 158, 175 and 192) are left out. Each zone carries its record sets. The per-call zone lookup in the apply loops is reduced to the zone name in the call. Missing zones and unreachable servers, which raise and abort the script, are not modelled.
- The server-side effect of `create_records` and `delete_records` is left out. This includes how PowerDNS replaces or removes a whole name+type RRSet. Only the calls the script makes are modelled.
- A store call that raises ends the run; the modelled trace and calls are those of a run in which every call returns.
- `ipaddress.ip_address` text parsing (line 83) is left out, including compressed IPv6. Each NetBox IP carries the address its text denotes. A text that fails to parse, which raises `ValueError`, is not modelled.
- Print formatting, the `----` separators and tuple rendering are left out. The report is modelled as counts plus names, and the apply trace as (verb, tuple) steps.
- Apply.ReportSection: the report and the apply loop iterate the same Python set, so they see it in the same order. The model lets each loop pick its own order.
- A record set's `disabled` flag is not modelled. The script reads only each entry's `content`.
