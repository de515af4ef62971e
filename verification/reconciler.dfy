/** The reconciliation: four action sets computed from the desired tuples
    (`host_ips`), the owned tuples (`record_ips`) and the unmarked tuples
    (`record_wo_comment_ips`). */
module Reconciler {
  import opened Records

  datatype Actions = Actions(toCreate: set<Rec>, toUpdate: set<Rec>, toDelete: set<Rec>, missing: set<Rec>)

  /** The set formulas of the script. Nothing is assumed about how `owned`
      and `unmarked` overlap. */
  function Reconcile(hosts: set<Rec>, owned: set<Rec>, unmarked: set<Rec>): (a: Actions)
    // the three acting sets never share a tuple
    ensures a.toCreate !! a.toUpdate && a.toCreate !! a.toDelete && a.toUpdate !! a.toDelete
    // every desired tuple is created, updated, or already owned
    ensures hosts == a.toCreate + a.toUpdate + (hosts * owned)
    ensures a.toCreate + a.toUpdate <= hosts
    // a tuple is created only if PowerDNS has it in neither list
    ensures a.toCreate !! owned && a.toCreate !! unmarked
    // only owned tuples are deleted, and never a desired one
    ensures a.toDelete <= owned && a.toDelete !! hosts
    // every owned tuple that is no longer desired is deleted
    ensures owned - hosts <= a.toDelete
    // the missing set: unmarked tuples not deleted; it holds every update
    ensures a.missing <= unmarked && a.missing !! a.toDelete && a.toUpdate <= a.missing
    // every desired tuple PowerDNS holds in the unmarked list is updated
    ensures hosts * unmarked <= a.toUpdate
    // every unmarked tuple that is not deleted is reported missing
    ensures unmarked - a.toDelete <= a.missing
  {
    Actions(hosts - owned - unmarked, hosts * unmarked, owned - hosts, unmarked - (owned - hosts))
  }

  /** The tuples some create or delete call is issued for. */
  function Acted(a: Actions): set<Rec>
  {
    a.toCreate + a.toUpdate + a.toDelete
  }

  /** The missing tuples that are acted on are exactly the updated ones: a
      desired tuple that PowerDNS holds unmarked is both reported missing and
      re-created with the marker. */
  lemma MissingActedIsUpdated(hosts: set<Rec>, owned: set<Rec>, unmarked: set<Rec>)
    ensures var a := Reconcile(hosts, owned, unmarked); a.missing * Acted(a) == a.toUpdate
  {
  }

  /** With nothing observed, every desired tuple is created and nothing else
      happens. */
  lemma EmptyZoneCreatesAll(hosts: set<Rec>)
    ensures Reconcile(hosts, {}, {}) == Actions(hosts, {}, {}, {})
  {
  }
}
