/** The sync check between two clusters, and what it says about a group that passes it all round. */
module Agreement {
  import opened Objects
  import opened ClusterApi

  type Table = map<ClusterId, ClusterResource>

  /** Resources by cluster ID; a later one with the same ID replaces an earlier one. */
  function TableOf(items: seq<ClusterResource>): (t: Table)
    ensures forall id | id in t :: t[id].clusterId == id && t[id] in items
    ensures forall r | r in items :: r.clusterId in t
  {
    if items == [] then map[] else
      var last := items[|items| - 1];
      TableOf(items[..|items| - 1])[last.clusterId := last]
  }

  /** The last resource of the list with an ID is the entry of that ID. */
  lemma {:induction false} LastOfId(items: seq<ClusterResource>, k: nat)
    requires k < |items| && forall j | k < j < |items| :: items[j].clusterId != items[k].clusterId
    ensures items[k].clusterId in TableOf(items) && TableOf(items)[items[k].clusterId] == items[k]
  {
    if k < |items| - 1 {
      LastOfId(items[..|items| - 1], k);
    }
  }

  method GetClusters(items: seq<ClusterResource>) returns (t: Table)
    ensures t == TableOf(items)
  {
    t := map[];
    for i := 0 to |items|
      invariant t == TableOf(items[..i])
    {
      assert items[..i + 1][..i] == items[..i];
      t := t[items[i].clusterId := items[i]];
    }
    assert items[..|items|] == items;
  }

  /** Complaints about one local resource. */
  datatype Complaint = NameMismatch(here: string, there: string) | NotReady(name: string) | NotFound(name: string)

  function Complaints(c: ClusterResource, remote: Table): seq<Complaint> {
    if c.clusterId !in remote then [NotFound(c.name)] else
      var rc := remote[c.clusterId];
      (if c.name != rc.name then [NameMismatch(c.name, rc.name)] else [])
      + (if rc.state != Ready then [NotReady(rc.name)] else [])
  }

  /** Each complaint says what is wrong: here by which name, there by which. */
  lemma ComplaintMeaning(c: ClusterResource, remote: Table, e: Complaint)
    ensures e in Complaints(c, remote) <==>
            match e
            case NotFound(name) => name == c.name && c.clusterId !in remote
            case NameMismatch(here, there) =>
              c.clusterId in remote && here == c.name && there == remote[c.clusterId].name && here != there
            case NotReady(name) =>
              c.clusterId in remote && name == remote[c.clusterId].name && remote[c.clusterId].state != Ready
  {
  }

  /** What is known here under id is known there under the same name, and ready there. */
  predicate EntryAgrees(local: Table, remote: Table, id: ClusterId)
    requires id in local
  {
    id in remote && remote[id].name == local[id].name && remote[id].state == Ready
  }

  predicate InSync(local: Table, remote: Table) {
    forall id | id in local :: EntryAgrees(local, remote, id)
  }

  method CheckOne(c: ClusterResource, remote: Table) returns (errs: seq<Complaint>)
    ensures errs == Complaints(c, remote)
  {
    errs := [];
    if c.clusterId in remote {
      var rc := remote[c.clusterId];
      if c.name != rc.name {
        errs := errs + [NameMismatch(c.name, rc.name)];
      }
      if rc.state != Ready {
        errs := errs + [NotReady(rc.name)];
      }
    } else {
      errs := errs + [NotFound(c.name)];
    }
  }

  predicate AgreeOn(local: Table, remote: Table, ids: set<ClusterId>)
    requires ids <= local.Keys
  {
    forall id | id in ids :: EntryAgrees(local, remote, id)
  }

  lemma AgreeOnMore(local: Table, remote: Table, ids: set<ClusterId>, id: ClusterId)
    requires ids <= local.Keys && id in local && local[id].clusterId == id
    ensures AgreeOn(local, remote, ids + {id}) <==> AgreeOn(local, remote, ids) && Complaints(local[id], remote) == []
  {
    assert EntryAgrees(local, remote, id) <==> Complaints(local[id], remote) == [];
    assert AgreeOn(local, remote, ids + {id}) ==> forall x | x in ids :: x in ids + {id};
  }

  /** errs holds exactly the complaints about the given resources. */
  predicate Covers(local: Table, remote: Table, ids: set<ClusterId>, errs: seq<Complaint>)
    requires ids <= local.Keys
  {
    && (forall id, e | id in ids && e in Complaints(local[id], remote) :: e in errs)
    && (forall e | e in errs :: exists id | id in ids :: e in Complaints(local[id], remote))
  }

  lemma CoversMore(local: Table, remote: Table, ids: set<ClusterId>, id: ClusterId, errs: seq<Complaint>)
    requires ids <= local.Keys && id in local && Covers(local, remote, ids, errs)
    ensures Covers(local, remote, ids + {id}, errs + Complaints(local[id], remote))
  {
  }

  predicate Checked(local: Table, remote: Table, ids: set<ClusterId>, errs: seq<Complaint>) {
    && ids <= local.Keys
    && (errs == [] <==> AgreeOn(local, remote, ids))
    && Covers(local, remote, ids, errs)
  }

  lemma CheckedMore(local: Table, remote: Table, ids: set<ClusterId>, id: ClusterId, errs: seq<Complaint>)
    requires Checked(local, remote, ids, errs) && id in local && local[id].clusterId == id
    ensures Checked(local, remote, ids + {id}, errs + Complaints(local[id], remote))
  {
    AgreeOnMore(local, remote, ids, id);
    CoversMore(local, remote, ids, id, errs);
  }

  method CheckAll(local: Table, remote: Table) returns (errs: seq<Complaint>)
    requires forall id | id in local :: local[id].clusterId == id
    ensures Checked(local, remote, local.Keys, errs)
  {
    errs := [];
    var todo := local.Keys;
    ghost var done := {};
    while todo != {}
      invariant done + todo == local.Keys && Checked(local, remote, done, errs)
      decreases todo
    {
      var id :| id in todo;
      CheckedMore(local, remote, done, id, errs);
      var es := CheckOne(local[id], remote);
      errs := errs + es;
      todo := todo - {id};
      done := done + {id};
    }
    assert done == local.Keys;
  }

  /** The check complains exactly when the remote side disagrees about something known here, and
      holds exactly the complaints there are. */
  method SyncClusters(localItems: seq<ClusterResource>, remoteItems: seq<ClusterResource>)
    returns (errs: seq<Complaint>)
    ensures errs == [] <==> InSync(TableOf(localItems), TableOf(remoteItems))
    ensures Covers(TableOf(localItems), TableOf(remoteItems), TableOf(localItems).Keys, errs)
  {
    var local := GetClusters(localItems);
    var remote := GetClusters(remoteItems);
    errs := CheckAll(local, remote);
  }

  /******* Group agreement *******/

  function Names(t: Table): map<ClusterId, string> {
    map id | id in t :: t[id].name
  }

  /** Each cluster's check against the next one succeeds, and the last one's against the first. */
  ghost predicate Ring(ts: seq<Table>) {
    ts != [] && forall i | 0 <= i < |ts| :: InSync(ts[i], ts[if i + 1 < |ts| then i + 1 else 0])
  }

  /** Along the ring nothing is lost or renamed. */
  lemma {:induction false} Downstream(ts: seq<Table>, i: nat, j: nat, id: ClusterId)
    requires Ring(ts) && i <= j < |ts| && id in ts[i]
    ensures id in ts[j] && ts[j][id].name == ts[i][id].name
  {
    if i < j {
      Downstream(ts, i, j - 1, id);
      assert InSync(ts[j - 1], ts[j]) && EntryAgrees(ts[j - 1], ts[j], id);
    }
  }

  /** A cluster's entries reach every other cluster, going round if need be. */
  lemma Everywhere(ts: seq<Table>, i: nat, j: nat, id: ClusterId)
    requires Ring(ts) && i < |ts| && j < |ts| && id in ts[i]
    ensures id in ts[j] && ts[j][id].name == ts[i][id].name
  {
    if i <= j {
      Downstream(ts, i, j, id);
    } else {
      Downstream(ts, i, |ts| - 1, id);
      assert InSync(ts[|ts| - 1], ts[0]) && EntryAgrees(ts[|ts| - 1], ts[0], id);
      Downstream(ts, 0, j, id);
    }
  }

  /** Checks all the way round a ring of clusters, of any length, mean that all of them have the
      same table of IDs and names and that every entry everywhere is ready; and conversely. */
  lemma RingAgreement(ts: seq<Table>)
    requires ts != []
    ensures Ring(ts) <==>
            && (forall i, j | 0 <= i < |ts| && 0 <= j < |ts| :: Names(ts[i]) == Names(ts[j]))
            && (forall i, id | 0 <= i < |ts| && id in ts[i] :: ts[i][id].state == Ready)
  {
    if Ring(ts) {
      forall i, j | 0 <= i < |ts| && 0 <= j < |ts|
        ensures Names(ts[i]) == Names(ts[j])
      {
        forall id | id in ts[i] { Everywhere(ts, i, j, id); }
        forall id | id in ts[j] { Everywhere(ts, j, i, id); }
      }
      forall i, id | 0 <= i < |ts| && id in ts[i]
        ensures ts[i][id].state == Ready
      {
        var p := if i > 0 then i - 1 else |ts| - 1;
        Everywhere(ts, i, p, id);
        assert InSync(ts[p], ts[if p + 1 < |ts| then p + 1 else 0]) && EntryAgrees(ts[p], ts[i], id);
      }
    } else if forall i, j | 0 <= i < |ts| && 0 <= j < |ts| :: Names(ts[i]) == Names(ts[j]) {
      var i :| 0 <= i < |ts| && !InSync(ts[i], ts[if i + 1 < |ts| then i + 1 else 0]);
      var k := if i + 1 < |ts| then i + 1 else 0;
      assert Names(ts[i]) == Names(ts[k]);
      var id :| id in ts[i] && !EntryAgrees(ts[i], ts[k], id);
      assert id in Names(ts[k]) && Names(ts[k])[id] == Names(ts[i])[id];
      assert id in ts[k] && ts[k][id].state != Ready;
    }
  }
}
