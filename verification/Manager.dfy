/** The clusters a controller is connected to, and how Cluster resources keep them current. */
module Manager {
  import opened Objects
  import opened ClusterApi
  import opened Registry
  import Gvk

  class Manager {
    var clusters: map<string, Cluster>

    constructor ()
      ensures clusters == map[] && Valid()
    {
      clusters := map[];
    }

    predicate Valid()
      reads this
    {
      forall n | n in clusters :: clusters[n].name == n
    }

    function Entries(): map<string, Entry>
      reads this, clusters.Values
    {
      map n | n in clusters :: Entry(clusters[n].credentials, clusters[n].alive)
    }

    method Get(name: string) returns (c: Option<Cluster>)
      ensures c == if name in clusters then Some(clusters[name]) else None
    {
      if name in clusters {
        return Some(clusters[name]);
      }
      return None;
    }

    method Add(c: Cluster)
      requires Valid()
      modifies this
      ensures Valid() && clusters == old(clusters)[c.name := c]
    {
      clusters := clusters[c.name := c];
    }

    method Remove(c: Option<Cluster>)
      requires Valid()
      modifies this
      ensures Valid() && clusters == if c.Some? then old(clusters) - {c.value.name} else old(clusters)
    {
      if c.None? {
        return;
      }
      if c.value.name !in clusters {
        return;
      }
      clusters := clusters - {c.value.name};
    }

    /** The alive clusters by their IDs: an ID is there exactly when some entry with that ID is
        alive, and stands for one of them. */
    method GetAliveClustersByID() returns (byId: map<ClusterId, Cluster>)
      ensures forall id :: id in byId <==> exists n | n in clusters :: clusters[n].alive && clusters[n].clusterId == id
      ensures forall id | id in byId :: byId[id].alive && byId[id].clusterId == id && byId[id] in clusters.Values
    {
      byId := map[];
      var todo := clusters.Keys;
      while todo != {}
        invariant todo <= clusters.Keys
        invariant forall id :: id in byId <==>
                    exists n | n in clusters.Keys - todo :: clusters[n].alive && clusters[n].clusterId == id
        invariant forall id | id in byId :: byId[id].alive && byId[id].clusterId == id && byId[id] in clusters.Values
        decreases todo
      {
        var n :| n in todo;
        todo := todo - {n};
        if clusters[n].alive {
          byId := byId[clusters[n].clusterId := clusters[n]];
        }
      }
    }
  }

  /******* Cluster resources *******/

  datatype Entry = Entry(credentials: Credentials, alive: bool)

  datatype Secret = Secret(isClusterSecret: bool, kubeconfig: Option<string>)

  type Secrets = map<(string, string), Secret>

  /** The kubeconfig a resource refers to, if its secret exists, is of the right type and has one. */
  function Kubeconfig(cr: ClusterResource, secrets: Secrets): Option<string> {
    var ref := (cr.secretNamespace, cr.secretName);
    if ref in secrets && secrets[ref].isClusterSecret then secrets[ref].kubeconfig else None
  }

  function SecretId(cr: ClusterResource): string {
    cr.secretNamespace + "/" + cr.secretName
  }

  /** Two resources that refer to different secrets have different secret IDs: a namespace name has
      no '/', so a changed reference is always noticed. */
  lemma SecretIdDistinguishes(a: ClusterResource, b: ClusterResource)
    requires '/' !in a.secretNamespace && '/' !in b.secretNamespace
    ensures SecretId(a) == SecretId(b) <==> a.secretNamespace == b.secretNamespace && a.secretName == b.secretName
  {
    Gvk.SplitJoined(a.secretNamespace, '/', a.secretName);
    Gvk.SplitJoined(b.secretNamespace, '/', b.secretName);
  }

  function Declared(cr: ClusterResource, kubeconfig: string): Credentials {
    Credentials(Some(SecretId(cr)), kubeconfig)
  }

  /** Credentials a connection was built without are never compared. */
  predicate Changed(have: Credentials, want: Credentials) {
    || (have.secretId.Some? && have.secretId != want.secretId)
    || (have.kubeconfig != "" && have.kubeconfig != want.kubeconfig)
  }

  datatype Outcome =
    | Removed
    | NoAuthInfo
    | BadAuthInfo
    | NotAlive
    | CannotConnect
    | Connected

  /** The manager's entries after a reconcile of `name`. `answer` is what the cluster behind the
      current credentials answers to the first liveness check. */
  function Reconciled(
    es: map<string, Entry>, name: string, cr: Option<ClusterResource>, local: ClusterId, secrets: Secrets,
    answer: Option<ClusterId>): (map<string, Entry>, Outcome)
  {
    if cr.None? || cr.value.clusterId == local || cr.value.disabled then (es - {name}, Removed)
    else if cr.value.secretName == "" || cr.value.secretNamespace == "" then (es, NoAuthInfo)
    else match Kubeconfig(cr.value, secrets)
      case None => (es - {name}, BadAuthInfo)
      case Some(kubeconfig) =>
        var want := Declared(cr.value, kubeconfig);
        if name in es && !es[name].alive then (es, NotAlive)
        else if name in es && !Changed(es[name].credentials, want) then (es, Connected)
        else if answer.None? then (es - {name}, CannotConnect)
        else (es[name := Entry(want, true)], Connected)
  }

  /** The controllers every connection starts with; they require no features. */
  const BUILTIN: Controllers := map[
    "remote-cluster" := Controller("remote-cluster", [], None),
    "remote-cluster-feature" := Controller("remote-cluster-feature", [], None)]

  class ClusterReconciler {
    const local: ClusterId
    const manager: Manager

    constructor (local: ClusterId)
      ensures this.local == local && manager.Valid() && fresh(manager)
    {
      this.local := local;
      manager := new Manager();
    }

    method RemoveRemoteCluster(name: string)
      requires manager.Valid()
      modifies manager
      ensures manager.Valid() && manager.clusters == old(manager.clusters) - {name}
      ensures manager.Entries() == old(manager.Entries()) - {name}
    {
      var c := manager.Get(name);
      manager.Remove(c);
      assert manager.Entries() == old(manager.Entries()) - {name};
    }

    /** A new connection, running the two built-in controllers. */
    method Connect(name: string, credentials: Credentials, answer: Option<ClusterId>) returns (c: Option<Cluster>)
      ensures c.Some? <==> answer.Some?
      ensures c.Some? ==>
                && fresh(c.value) && c.value.name == name && c.value.credentials == credentials
                && c.value.alive && c.value.clusterId == answer.value
                && c.value.Valid() && c.value.View() == State(map[], BUILTIN, map[])
                && c.value.controllers.Keys == {"remote-cluster", "remote-cluster-feature"}
                && forall n | n in c.value.controllers :: c.value.controllers[n].requirements == []
    {
      var cluster := new Cluster(name, credentials);
      cluster.AddController(Controller("remote-cluster", [], None));
      cluster.AddController(Controller("remote-cluster-feature", [], None));
      cluster.LivenessCheck(answer);
      return if cluster.alive then Some(cluster) else None;
    }

    method GetK8SConfig(cr: ClusterResource, secrets: Secrets) returns (kubeconfig: Option<string>)
      ensures kubeconfig == Kubeconfig(cr, secrets)
    {
      if (cr.secretNamespace, cr.secretName) !in secrets {
        return None;
      }
      var secret := secrets[(cr.secretNamespace, cr.secretName)];
      if !secret.isClusterSecret {
        return None;
      }
      return secret.kubeconfig;
    }

    method CredentialsChanged(have: Credentials, want: Credentials) returns (changed: bool)
      ensures changed == Changed(have, want)
    {
      changed := false;
      if have.secretId.Some? && have.secretId != want.secretId {
        changed := true;
      }
      if have.kubeconfig != "" && have.kubeconfig != want.kubeconfig {
        changed := true;
      }
    }

    /** Connect and, if that works, enter the connection. */
    method Enter(name: string, credentials: Credentials, answer: Option<ClusterId>) returns (o: Outcome)
      requires manager.Valid()
      modifies manager
      ensures manager.Valid()
      ensures o == if answer.Some? then Connected else CannotConnect
      ensures manager.Entries() == if answer.Some? then old(manager.Entries())[name := Entry(credentials, true)]
                                   else old(manager.Entries())
    {
      var c := Connect(name, credentials, answer);
      if c.None? {
        return CannotConnect;
      }
      manager.Add(c.value);
      return Connected;
    }

    method GetRemoteCluster(cr: ClusterResource, secrets: Secrets, answer: Option<ClusterId>) returns (o: Outcome)
      requires manager.Valid() && cr.clusterId != local && !cr.disabled
      requires cr.secretName != "" && cr.secretNamespace != ""
      modifies manager
      ensures manager.Valid()
      ensures (manager.Entries(), o) == Reconciled(old(manager.Entries()), cr.name, Some(cr), local, secrets, answer)
    {
      ghost var before := manager.Entries();
      var remote := manager.Get(cr.name);
      var kubeconfig := GetK8SConfig(cr, secrets);
      if kubeconfig.None? {
        RemoveRemoteCluster(cr.name);
        return BadAuthInfo;
      }
      var want := Credentials(Some(SecretId(cr)), kubeconfig.value);
      if remote.Some? {
        if !remote.value.alive {
          return NotAlive;
        }
        var changed := CredentialsChanged(remote.value.credentials, want);
        if !changed {
          return Connected;
        }
        RemoveRemoteCluster(cr.name);
      }
      assert manager.Entries() == before - {cr.name};
      o := Enter(cr.name, want, answer);
      assert (before - {cr.name})[cr.name := Entry(want, true)] == before[cr.name := Entry(want, true)];
    }

    method Reconcile(name: string, cr: Option<ClusterResource>, secrets: Secrets, answer: Option<ClusterId>)
      returns (o: Outcome)
      requires manager.Valid() && (cr.Some? ==> cr.value.name == name)
      modifies manager
      ensures manager.Valid()
      ensures (manager.Entries(), o) == Reconciled(old(manager.Entries()), name, cr, local, secrets, answer)
    {
      if cr.None? {
        RemoveRemoteCluster(name);
        assert manager.Entries() == old(manager.Entries()) - {name};
        return Removed;
      }
      if cr.value.clusterId == local {
        RemoveRemoteCluster(name);
      }
      if cr.value.disabled {
        RemoveRemoteCluster(name);
        assert manager.Entries() == old(manager.Entries()) - {name};
        return Removed;
      }
      if cr.value.clusterId == local {
        return Removed;
      }
      if cr.value.secretName == "" || cr.value.secretNamespace == "" {
        return NoAuthInfo;
      }
      o := GetRemoteCluster(cr.value, secrets, answer);
    }
  }

  /** A reconcile concerns its own name only. It leaves no entry for a resource that is gone, local,
      disabled or without a readable secret. When it reports a connection, the entry carries the
      declared credentials unless it was built without one of them and the rest are current. */
  lemma ManagerAgrees(
    es: map<string, Entry>, name: string, cr: Option<ClusterResource>, local: ClusterId, secrets: Secrets,
    answer: Option<ClusterId>)
    ensures var (es', o) := Reconciled(es, name, cr, local, secrets, answer);
            && es' - {name} == es - {name}
            && (o in {Removed, BadAuthInfo, CannotConnect} ==> name !in es')
            && (o in {NoAuthInfo, NotAlive} ==> es' == es)
            && (o == Connected ==>
                  && cr.Some? && Kubeconfig(cr.value, secrets).Some? && name in es' && es'[name].alive
                  && var want := Declared(cr.value, Kubeconfig(cr.value, secrets).value);
                     (es'[name].credentials == want <==>
                      !(&& name in es && es[name].credentials != want
                        && es[name].credentials.secretId in {None, want.secretId}
                        && es[name].credentials.kubeconfig in {"", want.kubeconfig})))
  {
  }

  /** What a reconcile does, from the resource, its secret, the entry and the answer alone: a resource
      that is gone, local or disabled has no entry; one without a secret reference leaves all as
      it is; without a usable secret there is no entry; a dead connection stays; a live one with
      the same credentials stays; and otherwise there is a new connection with the declared
      credentials if the cluster answers, and none if not. */
  lemma EntriesFollowResource(
    es: map<string, Entry>, name: string, cr: Option<ClusterResource>, local: ClusterId, secrets: Secrets,
    answer: Option<ClusterId>)
    ensures var (es', o) := Reconciled(es, name, cr, local, secrets, answer);
            && es' - {name} == es - {name}
            && (cr.None? || cr.value.clusterId == local || cr.value.disabled ==> name !in es' && o == Removed)
    ensures cr.Some? && cr.value.clusterId != local && !cr.value.disabled ==>
              var (es', o) := Reconciled(es, name, cr, local, secrets, answer);
              var ref := (cr.value.secretNamespace, cr.value.secretName);
              if ref.0 == "" || ref.1 == "" then es' == es && o == NoAuthInfo
              else if ref !in secrets || !secrets[ref].isClusterSecret || secrets[ref].kubeconfig == None then
                name !in es' && o == BadAuthInfo
              else
                var id, kubeconfig := ref.0 + "/" + ref.1, secrets[ref].kubeconfig.value;
                if name in es && !es[name].alive then es' == es && o == NotAlive
                else if && name in es && es[name].credentials.secretId in {None, Some(id)}
                        && es[name].credentials.kubeconfig in {"", kubeconfig} then es' == es && o == Connected
                else if answer == None then name !in es' && o == CannotConnect
                else name in es' && es'[name] == Entry(Credentials(Some(id), kubeconfig), true) && o == Connected
  {
  }

  predicate Tracked(es: map<string, Entry>) {
    forall n | n in es :: es[n].credentials.secretId.Some? && es[n].credentials.kubeconfig != ""
  }

  /** A reconcile, or a liveness check of the connection of that name. */
  datatype Event =
    | Reconciliation(name: string, cr: Option<ClusterResource>, secrets: Secrets, answer: Option<ClusterId>)
    | Liveness(name: string, alive: bool)

  /** A cluster cannot be reached with an empty kubeconfig. */
  predicate Sensible(e: Event) {
    e.Reconciliation? ==>
      && (e.cr.Some? ==> e.cr.value.name == e.name)
      && (e.cr.Some? && e.answer.Some? ==> Kubeconfig(e.cr.value, e.secrets) != Some(""))
  }

  function Happened(es: map<string, Entry>, local: ClusterId, e: Event): map<string, Entry> {
    match e
    case Reconciliation(name, cr, secrets, answer) => Reconciled(es, name, cr, local, secrets, answer).0
    case Liveness(name, alive) => if name in es then es[name := es[name].(alive := alive)] else es
  }

  function After(local: ClusterId, events: seq<Event>): map<string, Entry> {
    if events == [] then map[] else Happened(After(local, events[..|events| - 1]), local, events[|events| - 1])
  }

  lemma {:induction false} AlwaysTracked(local: ClusterId, events: seq<Event>)
    requires forall e | e in events :: Sensible(e)
    ensures Tracked(After(local, events))
  {
    if events != [] {
      AlwaysTracked(local, events[..|events| - 1]);
      assert events[|events| - 1] in events;
    }
  }

  /** Whatever happened before, a reconcile that reports a connection leaves exactly the declared
      credentials in place. */
  lemma ConnectedMeansCurrent(local: ClusterId, events: seq<Event>, e: Event)
    requires (forall x | x in events :: Sensible(x)) && Sensible(e) && e.Reconciliation?
    requires Reconciled(After(local, events), e.name, e.cr, local, e.secrets, e.answer).1 == Connected
    ensures var es := After(local, events + [e]);
            && e.cr.Some? && Kubeconfig(e.cr.value, e.secrets).Some?
            && e.name in es && es[e.name] == Entry(Declared(e.cr.value, Kubeconfig(e.cr.value, e.secrets).value), true)
  {
    assert (events + [e])[..|events|] == events;
    AlwaysTracked(local, events);
    ManagerAgrees(After(local, events), e.name, e.cr, local, e.secrets, e.answer);
  }
}
