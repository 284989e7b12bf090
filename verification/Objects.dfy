/** Values shared by every component: Kubernetes objects, their keys and their metadata. */
module Objects {

  datatype Option<+T> = None | Some(value: T)

  /** Metadata keys. The controller's own keys are distinct fixed strings; only their
      distinctness matters, so each is a constructor of its own.
        Ownership          cluster-registry.k8s.cisco.com/resource-owner-cluster-id
        OriginalGvk        cluster-registry.k8s.cisco.com/original-group-version-kind
        SyncDisabled       cluster-registry.k8s.cisco.com/resource-sync-disabled
        OriginalName       cluster-registry.k8s.cisco.com/original-name
        OriginalNamespace  cluster-registry.k8s.cisco.com/original-namespace
      The next four are the bookkeeping annotations stripped from every copy. */
  datatype MetaKey =
    | Ownership
    | OriginalGvk
    | SyncDisabled
    | OriginalName
    | OriginalNamespace
    | ManagedComponent
    | RelatedTo
    | ObjectMatcherLastApplied
    | KubectlLastApplied
    | Other(text: string)

  type Labels = map<MetaKey, string>

  const Stripped: set<MetaKey> := {ManagedComponent, RelatedTo, ObjectMatcherLastApplied, KubectlLastApplied}

  /** A Go map read: the zero value when the key is missing. */
  function Get(m: Labels, k: MetaKey): string {
    if k in m then m[k] else ""
  }

  datatype GVK = GVK(group: string, version: string, kind: string)

  /** Cluster IDs are the UIDs of the kube-system namespaces; "" is no cluster. */
  type ClusterId = string

  datatype Key = Key(gvk: GVK, namespace: string, name: string)

  /** A stored object. `deleting` is a set deletion timestamp. The fields the API server fills in
      (uid, resource version, generation, creation time, managed fields) are not represented. */
  datatype Object = Object(
    gvk: GVK,
    namespace: string,
    name: string,
    labels: Labels,
    annotations: Labels,
    finalizers: seq<string>,
    ownerReferences: seq<string>,
    deleting: bool,
    body: string,
    status: string)

  function KeyOf(o: Object): Key {
    Key(o.gvk, o.namespace, o.name)
  }

  function Owner(o: Object): ClusterId {
    Get(o.annotations, Ownership)
  }

  /** An object without an owner belongs to the cluster that stores it. */
  predicate Native(o: Object) {
    Owner(o) == ""
  }

  /** Equality of everything except the status subresource. */
  predicate SameCore(a: Object, b: Object) {
    a == b.(status := a.status)
  }

  type Store = map<Key, Object>

  predicate WellKeyed(s: Store) {
    forall k | k in s :: KeyOf(s[k]) == k
  }

  lemma {:induction false} SubsetSize<T>(a: set<T>, b: set<T>)
    requires a <= b
    ensures |a| <= |b|
  {
    if a != {} {
      var x :| x in a;
      SubsetSize(a - {x}, b - {x});
    }
  }
}
