/** One sync controller: it reads one peer and writes the local cluster, one object per reconcile. */
module Sync {
  import opened Objects
  import opened Rules
  import Gvk

  /** A controller for rule `spec`, reading cluster `peer`, running in cluster `local`. */
  datatype Config = Config(spec: RuleSpec, peer: ClusterId, local: ClusterId)

  /** What a reconcile observes besides the object: the clusters the local manager holds as alive,
      the local namespaces, and the answer of the rate limiter. */
  datatype View = View(alive: set<ClusterId>, namespaces: set<string>, limited: bool)

  /******* Mutation *******/

  function AnnotationMutations(rules: seq<SyncRule>): seq<MetaMutation> {
    seq(|rules|, i requires 0 <= i < |rules| => rules[i].mutations.annotations)
  }

  function LabelMutations(rules: seq<SyncRule>): seq<MetaMutation> {
    seq(|rules|, i requires 0 <= i < |rules| => rules[i].mutations.labels)
  }

  function Overrides(rules: seq<SyncRule>): seq<string> {
    if rules == [] then [] else Overrides(rules[..|rules| - 1]) + rules[|rules| - 1].mutations.overrides
  }

  predicate SyncStatus(rules: seq<SyncRule>) {
    exists r | r in rules :: r.mutations.syncStatus
  }

  method GetOverrides(rules: seq<SyncRule>) returns (patches: seq<string>)
    ensures patches == Overrides(rules)
  {
    patches := [];
    for i := 0 to |rules|
      invariant patches == Overrides(rules[..i])
    {
      assert rules[..i + 1][..i] == rules[..i];
      patches := patches + rules[i].mutations.overrides;
    }
    assert rules[..|rules|] == rules;
  }

  method GetSyncStatus(rules: seq<SyncRule>) returns (sync: bool)
    ensures sync <==> exists r | r in rules :: r.mutations.syncStatus
  {
    for i := 0 to |rules|
      invariant !SyncStatus(rules[..i])
    {
      if rules[i].mutations.syncStatus {
        return true;
      }
    }
    assert rules[..|rules|] == rules;
    return false;
  }

  function Claimed(m: Labels, peer: ClusterId): Labels {
    if Get(m, Ownership) == "" then m[Ownership := peer] else m
  }

  /** The object written for `o` by rules without overrides. */
  function Mutated(o: Object, rules: seq<SyncRule>, peer: ClusterId): Object {
    var annotations := Claimed(ApplyMeta(AnnotationMutations(rules), o.annotations), peer);
    var labels := Claimed(ApplyMeta(LabelMutations(rules), o.labels), peer);
    o.(gvk := MutateGvk(rules, o.gvk),
       labels := labels,
       annotations := (if MutatesGvk(rules) then annotations[OriginalGvk := Gvk.ToString(o.gvk)] else annotations)
                      - Stripped,
       finalizers := [],
       ownerReferences := [])
  }

  /** The overlay patch engine: the clusters it can render templates for, and its effect on an
      object given the synced and the local cluster. */
  datatype Patcher = Patcher(
    known: set<ClusterId>,
    apply: (seq<string>, Object, ClusterId, ClusterId) -> Option<Object>)

  /** A renamed copy refers back to the name and namespace it was read from. */
  function BackReferences(source: Object, p: Object): Object {
    var labels := if source.name != p.name then p.labels[OriginalName := source.name] else p.labels;
    p.(labels := if source.namespace != p.namespace then labels[OriginalNamespace := source.namespace] else labels)
  }

  /** The mutated object after the overrides; None is an error. */
  function Patched(c: Config, o: Object, rules: seq<SyncRule>, patcher: Patcher): Option<Object> {
    var m := Mutated(o, rules, c.peer);
    if Overrides(rules) == [] then Some(m) else
      var synced := if Ownership in o.annotations then o.annotations[Ownership] else c.peer;
      if c.local !in patcher.known || synced !in patcher.known then None
      else patcher.apply(Overrides(rules), m, synced, c.local)
  }

  function Desired(c: Config, o: Object, rules: seq<SyncRule>, patcher: Patcher): Option<Object> {
    match Patched(c, o, rules, patcher)
    case None => None
    case Some(p) => Some(BackReferences(o, p))
  }

  /******* Decisions *******/

  predicate OwnedByAnotherAlive(owner: ClusterId, peer: ClusterId, alive: set<ClusterId>) {
    owner != "" && owner in alive && owner != peer
  }

  predicate MayCreate(c: Config, desired: Object, alive: set<ClusterId>) {
    && SyncDisabled !in desired.annotations
    && !(Owner(desired) != "" && c.local == Owner(desired))
    && !OwnedByAnotherAlive(Owner(desired), c.peer, alive)
  }

  predicate MayUpdate(c: Config, current: Object, alive: set<ClusterId>) {
    && SyncDisabled !in current.annotations
    && Owner(current) != ""
    && !OwnedByAnotherAlive(Owner(current), c.peer, alive)
  }

  predicate MayDelete(c: Config, current: Object, alive: set<ClusterId>) {
    Owner(current) != "" && !OwnedByAnotherAlive(Owner(current), c.peer, alive)
  }

  /******* Effects on the local store *******/

  /** Create or update. The status is a subresource: neither writes it. */
  function ReconcileResource(c: Config, store: Store, desired: Object, alive: set<ClusterId>): Store {
    var k := KeyOf(desired);
    if k in store then
      if MayUpdate(c, store[k], alive) then store[k := desired.(status := store[k].status)] else store
    else if MayCreate(c, desired, alive) then store[k := desired.(status := "")]
    else store
  }

  /** The status write that follows, whoever owns the object. */
  function WriteStatus(store: Store, desired: Object): Store {
    var k := KeyOf(desired);
    if k in store then store[k := store[k].(status := desired.status)] else store
  }

  /** Its namespace is missing, or the rate limit is reached. */
  predicate Blocked(d: Object, v: View) {
    (d.namespace != "" && d.namespace !in v.namespaces) || v.limited
  }

  function Settle(c: Config, store: Store, desired: Object, syncStatus: bool, v: View): Store {
    if Blocked(desired, v) then store else
      var written := ReconcileResource(c, store, desired, v.alive);
      if syncStatus then WriteStatus(written, desired) else written
  }

  /** A rate-limited reconcile, or one whose namespace is missing, writes nothing. */
  lemma BlockedWritesNothing(c: Config, store: Store, desired: Object, syncStatus: bool, v: View)
    requires v.limited || (desired.namespace != "" && desired.namespace !in v.namespaces)
    ensures Settle(c, store, desired, syncStatus, v) == store
  {
  }

  /** What settling does where there is nothing yet. */
  lemma CreateEffect(c: Config, store: Store, d: Object, syncStatus: bool, v: View)
    requires KeyOf(d) !in store && !Blocked(d, v)
    ensures Settle(c, store, d, syncStatus, v) ==
            if MayCreate(c, d, v.alive) then store[KeyOf(d) := d.(status := if syncStatus then d.status else "")]
            else store
  {
  }

  /** The local key a source key is withdrawn from when nothing was renamed. */
  function LocalKey(spec: RuleSpec, key: Key): Key {
    key.(gvk := LocalGvk(spec))
  }

  function Withdraw(c: Config, store: Store, k: Key, alive: set<ClusterId>): Store {
    if k in store && MayDelete(c, store[k], alive) then store - {k} else store
  }

  /** Local objects that claim to be renamed copies of (namespace, name) of the peer. Listing in
      the empty namespace lists all namespaces. */
  function Renamed(c: Config, store: Store, namespace: string, name: string): set<Key> {
    set k | k in store
         && k.gvk == LocalGvk(c.spec)
         && (namespace == "" || k.namespace == namespace)
         && OriginalName in store[k].labels && store[k].labels[OriginalName] == name
         && Ownership in store[k].labels && store[k].labels[Ownership] == c.peer
  }

  /** The state a controller carries from one reconcile to the next. */
  datatype LocalState = LocalState(store: Store, nameMutated: bool, namespaceMutated: bool)

  /** Key and back-reference labels of the object a delete request is about. */
  function SoughtName(key: Key, labels: Labels): string {
    if OriginalName in labels then labels[OriginalName] else key.name
  }

  function SoughtNamespace(key: Key, labels: Labels): string {
    if OriginalNamespace in labels then labels[OriginalNamespace] else key.namespace
  }

  /** Effect of a delete request; several renamed candidates are an error that deletes nothing. */
  ghost function Deletion(c: Config, st: LocalState, key: Key, labels: Labels, alive: set<ClusterId>): Store {
    if !st.nameMutated && !st.namespaceMutated then Withdraw(c, st.store, LocalKey(c.spec, key), alive) else
      var found := Renamed(c, st.store, SoughtNamespace(key, labels), SoughtName(key, labels));
      if |found| == 1 then var k :| k in found; Withdraw(c, st.store, k, alive) else st.store
  }

  ghost function Reconciled(c: Config, st: LocalState, remote: Store, key: Key, v: View, patcher: Patcher): LocalState {
    if key !in remote || remote[key].deleting then
      var labels := if key in remote then remote[key].labels else map[];
      st.(store := Deletion(c, st, key, labels, v.alive))
    else
      var o := remote[key];
      match MatchedRules(c.spec, o)
      case None => st
      case Some(rules) =>
        if rules == [] then st else
          match Desired(c, o, rules, patcher)
          case None => st
          case Some(d) =>
            LocalState(Settle(c, st.store, d, SyncStatus(rules), v),
                       st.nameMutated || d.name != o.name,
                       st.namespaceMutated || d.namespace != o.namespace)
  }

  /** What a reconcile tells the work queue: done, try again after a while, or report an error. */
  datatype Answer = Succeeded | RetryLater | Error

  /** The rules that are applied; none where matching fails. */
  function Applied(spec: RuleSpec, o: Object): seq<SyncRule> {
    match MatchedRules(spec, o)
    case None => []
    case Some(rules) => rules
  }

  /** Several local objects claim to be the renamed copy that a delete request is about. */
  predicate Ambiguous(c: Config, st: LocalState, key: Key, labels: Labels) {
    (st.nameMutated || st.namespaceMutated)
    && |Renamed(c, st.store, SoughtNamespace(key, labels), SoughtName(key, labels))| > 1
  }

  /******* The controller *******/

  class SyncReconciler {
    const c: Config
    var store: Store
    var nameMutated: bool
    var namespaceMutated: bool

    constructor (c: Config, store: Store)
      ensures this.c == c && State() == LocalState(store, false, false)
    {
      this.c := c;
      this.store := store;
      nameMutated, namespaceMutated := false, false;
    }

    function State(): LocalState
      reads this
    {
      LocalState(store, nameMutated, namespaceMutated)
    }

    method MutateObject(current: Object, rules: seq<SyncRule>, patcher: Patcher) returns (r: Option<Object>)
      modifies this
      ensures r == Desired(c, current, rules, patcher)
      ensures State() == old(State()).(
        nameMutated := old(nameMutated) || (r.Some? && r.value.name != current.name),
        namespaceMutated := old(namespaceMutated) || (r.Some? && r.value.namespace != current.namespace))
    {
      var obj := MutateMetadata(current, rules, c.peer);
      var patches := GetOverrides(rules);
      if patches != [] {
        var synced := c.peer;
        if Ownership in current.annotations {
          synced := current.annotations[Ownership];
        }
        if c.local !in patcher.known || synced !in patcher.known {
          return None;
        }
        var patched := patcher.apply(patches, obj, synced, c.local);
        if patched.None? {
          return None;
        }
        obj := patched.value;
      }
      if current.name != obj.name {
        obj := obj.(labels := obj.labels[OriginalName := current.name]);
        nameMutated := true;
      }
      if current.namespace != obj.namespace {
        obj := obj.(labels := obj.labels[OriginalNamespace := current.namespace]);
        namespaceMutated := true;
      }
      return Some(obj);
    }

    method DeleteResource(key: Key, labels: Labels, alive: set<ClusterId>) returns (ok: bool)
      modifies this
      ensures State() == old(State()).(store := Deletion(c, old(State()), key, labels, alive))
      ensures ok <==> !old(Ambiguous(c, State(), key, labels))
    {
      var current := LocalKey(c.spec, key);
      if namespaceMutated || nameMutated {
        var found := Renamed(c, store, SoughtNamespace(key, labels), SoughtName(key, labels));
        if |found| > 1 {
          return false;
        }
        if found == {} {
          return true;
        }
        current :| current in found;
        Singleton(found, current);
      } else if current !in store {
        return true;
      }
      if Owner(store[current]) == "" {
        return true;
      }
      if OwnedByAnotherAlive(Owner(store[current]), c.peer, alive) {
        return true;
      }
      store := store - {current};
      return true;
    }

    /** The second half of a reconcile: write the desired object if nothing stands in the way. */
    method WriteObject(d: Object, syncStatus: bool, v: View) returns (answer: Answer)
      modifies this`store
      ensures store == Settle(c, old(store), d, syncStatus, v)
      ensures answer == if Blocked(d, v) then RetryLater else Succeeded
    {
      answer := Succeeded;
      if d.namespace != "" && d.namespace !in v.namespaces {
        return RetryLater;
      }
      if v.limited {
        return RetryLater;
      }
      var k := KeyOf(d);
      if k in store {
        if MayUpdate(c, store[k], v.alive) {
          store := store[k := d.(status := store[k].status)];
        }
      } else if MayCreate(c, d, v.alive) {
        store := store[k := d.(status := "")];
      }
      if k !in store {
        return;
      }
      if syncStatus {
        store := store[k := store[k].(status := d.status)];
      }
    }

    /** An object that cannot be deleted unambiguously or cannot be mutated is an error; one that is
        blocked is tried again later. Anything else counts as done, and so does an object whose
        rules cannot be matched: that error is dropped. */
    method Reconcile(remote: Store, key: Key, v: View, patcher: Patcher) returns (answer: Answer)
      modifies this
      ensures State() == Reconciled(c, old(State()), remote, key, v, patcher)
      ensures answer == Error <==>
              if key !in remote || remote[key].deleting then
                old(Ambiguous(c, State(), key, if key in remote then remote[key].labels else map[]))
              else
                && Applied(c.spec, remote[key]) != []
                && Desired(c, remote[key], Applied(c.spec, remote[key]), patcher).None?
      ensures answer == RetryLater <==>
              && key in remote && !remote[key].deleting && Applied(c.spec, remote[key]) != []
              && var d := Desired(c, remote[key], Applied(c.spec, remote[key]), patcher);
                 d.Some? && (v.limited || (d.value.namespace != "" && d.value.namespace !in v.namespaces))
      ensures answer == RetryLater ==> store == old(store)
    {
      if key !in remote || remote[key].deleting {
        var ok := DeleteResource(key, if key in remote then remote[key].labels else map[], v.alive);
        return if ok then Succeeded else Error;
      }
      var rules := MatchSpec(c.spec, remote[key]);
      if rules.None? || rules.value == [] {
        return Succeeded;
      }
      var d := MutateObject(remote[key], rules.value, patcher);
      if d.None? {
        return Error;
      }
      var syncStatus := GetSyncStatus(rules.value);
      answer := WriteObject(d.value, syncStatus, v);
    }
  }

  lemma Singleton<T>(s: set<T>, x: T)
    requires x in s && |s| == 1
    ensures s == {x}
  {
    assert |s - {x}| == 0;
  }

  method AddAll(source: Labels, add: Labels) returns (m: Labels)
    ensures m == source + add
  {
    m := source;
    var todo := add.Keys;
    while todo != {}
      invariant todo <= add.Keys
      invariant m == source + (add - todo)
      decreases todo
    {
      var k :| k in todo;
      m := m[k := add[k]];
      todo := todo - {k};
    }
  }

  method RemoveAll(source: Labels, remove: seq<MetaKey>) returns (m: Labels)
    ensures m == source - KeySet(remove)
  {
    m := source;
    for i := 0 to |remove|
      invariant m == source - KeySet(remove[..i])
    {
      assert KeySet(remove[..i + 1]) == KeySet(remove[..i]) + {remove[i]};
      m := m - {remove[i]};
    }
    assert remove[..|remove|] == remove;
  }

  method StripBookkeeping(source: Labels) returns (m: Labels)
    ensures m == source - Stripped
  {
    m := source - {ManagedComponent};
    m := m - {RelatedTo};
    m := m - {ObjectMatcherLastApplied};
    m := m - {KubectlLastApplied};
  }

  /** The part of the mutation that edits the metadata maps in place. */
  method MutateMetadata(current: Object, rules: seq<SyncRule>, peer: ClusterId) returns (obj: Object)
    ensures obj == Mutated(current, rules, peer)
  {
    var toAnnotations := MergeMutations(AnnotationMutations(rules));
    var annotations := AddAll(current.annotations, toAnnotations.add);
    annotations := RemoveAll(annotations, toAnnotations.remove);
    var toLabels := MergeMutations(LabelMutations(rules));
    var labels := AddAll(current.labels, toLabels.add);
    labels := RemoveAll(labels, toLabels.remove);
    if Get(annotations, Ownership) == "" {
      annotations := annotations[Ownership := peer];
    }
    if Get(labels, Ownership) == "" {
      labels := labels[Ownership := peer];
    }
    var mutated, gvk := GetMutatedGvk(rules, current.gvk);
    assert mutated == MutatesGvk(rules);
    if mutated {
      annotations := annotations[OriginalGvk := Gvk.ToString(current.gvk)];
    }
    annotations := StripBookkeeping(annotations);
    obj := current.(gvk := gvk, annotations := annotations, labels := labels);
    obj := obj.(finalizers := [], ownerReferences := []);
  }
}
