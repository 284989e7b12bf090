/** What a copy carries: the merged metadata, its owner, and references back to the kind, name and
    namespace it was read from, which lead local events and deletions back to the source. */
module Copies {
  import opened Objects
  import opened Rules
  import opened Sync
  import Gvk

  function Lookup(m: Labels, k: MetaKey): Option<string> {
    if k in m then Some(m[k]) else None
  }

  /** The source key a local event about o is mapped to, as (namespace, name). */
  function EventKey(o: Object): (string, string) {
    (if OriginalNamespace in o.labels then o.labels[OriginalNamespace] else o.namespace,
     if OriginalName in o.labels then o.labels[OriginalName] else o.name)
  }

  predicate LeavesReferencesAlone(rules: seq<SyncRule>) {
    forall r, k | r in rules && k in {OriginalName, OriginalNamespace} ::
      k !in r.mutations.labels.add && k !in r.mutations.labels.remove
  }

  /** Overrides may do anything, renaming included, except touch the two reference labels. */
  ghost predicate KeepsReferences(patcher: Patcher) {
    forall patches, o, synced, local | patcher.apply(patches, o, synced, local).Some? ::
      var p := patcher.apply(patches, o, synced, local).value;
      forall k | k in {OriginalName, OriginalNamespace} :: Lookup(p.labels, k) == Lookup(o.labels, k)
  }

  /** What of the reference labels gets as far as the patched object. */
  lemma PatchedReferences(c: Config, o: Object, rules: seq<SyncRule>, patcher: Patcher, k: MetaKey)
    requires LeavesReferencesAlone(rules) && KeepsReferences(patcher) && Patched(c, o, rules, patcher).Some?
    requires k in {OriginalName, OriginalNamespace}
    ensures Lookup(Patched(c, o, rules, patcher).value.labels, k) == Lookup(o.labels, k)
  {
    UntouchedKey(LabelMutations(rules), o.labels, k);
  }

  /** Where a part of the key is kept, o carries no foreign reference for it. */
  predicate NoStaleReference(o: Object, name: string, namespace: string) {
    && (name == o.name && OriginalName in o.labels ==> o.labels[OriginalName] == o.name)
    && (namespace == o.namespace && OriginalNamespace in o.labels ==> o.labels[OriginalNamespace] == o.namespace)
  }

  /** Events about a written copy lead back to its source, however it was renamed, exactly when the
      source itself carries no foreign reference for a part of its key that the rename kept. */
  lemma RenameRoundTrip(c: Config, o: Object, rules: seq<SyncRule>, patcher: Patcher)
    requires LeavesReferencesAlone(rules) && KeepsReferences(patcher) && Patched(c, o, rules, patcher).Some?
    ensures var p := Patched(c, o, rules, patcher).value;
            EventKey(Desired(c, o, rules, patcher).value) == (o.namespace, o.name) <==>
            NoStaleReference(o, p.name, p.namespace)
  {
    PatchedReferences(c, o, rules, patcher, OriginalName);
    PatchedReferences(c, o, rules, patcher, OriginalNamespace);
    ReferencesRead(o, Patched(c, o, rules, patcher).value);
  }

  lemma ReferencesRead(o: Object, p: Object)
    requires forall k | k in {OriginalName, OriginalNamespace} :: Lookup(p.labels, k) == Lookup(o.labels, k)
    ensures EventKey(BackReferences(o, p)) == (o.namespace, o.name) <==> NoStaleReference(o, p.name, p.namespace)
  {
    assert Lookup(p.labels, OriginalName) == Lookup(o.labels, OriginalName);
    assert Lookup(p.labels, OriginalNamespace) == Lookup(o.labels, OriginalNamespace);
  }

  /** Without overrides a source is found again exactly when it is not itself a renamed copy: a
      back-reference it already carries must be its own key. */
  lemma UnrenamedRoundTrip(o: Object, rules: seq<SyncRule>, peer: ClusterId)
    requires LeavesReferencesAlone(rules)
    ensures EventKey(Mutated(o, rules, peer)) == (o.namespace, o.name)
       <==> && (OriginalName in o.labels ==> o.labels[OriginalName] == o.name)
            && (OriginalNamespace in o.labels ==> o.labels[OriginalNamespace] == o.namespace)
  {
    UntouchedKey(LabelMutations(rules), o.labels, OriginalName);
    UntouchedKey(LabelMutations(rules), o.labels, OriginalNamespace);
  }

  /** d is what the renamed-copy lookup for (namespace, name) is after. */
  predicate Claims(c: Config, d: Object, namespace: string, name: string) {
    && d.gvk == LocalGvk(c.spec) && (namespace == "" || d.namespace == namespace)
    && Lookup(d.labels, OriginalName) == Some(name) && Lookup(d.labels, Ownership) == Some(c.peer)
  }

  /** Once a controller has renamed any object, a delete request removes the stored copy d exactly
      when d claims the vanished source, nothing else does, and its owner lets it go. */
  lemma RenamedCopyDeleted(c: Config, st: LocalState, key: Key, labels: Labels, d: Object, alive: set<ClusterId>)
    requires st.nameMutated || st.namespaceMutated
    requires KeyOf(d) in st.store && st.store[KeyOf(d)] == d
    ensures var namespace := if OriginalNamespace in labels then labels[OriginalNamespace] else key.namespace;
            var name := if OriginalName in labels then labels[OriginalName] else key.name;
            KeyOf(d) !in Deletion(c, st, key, labels, alive) <==>
            && Claims(c, d, namespace, name)
            && Renamed(c, st.store, namespace, name) <= {KeyOf(d)}
            && MayDelete(c, d, alive)
  {
    var found := Renamed(c, st.store, SoughtNamespace(key, labels), SoughtName(key, labels));
    if KeyOf(d) in found && found <= {KeyOf(d)} {
      assert found == {KeyOf(d)};
    } else if |found| == 1 {
      var k :| k in found;
      Singleton(found, k);
    }
  }

  /** The object that is written for o, if the rules select it. */
  function Wanted(c: Config, o: Object, patcher: Patcher): Option<Object> {
    match MatchedRules(c.spec, o)
    case None => None
    case Some(rules) => if rules == [] then None else Desired(c, o, rules, patcher)
  }

  /** A reconcile that writes a renamed copy d of o where there was nothing. */
  predicate WritesRenamed(c: Config, st: LocalState, o: Object, v: View, patcher: Patcher, d: Object) {
    && !o.deleting && Wanted(c, o, patcher) == Some(d) && (d.name != o.name || d.namespace != o.namespace)
    && KeyOf(d) !in st.store && MayCreate(c, d, v.alive) && !Blocked(d, v)
  }

  lemma RenamedWritten(c: Config, st: LocalState, remote: Store, key: Key, v: View, patcher: Patcher, d: Object)
    returns (copy: Object)
    requires key in remote && WritesRenamed(c, st, remote[key], v, patcher, d)
    ensures var st' := Reconciled(c, st, remote, key, v, patcher);
            st'.store == st.store[KeyOf(d) := copy] && (st'.nameMutated || st'.namespaceMutated)
    ensures SameCore(copy, d)
  {
    var syncStatus := ReconciledWanted(c, st, remote, key, v, patcher, d);
    CreateEffect(c, st.store, d, syncStatus, v);
    copy := d.(status := if syncStatus then d.status else "");
  }

  lemma ReconciledWanted(c: Config, st: LocalState, remote: Store, key: Key, v: View, patcher: Patcher, d: Object)
    returns (syncStatus: bool)
    requires key in remote && !remote[key].deleting && Wanted(c, remote[key], patcher) == Some(d)
    ensures Reconciled(c, st, remote, key, v, patcher) ==
            LocalState(Settle(c, st.store, d, syncStatus, v), st.nameMutated || d.name != remote[key].name,
                       st.namespaceMutated || d.namespace != remote[key].namespace)
  {
    syncStatus := SyncStatus(MatchedRules(c.spec, remote[key]).value);
  }

  /** A source that is terminating and itself a renamed copy is looked up by its own references. */
  function SoughtKey(gone: Store, key: Key): (string, string) {
    if key in gone then EventKey(gone[key]) else (key.namespace, key.name)
  }

  /** The life of a renamed copy, from the reconcile that writes it to the one that finds its source
      gone or terminating: it is deleted exactly when it is in the sought namespace (or none is
      sought) and refers to the sought name, the kind is the one all rules together produce, the
      copy claims this peer, no other local object claims the same source, and its owner lets it
      go. A copy whose name changed always refers to the source's name. */
  lemma RenamedLifecycle(
    c: Config, st: LocalState, remote: Store, gone: Store, key: Key, v: View, v': View, patcher: Patcher, d: Object)
    requires key in remote && KeyOf(remote[key]) == key
    requires key in gone ==> KeyOf(gone[key]) == key && gone[key].deleting
    requires WritesRenamed(c, st, remote[key], v, patcher, d)
    ensures var written, (namespace, name) := Reconciled(c, st, remote, key, v, patcher), SoughtKey(gone, key);
            && KeyOf(d) in written.store
            && (d.name != key.name ==> Lookup(d.labels, OriginalName) == Some(key.name))
            && (KeyOf(d) !in Reconciled(c, written, gone, key, v', patcher).store <==>
                && (namespace == "" || d.namespace == namespace) && Lookup(d.labels, OriginalName) == Some(name)
                && d.gvk == LocalGvk(c.spec) && Lookup(d.labels, Ownership) == Some(c.peer)
                && Renamed(c, st.store, namespace, name) == {}
                && MayDelete(c, d, v'.alive))
  {
    var copy := RenamedWritten(c, st, remote, key, v, patcher, d);
    var (namespace, name) := SoughtKey(gone, key);
    NameReference(c, remote[key], patcher, d);
    RenamedCopyDeleted(c, Reconciled(c, st, remote, key, v, patcher), key,
                       if key in gone then gone[key].labels else map[], copy, v'.alive);
    OnlyClaim(c, st.store, copy, namespace, name);
  }

  lemma NameReference(c: Config, o: Object, patcher: Patcher, d: Object)
    requires Wanted(c, o, patcher) == Some(d)
    ensures d.name != o.name ==> Lookup(d.labels, OriginalName) == Some(o.name)
  {
  }

  lemma OnlyClaim(c: Config, store: Store, copy: Object, namespace: string, name: string)
    requires KeyOf(copy) !in store
    ensures Renamed(c, store[KeyOf(copy) := copy], namespace, name) <= {KeyOf(copy)} <==>
            Renamed(c, store, namespace, name) == {}
  {
    var found := Renamed(c, store[KeyOf(copy) := copy], namespace, name);
    assert Renamed(c, store, namespace, name) == found - {KeyOf(copy)};
  }

  /******* The metadata of a copy *******/

  function AnnotationsOf(r: SyncRule): MetaMutation {
    r.mutations.annotations
  }

  function LabelsOf(r: SyncRule): MetaMutation {
    r.mutations.labels
  }

  /** Value some rule gives k, or the source's, when no rule removes it; and nothing otherwise. */
  ghost predicate MergedAs(
    rules: seq<SyncRule>, pick: SyncRule -> MetaMutation, source: Labels, k: MetaKey, v: Option<string>)
  {
    if exists r | r in rules :: k in pick(r).remove then v == None
    else if exists r | r in rules :: k in pick(r).add then v.Some? && LastGiven(rules, pick, k, v.value)
    else v == Lookup(source, k)
  }

  /** The last rule that adds k gives it this value. */
  ghost predicate LastGiven(rules: seq<SyncRule>, pick: SyncRule -> MetaMutation, k: MetaKey, v: string) {
    exists i | 0 <= i < |rules| ::
      && k in pick(rules[i]).add && pick(rules[i]).add[k] == v
      && forall j | i < j < |rules| :: k !in pick(rules[j]).add
  }

  lemma MergedLookup(
    ms: seq<MetaMutation>, rules: seq<SyncRule>, pick: SyncRule -> MetaMutation, source: Labels, k: MetaKey)
    requires |ms| == |rules| && forall i | 0 <= i < |rules| :: ms[i] == pick(rules[i])
    ensures MergedAs(rules, pick, source, k, Lookup(ApplyMeta(ms, source), k))
  {
    MergedMetadata(ms, source, k);
    SameMutations(ms, rules, pick, k);
    if k in ApplyMeta(ms, source) && LastAdded(ms, k, ApplyMeta(ms, source)[k]) {
      var i :| 0 <= i < |ms| && k in ms[i].add && ms[i].add[k] == ApplyMeta(ms, source)[k]
               && forall j | i < j < |ms| :: k !in ms[j].add;
      assert k in pick(rules[i]).add;
    }
  }

  lemma SameMutations(ms: seq<MetaMutation>, rules: seq<SyncRule>, pick: SyncRule -> MetaMutation, k: MetaKey)
    requires |ms| == |rules| && forall i | 0 <= i < |rules| :: ms[i] == pick(rules[i])
    ensures (exists m | m in ms :: k in m.remove) <==> exists r | r in rules :: k in pick(r).remove
    ensures (exists m | m in ms :: k in m.add) <==> exists r | r in rules :: k in pick(r).add
  {
    forall i | 0 <= i < |rules|
      ensures ms[i] in ms && rules[i] in rules && ms[i] == pick(rules[i])
    {
    }
  }

  lemma WrittenLookup(o: Object, rules: seq<SyncRule>, peer: ClusterId, k: MetaKey)
    ensures var merged := Lookup(ApplyMeta(AnnotationMutations(rules), o.annotations), k);
            Lookup(Mutated(o, rules, peer).annotations, k) ==
              if k in Stripped then None
              else if k == OriginalGvk && MutatesGvk(rules) then Some(Gvk.ToString(o.gvk))
              else if k == Ownership && merged in {None, Some("")} then Some(peer)
              else merged
  {
  }

  /** k is owned by the merged value, or by the peer where that leaves nothing. */
  ghost predicate ClaimedAs(
    rules: seq<SyncRule>, pick: SyncRule -> MetaMutation, source: Labels, peer: ClusterId, v: Option<string>)
  {
    exists merged :: MergedAs(rules, pick, source, Ownership, merged)
      && v == if merged == None || merged == Some("") then Some(peer) else merged
  }

  /** What is written for an annotation. */
  ghost predicate AnnotatedAs(o: Object, rules: seq<SyncRule>, peer: ClusterId, k: MetaKey, v: Option<string>) {
    if k in {ManagedComponent, RelatedTo, ObjectMatcherLastApplied, KubectlLastApplied} then v == None
    else if k == OriginalGvk && exists r | r in rules :: r.mutations.gvk != GVK("", "", "") then
      v == Some(Gvk.ToString(o.gvk))
    else if k == Ownership then ClaimedAs(rules, AnnotationsOf, o.annotations, peer, v)
    else MergedAs(rules, AnnotationsOf, o.annotations, k, v)
  }

  lemma AnnotationCases(
    o: Object, rules: seq<SyncRule>, peer: ClusterId, k: MetaKey, merged: Option<string>, v: Option<string>)
    requires MergedAs(rules, AnnotationsOf, o.annotations, k, merged)
    requires v == if k in Stripped then None
                  else if k == OriginalGvk && MutatesGvk(rules) then Some(Gvk.ToString(o.gvk))
                  else if k == Ownership && merged in {None, Some("")} then Some(peer)
                  else merged
    ensures AnnotatedAs(o, rules, peer, k, v)
  {
  }

  /** Every annotation of a copy: bookkeeping keys are gone, the owner is the one the rules leave or
      else the peer read from, a changed kind leaves the original one behind, and all other keys
      are merged from the source and the rules. */
  lemma WrittenAnnotation(o: Object, rules: seq<SyncRule>, peer: ClusterId, k: MetaKey)
    ensures AnnotatedAs(o, rules, peer, k, Lookup(Mutated(o, rules, peer).annotations, k))
  {
    var merged := Lookup(ApplyMeta(AnnotationMutations(rules), o.annotations), k);
    MergedLookup(AnnotationMutations(rules), rules, AnnotationsOf, o.annotations, k);
    WrittenLookup(o, rules, peer, k);
    AnnotationCases(o, rules, peer, k, merged, Lookup(Mutated(o, rules, peer).annotations, k));
  }

  /** Every label of a copy: the owner is the one the rules leave or else the peer read from, and all
      other keys are merged from the source and the rules. */
  lemma WrittenLabel(o: Object, rules: seq<SyncRule>, peer: ClusterId, k: MetaKey)
    ensures var written := Lookup(Mutated(o, rules, peer).labels, k);
            if k == Ownership then ClaimedAs(rules, LabelsOf, o.labels, peer, written)
            else MergedAs(rules, LabelsOf, o.labels, k, written)
  {
    MergedLookup(LabelMutations(rules), rules, LabelsOf, o.labels, k);
    LabelLookup(o, rules, peer, k);
  }

  lemma LabelLookup(o: Object, rules: seq<SyncRule>, peer: ClusterId, k: MetaKey)
    ensures var merged := Lookup(ApplyMeta(LabelMutations(rules), o.labels), k);
            Lookup(Mutated(o, rules, peer).labels, k) ==
              if k == Ownership && merged in {None, Some("")} then Some(peer) else merged
  {
  }

  /******* What the overrides are given *******/

  /** Overrides are applied in the order of the rules. */
  lemma {:induction false} OverridesInOrder(a: seq<SyncRule>, b: seq<SyncRule>)
    ensures Overrides(a + b) == Overrides(a) + Overrides(b)
    ensures |a| == 1 ==> Overrides(a) == a[0].mutations.overrides
  {
    if b == [] {
      assert a + b == a;
    } else {
      assert (a + b)[..|a + b| - 1] == a + b[..|b| - 1];
      OverridesInOrder(a, b[..|b| - 1]);
    }
  }

  lemma {:induction false} SomeOverrides(rules: seq<SyncRule>, i: nat)
    requires i < |rules| && rules[i].mutations.overrides != []
    ensures Overrides(rules) != []
  {
    if i < |rules| - 1 {
      SomeOverrides(rules[..|rules| - 1], i);
    }
  }

  /** Overrides see the mutated object, the cluster that owns its source, or else the peer, and the
      local cluster; both clusters must be known. */
  lemma OverridesSee(c: Config, o: Object, rules: seq<SyncRule>, patcher: Patcher, i: nat, owner: ClusterId)
    requires i < |rules| && rules[i].mutations.overrides != []
    requires Lookup(o.annotations, Ownership) in {None, Some(owner)}
    requires Lookup(o.annotations, Ownership) == None ==> owner == c.peer
    ensures Patched(c, o, rules, patcher) ==
            if owner in patcher.known && c.local in patcher.known
            then patcher.apply(Overrides(rules), Mutated(o, rules, c.peer), owner, c.local) else None
  {
    SomeOverrides(rules, i);
  }

  /** The original kind can be read back from a copy of changed kind exactly when its textual form
      is unambiguous. */
  lemma OriginalKindRecovered(o: Object, rules: seq<SyncRule>, peer: ClusterId)
    requires MutatesGvk(rules)
    ensures OriginalGvk in Mutated(o, rules, peer).annotations
    ensures Gvk.Parse(Mutated(o, rules, peer).annotations[OriginalGvk]) == Some(o.gvk)
       <==> '.' !in o.gvk.kind && '/' !in o.gvk.group
  {
    WrittenLookup(o, rules, peer, OriginalGvk);
    Gvk.ParsePrinted(o.gvk);
  }
}
