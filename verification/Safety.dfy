/** Safety of the cluster group over whole runs: natives are the users' alone, every copy has an
    origin, owners are authoritative, and deletions drain. */
module Safety {
  import opened Objects
  import opened Rules
  import opened Sync
  import opened Protocol

  /******* Natives belong to the users *******/

  predicate UserTouches(s: Step, l: ClusterId, k: Key) {
    || (s.UserPut? && s.at == l && KeyOf(s.obj) == k)
    || (s.UserDelete? && s.at == l && s.key == k)
  }

  /** No step but a user's changes, removes or produces a native, whatever the rules say. */
  lemma NativeStep(w: World, s: Step, l: ClusterId, k: Key)
    requires Allowed(s) && WellFormed(w) && !UserTouches(s, l, k)
    ensures Effect(w, s).HasNative(l, k) <==> w.HasNative(l, k)
    ensures w.HasNative(l, k) ==> SameCore(Effect(w, s).At(l)[k], w.At(l)[k])
  {
    if s.SyncStep? && s.at == l {
      var c := Config(s.spec, s.from, s.at);
      PullEffect(c, w.At(l), w.At(s.from), s.key, ViewOf(w, s), k);
      if Read(c.spec, c.peer, w.At(s.from), s.key).Offer? {
        assert WellKeyed(w.At(s.from));
        OfferFacts(c, w.At(s.from), s.key);
      }
    }
  }

  /** Over any stretch of a run without a user step at (l, k), the native there, or its absence,
      is preserved up to status. */
  lemma {:induction false} NativesConserved(ws: seq<World>, steps: seq<Step>, l: ClusterId, k: Key, i: nat, j: nat)
    requires Run(ws, steps) && WellFormed(ws[0]) && i <= j < |ws|
    requires forall n | i <= n < j :: !UserTouches(steps[n], l, k)
    ensures ws[i].HasNative(l, k) <==> ws[j].HasNative(l, k)
    ensures ws[i].HasNative(l, k) ==> SameCore(ws[j].At(l)[k], ws[i].At(l)[k])
  {
    if i < j {
      NativesConserved(ws, steps, l, k, i, j - 1);
      RunWellFormed(ws, steps, j - 1);
      NativeStep(ws[j - 1], steps[j - 1], l, k);
    }
  }

  /** The step writes the status of an offer, accepted or refused, to k. */
  predicate WritesStatus(w: World, s: Step, k: Key)
    requires s.SyncStep?
  {
    var i := Read(s.spec, s.from, w.At(s.from), s.key);
    i.Offer? && i.syncStatus && KeyOf(i.desired) == k && !Blocked(i.desired, ViewOf(w, s))
  }

  /** The status of a present object, native or copy, after a sync step that leaves it there: no
      ownership protects it. */
  lemma StatusExact(w: World, s: Step, k: Key)
    requires s.SyncStep? && w.Has(s.at, k) && Effect(w, s).Has(s.at, k)
    ensures Effect(w, s).At(s.at)[k].status ==
            if WritesStatus(w, s, k) then Read(s.spec, s.from, w.At(s.from), s.key).desired.status
            else w.At(s.at)[k].status
  {
    PulledStatus(Config(s.spec, s.from, s.at), w.At(s.at), w.At(s.from), s.key, ViewOf(w, s), k);
  }

  lemma PulledStatus(c: Config, local: Store, remote: Store, key: Key, v: View, k: Key)
    requires k in local && k in Pull(c, local, remote, key, v)
    ensures var i := Read(c.spec, c.peer, remote, key);
            Pull(c, local, remote, key, v)[k].status ==
            if i.Offer? && i.syncStatus && KeyOf(i.desired) == k && !Blocked(i.desired, v)
            then i.desired.status else local[k].status
  {
    var i := Read(c.spec, c.peer, remote, key);
    if i.Offer? {
      SettledStatus(c, local, i.desired, i.syncStatus, v, k);
    }
  }

  lemma SettledStatus(c: Config, store: Store, d: Object, syncStatus: bool, v: View, k: Key)
    requires k in store
    ensures k in Settle(c, store, d, syncStatus, v)
    ensures Settle(c, store, d, syncStatus, v)[k].status ==
            if k == KeyOf(d) && syncStatus && !Blocked(d, v)
            then d.status else store[k].status
  {
  }

  /** A sync step leaves a native untouched down to its status unless it writes the status of an
      accepted or refused offer for that very key, and the statuses differ. */
  lemma NativeStatusExact(w: World, s: Step, k: Key)
    requires Allowed(s) && s.SyncStep? && WellFormed(w) && w.HasNative(s.at, k)
    ensures Effect(w, s).Has(s.at, k)
    ensures Effect(w, s).At(s.at)[k] == w.At(s.at)[k] <==>
            !(WritesStatus(w, s, k)
              && Read(s.spec, s.from, w.At(s.from), s.key).desired.status != w.At(s.at)[k].status)
  {
    NativeStep(w, s, s.at, k);
    StatusExact(w, s, k);
  }

  /******* Every copy has an origin *******/

  predicate NativesOnly(w: World) {
    forall c | c in w.stores :: forall k | k in w.stores[c] :: Native(w.stores[c][k])
  }

  predicate SyncsBy(steps: seq<Step>, p: RuleSpec -> bool) {
    forall s | s in steps && s.SyncStep? :: p(s.spec)
  }

  predicate KeepsKind(spec: RuleSpec) {
    forall r | r in spec.rules :: r.mutations.gvk == NO_GVK
  }

  /** An object is followed through a family of keys: whatever rules of the spec match, what they
      write into the family comes from the family. */
  ghost predicate Closed(family: iset<Key>, spec: RuleSpec) {
    forall key: Key, rules | key.gvk == spec.gvk && FromSpec(rules, spec) && Written(spec, rules, key) in family ::
      key in family
  }

  ghost predicate SyncsWithin(steps: seq<Step>, family: iset<Key>) {
    forall s | s in steps && s.SyncStep? :: Closed(family, s.spec)
  }

  /** Where no rule changes kinds, every single key is a family of its own. */
  lemma OneKeyClosed(spec: RuleSpec, k: Key)
    requires KeepsKind(spec)
    ensures Closed(iset{k}, spec)
  {
    forall key: Key, rules | key.gvk == spec.gvk && FromSpec(rules, spec) && Written(spec, rules, key) in iset{k}
      ensures key == k
    {
      if rules != [] {
        SameOverlay(rules, NO_GVK, spec.gvk);
      }
    }
  }

  /** Whatever the rules do, all kinds of one namespace and name are a family. */
  lemma AllKindsClosed(spec: RuleSpec, namespace: string, name: string)
    ensures Closed(AllKinds(namespace, name), spec)
  {
  }

  /** Cluster c natively held, no later than i, an object of this namespace, name and family with
      this content. */
  ghost predicate HeldBefore(ws: seq<World>, i: nat, c: ClusterId, family: iset<Key>, k: Key, body: string) {
    exists j, k' | 0 <= j <= i < |ws| && ws[j].HasNative(c, k') :: HeldAt(ws[j], c, family, k, k', body)
  }

  ghost predicate HeldAt(w: World, c: ClusterId, family: iset<Key>, k: Key, k': Key, body: string) {
    && w.HasNative(c, k') && w.At(c)[k'].body == body
    && k' in family && k'.namespace == k.namespace && k'.name == k.name
  }

  /** o, found at (l, k) after a step from w, is what (c, k') held before that step. */
  ghost predicate Inherits(w: World, o: Object, k: Key, c: ClusterId, family: iset<Key>, k': Key) {
    && w.Has(c, k') && w.At(c)[k'].body == o.body
    && k' in family && k'.namespace == k.namespace && k'.name == k.name
    && Owner(o) == if Native(w.At(c)[k']) then c else Owner(w.At(c)[k'])
  }

  lemma CopyInherits(w: World, s: Step, family: iset<Key>, l: ClusterId, k: Key) returns (c: ClusterId, k': Key)
    requires Allowed(s) && WellFormed(w) && Effect(w, s).HasCopy(l, k) && k in family
    requires s.SyncStep? ==> OwnershipNeutral(s.spec) && Closed(family, s.spec)
    ensures Inherits(w, Effect(w, s).At(l)[k], k, c, family, k')
  {
    CopyOrigin(w, s, l, k);
    c, k' := l, k;
    if !(w.HasCopy(l, k) && SameCore(Effect(w, s).At(l)[k], w.At(l)[k])) {
      c, k' := s.from, s.key;
      assert s.key in family by {
        SourceInFamily(w, s, family, k);
      }
    }
  }

  /** What is written into the family was read from it. */
  lemma SourceInFamily(w: World, s: Step, family: iset<Key>, k: Key)
    requires Allowed(s) && WellFormed(w) && s.SyncStep? && Closed(family, s.spec) && k in family
    requires Effect(w, s).Has(s.at, k) && !(w.Has(s.at, k) && SameCore(Effect(w, s).At(s.at)[k], w.At(s.at)[k]))
    ensures s.key in family
  {
    StepOrigin(w, s, s.at, k);
    OfferWritten(s.spec, s.from, w.At(s.from), s.key);
    assert WellKeyed(w.At(s.from));
  }

  /** No copy comes out of thin air: whatever a copy owned by c contains, c itself held natively at
      some earlier point, however many clusters the copy travelled through. */
  lemma {:induction false} Provenance(
    ws: seq<World>, steps: seq<Step>, family: iset<Key>, i: nat, l: ClusterId, k: Key)
    requires Run(ws, steps) && WellFormed(ws[0]) && NativesOnly(ws[0]) && i < |ws|
    requires SyncsBy(steps, OwnershipNeutral) && SyncsWithin(steps, family)
    requires k in family && ws[i].HasCopy(l, k)
    ensures HeldBefore(ws, i, Owner(ws[i].At(l)[k]), family, k, ws[i].At(l)[k].body)
  {
    if i > 0 {
      var c, k' := InheritedIn(ws, steps, family, i - 1, l, k);
      if ws[i - 1].HasNative(c, k') {
        assert HeldAt(ws[i - 1], c, family, k, k', ws[i].At(l)[k].body);
      } else {
        Provenance(ws, steps, family, i - 1, c, k');
        HeldOn(ws, i - 1, i, Owner(ws[i].At(l)[k]), family, k', k, ws[i].At(l)[k].body);
      }
    }
  }

  lemma InheritedIn(ws: seq<World>, steps: seq<Step>, family: iset<Key>, i: nat, l: ClusterId, k: Key)
    returns (c: ClusterId, k': Key)
    requires Run(ws, steps) && WellFormed(ws[0]) && i < |steps|
    requires SyncsBy(steps, OwnershipNeutral) && SyncsWithin(steps, family)
    requires k in family && ws[i + 1].HasCopy(l, k)
    ensures Inherits(ws[i], ws[i + 1].At(l)[k], k, c, family, k')
  {
    RunWellFormed(ws, steps, i);
    assert steps[i] in steps;
    c, k' := CopyInherits(ws[i], steps[i], family, l, k);
  }

  lemma HeldOn(
    ws: seq<World>, i: nat, i': nat, c: ClusterId, family: iset<Key>, k: Key, k': Key, body: string)
    requires HeldBefore(ws, i, c, family, k, body) && i <= i' < |ws| && k.namespace == k'.namespace && k.name == k'.name
    ensures HeldBefore(ws, i', c, family, k', body)
  {
    var j, k0 :| 0 <= j <= i < |ws| && ws[j].HasNative(c, k0) && HeldAt(ws[j], c, family, k, k0, body);
    assert HeldAt(ws[j], c, family, k', k0, body);
  }

  /******* A single origin *******/

  ghost predicate OnlyOrigin(ws: seq<World>, c: ClusterId, family: iset<Key>) {
    forall i, l, k | 0 <= i < |ws| && k in family && ws[i].HasNative(l, k) :: l == c
  }

  /** A cluster without a copy does not get one of its own object. */
  lemma NoOwnCopy(w: World, s: Step, c: ClusterId, k: Key)
    requires Allowed(s) && WellFormed(w) && !w.HasCopy(c, k)
    requires s.SyncStep? ==> OwnershipNeutral(s.spec)
    ensures Effect(w, s).HasCopy(c, k) ==> Owner(Effect(w, s).At(c)[k]) != c
  {
    if Effect(w, s).HasCopy(c, k) {
      CopyOrigin(w, s, c, k);
    }
  }

  ghost predicate SingleOriginRun(ws: seq<World>, steps: seq<Step>, c: ClusterId, family: iset<Key>) {
    && Run(ws, steps) && WellFormed(ws[0]) && NativesOnly(ws[0])
    && SyncsBy(steps, OwnershipNeutral) && SyncsWithin(steps, family) && OnlyOrigin(ws, c, family)
  }

  lemma CopiesOfOrigin(
    ws: seq<World>, steps: seq<Step>, c: ClusterId, family: iset<Key>, i: nat, l: ClusterId, k: Key)
    requires SingleOriginRun(ws, steps, c, family) && i < |ws| && k in family && ws[i].HasCopy(l, k)
    ensures Owner(ws[i].At(l)[k]) == c
  {
    Provenance(ws, steps, family, i, l, k);
  }

  lemma {:induction false} OriginHoldsNone(
    ws: seq<World>, steps: seq<Step>, c: ClusterId, family: iset<Key>, i: nat, k: Key)
    requires SingleOriginRun(ws, steps, c, family) && i < |ws| && k in family
    ensures !ws[i].HasCopy(c, k)
  {
    if i > 0 {
      OriginHoldsNone(ws, steps, c, family, i - 1, k);
      RunWellFormed(ws, steps, i - 1);
      assert steps[i - 1] in steps;
      NoOwnCopy(ws[i - 1], steps[i - 1], c, k);
      if ws[i].HasCopy(c, k) {
        CopiesOfOrigin(ws, steps, c, family, i, c, k);
      }
    }
  }

  /** If only c ever holds the object natively, every copy is owned by c and c never holds one,
      whichever clusters consider which others alive. */
  lemma SingleOrigin(
    ws: seq<World>, steps: seq<Step>, c: ClusterId, family: iset<Key>, i: nat, l: ClusterId, k: Key)
    requires SingleOriginRun(ws, steps, c, family) && i < |ws| && k in family && ws[i].HasCopy(l, k)
    ensures Owner(ws[i].At(l)[k]) == c && l != c
  {
    CopiesOfOrigin(ws, steps, c, family, i, l, k);
    OriginHoldsNone(ws, steps, c, family, i, k);
  }

  /** Exactly how a step makes a cluster hold a copy of its own object: never by creating one, only
      by updating a copy of another owner it may touch with an offer marked as its own. */
  lemma SelfOwnedExactly(w: World, s: Step, k: Key)
    requires Allowed(s) && s.SyncStep? && WellFormed(w)
    requires w.Has(s.at, k) ==> Owner(w.At(s.at)[k]) != s.at
    ensures var c := Config(s.spec, s.from, s.at);
            var i := Read(c.spec, c.peer, w.At(s.from), s.key);
            Effect(w, s).Has(s.at, k) && Owner(Effect(w, s).At(s.at)[k]) == s.at <==>
            && i.Offer? && KeyOf(i.desired) == k && Owner(i.desired) == s.at
            && w.Has(s.at, k) && MayUpdate(c, w.At(s.at)[k], w.Alive(s.at))
            && !Blocked(i.desired, ViewOf(w, s))
  {
    StepIntoOwn(Config(s.spec, s.from, s.at), w.At(s.at), w.At(s.from), s.key, ViewOf(w, s), k);
  }

  lemma StepIntoOwn(c: Config, local: Store, remote: Store, key: Key, v: View, k: Key)
    requires c.local != "" && (k in local ==> Owner(local[k]) != c.local)
    ensures var i, s := Read(c.spec, c.peer, remote, key), Pull(c, local, remote, key, v);
            k in s && Owner(s[k]) == c.local <==>
            && i.Offer? && KeyOf(i.desired) == k && Owner(i.desired) == c.local
            && k in local && MayUpdate(c, local[k], v.alive)
            && !Blocked(i.desired, v)
  {
    PullEffect(c, local, remote, key, v, k);
    var i := Read(c.spec, c.peer, remote, key);
    if i.Offer? && KeyOf(i.desired) == k && k in local {
      assert Settle(c, local, i.desired, i.syncStatus, v) == Pull(c, local, remote, key, v);
    }
  }

  /******* Deletion drains *******/

  /** The object is gone (or terminating) at its only origin c, and every copy is c's. */
  ghost predicate Draining(w: World, c: ClusterId, family: iset<Key>) {
    && (forall l, k | k in family && w.HasNative(l, k) :: l == c && w.At(c)[k].deleting)
    && (forall l, k | k in family && w.HasCopy(l, k) :: l != c && Owner(w.At(l)[k]) == c && c in w.Alive(l))
  }

  /** During a drain users do not create the object again. */
  ghost predicate NotRecreated(s: Step, c: ClusterId, family: iset<Key>) {
    s.UserPut? && KeyOf(s.obj) in family ==> s.at == c && s.obj.deleting
  }

  /** What is left of the object in a drain is copies of c's, and no cluster accepts one from
      another holder. */
  lemma DrainRefuses(
    w: World, spec: RuleSpec, c: ClusterId, family: iset<Key>, l: ClusterId, from: ClusterId, key: Key, k: Key)
    requires Draining(w, c, family) && key in family && k in family
    requires w.Has(from, key) && !w.At(from)[key].deleting
    requires c != "" && (l != c ==> c in w.Alive(l))
    ensures from != c && Owner(w.At(from)[key]) == c
    ensures l == c || OwnedByAnotherAlive(c, from, w.Alive(l))
    ensures w.Has(l, k) ==> !MayUpdate(Config(spec, from, l), w.At(l)[k], w.Alive(l))
  {
    assert !w.HasNative(from, key) && w.HasCopy(from, key);
    assert w.HasCopy(l, k) ==> l != c && Owner(w.At(l)[k]) == c;
  }

  /** While the origin stays alive at the holders, no step brings a copy back. */
  lemma DrainStep(w: World, s: Step, c: ClusterId, family: iset<Key>, l: ClusterId, k: Key)
    requires Allowed(s) && WellFormed(w) && Draining(w, c, family)
    requires c != "" && NotRecreated(s, c, family)
    requires s.SyncStep? ==> OwnershipNeutral(s.spec) && Closed(family, s.spec)
    requires s.SyncStep? && s.at != c ==> c in w.Alive(s.at)
    requires k in family && Effect(w, s).HasCopy(l, k)
    ensures w.HasCopy(l, k) && Owner(Effect(w, s).At(l)[k]) == c
  {
    CopyOrigin(w, s, l, k);
    if !(w.HasCopy(l, k) && SameCore(Effect(w, s).At(l)[k], w.At(l)[k])) {
      SourceInFamily(w, s, family, k);
      DrainRefuses(w, s.spec, c, family, l, s.from, s.key, k);
    }
  }

  /** Reading the vanished object from its origin removes the reader's copy. */
  lemma DrainRemoves(w: World, s: Step, c: ClusterId, family: iset<Key>, k: Key)
    requires Allowed(s) && WellFormed(w) && Draining(w, c, family)
    requires s.SyncStep? && Closed(family, s.spec) && s.from == c && k in family && LocalKey(s.spec, s.key) == k
    ensures !Effect(w, s).HasCopy(s.at, k)
  {
    assert Written(s.spec, s.spec.rules, s.key) == k;
    assert !w.HasCopy(c, s.key) && (w.HasNative(c, s.key) ==> w.At(c)[s.key].deleting);
  }

  /** If only c ever held the object natively, a drain begins as soon as c's object is deleted or
      terminating and every holder of a copy sees c alive. */
  lemma DrainBegins(ws: seq<World>, steps: seq<Step>, c: ClusterId, family: iset<Key>, i: nat)
    requires SingleOriginRun(ws, steps, c, family) && i < |ws|
    requires forall k | k in family && ws[i].HasNative(c, k) :: ws[i].At(c)[k].deleting
    requires forall l, k | k in family && ws[i].HasCopy(l, k) :: c in ws[i].Alive(l)
    ensures Draining(ws[i], c, family)
  {
    forall l, k | k in family && ws[i].HasCopy(l, k)
      ensures l != c && Owner(ws[i].At(l)[k]) == c
    {
      SingleOrigin(ws, steps, c, family, i, l, k);
    }
  }

  /** A run of a group in which the origin c stays alive everywhere and the object is not created
      again. Only members of the group sync or hold copies. */
  ghost predicate DrainRun(
    group: set<ClusterId>, ws: seq<World>, steps: seq<Step>, c: ClusterId, family: iset<Key>)
  {
    && c != "" && Run(ws, steps) && WellFormed(ws[0]) && Draining(ws[0], c, family)
    && (forall l, k | k in family && ws[0].HasCopy(l, k) :: l in group)
    && (forall s | s in steps :: NotRecreated(s, c, family))
    && (forall s | s in steps && s.SyncStep? :: OwnershipNeutral(s.spec) && Closed(family, s.spec) && s.at in group)
    && (forall i, l | 0 <= i < |ws| && l in group && l != c :: c in ws[i].Alive(l))
  }

  /** One step of such a run. */
  lemma DrainGoesOn(
    group: set<ClusterId>, ws: seq<World>, steps: seq<Step>, c: ClusterId, family: iset<Key>, j: nat)
    requires DrainRun(group, ws, steps, c, family) && j < |steps| && Draining(ws[j], c, family)
    requires forall l, k | k in family && ws[j].HasCopy(l, k) :: l in group
    ensures forall l, k | k in family && ws[j + 1].HasCopy(l, k) :: l in group && ws[j].HasCopy(l, k)
    ensures Draining(ws[j + 1], c, family)
  {
    RunWellFormed(ws, steps, j);
    var w, w', s := ws[j], ws[j + 1], steps[j];
    assert s in steps;
    forall l, k | k in family && w'.HasCopy(l, k)
      ensures w.HasCopy(l, k) && Owner(w'.At(l)[k]) == c
    {
      DrainStep(w, s, c, family, l, k);
    }
    forall l, k | k in family && w'.HasNative(l, k)
      ensures l == c && w'.At(c)[k].deleting
    {
      if !UserTouches(s, l, k) {
        NativeStep(w, s, l, k);
      }
    }
  }

  /** The holders of a copy only ever shrink, and what they hold stays c's. */
  lemma {:induction false} DrainShrinks(
    group: set<ClusterId>, ws: seq<World>, steps: seq<Step>, c: ClusterId, family: iset<Key>, i: nat, j: nat)
    requires DrainRun(group, ws, steps, c, family) && i <= j < |ws|
    ensures Draining(ws[j], c, family)
    ensures forall l, k | k in family && ws[j].HasCopy(l, k) :: l in group && ws[i].HasCopy(l, k)
    decreases j
  {
    if j > 0 {
      DrainShrinks(group, ws, steps, c, family, if i < j then i else j - 1, j - 1);
      DrainGoesOn(group, ws, steps, c, family, j - 1);
    }
  }

  /** Every holder reads the vanished object from its origin at least once. */
  ghost predicate AllRead(w: World, steps: seq<Step>, c: ClusterId, family: iset<Key>) {
    forall l, k | k in family && w.HasCopy(l, k) ::
      exists s | s in steps && s.SyncStep? && s.at == l && s.from == c :: LocalKey(s.spec, s.key) == k
  }

  /** Once every holder has read the vanished object from its origin, no copy is left anywhere. */
  lemma Drained(
    group: set<ClusterId>, ws: seq<World>, steps: seq<Step>, c: ClusterId, family: iset<Key>, l: ClusterId, k: Key)
    requires DrainRun(group, ws, steps, c, family) && k in family && AllRead(ws[0], steps, c, family)
    ensures !ws[|ws| - 1].HasCopy(l, k)
  {
    var n := |ws| - 1;
    DrainShrinks(group, ws, steps, c, family, 0, n);
    if ws[n].HasCopy(l, k) {
      var s :| s in steps && s.SyncStep? && s.at == l && s.from == c && LocalKey(s.spec, s.key) == k;
      var i :| 0 <= i < |steps| && steps[i] == s;
      DrainShrinks(group, ws, steps, c, family, 0, i);
      RunWellFormed(ws, steps, i);
      DrainRemoves(ws[i], s, c, family, k);
      DrainShrinks(group, ws, steps, c, family, i + 1, n);
    }
  }

  /** What follows the deletion, at step i, of the only native of the family. */
  ghost predicate DeletionOf(
    group: set<ClusterId>, ws: seq<World>, steps: seq<Step>, c: ClusterId, family: iset<Key>, i: nat)
  {
    && c != "" && i < |ws| == |steps| + 1
    && (forall k | k in family && ws[i].HasNative(c, k) :: ws[i].At(c)[k].deleting)
    && (forall l, k | k in family && ws[i].HasCopy(l, k) :: l in group)
    && (forall s | s in steps[i..] :: NotRecreated(s, c, family) && (s.SyncStep? ==> s.at in group))
    && (forall j, l | i <= j < |ws| && l in group && l != c :: c in ws[j].Alive(l))
    && AllRead(ws[i], steps[i..], c, family)
  }

  /** From creation to deletion: if only c ever held the object natively, then once c has deleted it
      and every holder has read from c, no copy is left. */
  lemma DeletionReachesAll(
    group: set<ClusterId>, ws: seq<World>, steps: seq<Step>, c: ClusterId, family: iset<Key>, i: nat,
    l: ClusterId, k: Key)
    requires SingleOriginRun(ws, steps, c, family) && DeletionOf(group, ws, steps, c, family, i) && k in family
    ensures !ws[|ws| - 1].HasCopy(l, k)
  {
    forall l, k | k in family && ws[i].HasCopy(l, k)
      ensures c in ws[i].Alive(l)
    {
      SingleOrigin(ws, steps, c, family, i, l, k);
    }
    DrainBegins(ws, steps, c, family, i);
    RunWellFormed(ws, steps, i);
    SuffixDrains(group, ws, steps, c, family, i);
    Drained(group, ws[i..], steps[i..], c, family, l, k);
  }

  lemma SuffixDrains(
    group: set<ClusterId>, ws: seq<World>, steps: seq<Step>, c: ClusterId, family: iset<Key>, i: nat)
    requires Run(ws, steps) && DeletionOf(group, ws, steps, c, family, i)
    requires SyncsBy(steps, OwnershipNeutral) && SyncsWithin(steps, family)
    requires WellFormed(ws[i]) && Draining(ws[i], c, family)
    ensures DrainRun(group, ws[i..], steps[i..], c, family)
  {
    assert forall s | s in steps[i..] :: s in steps;
  }

  /** For one key under rules that keep kinds, whatever else lives under the same name. */
  lemma DeletionOfKey(
    group: set<ClusterId>, ws: seq<World>, steps: seq<Step>, c: ClusterId, k: Key, i: nat, l: ClusterId)
    requires Run(ws, steps) && WellFormed(ws[0]) && NativesOnly(ws[0])
    requires SyncsBy(steps, OwnershipNeutral) && SyncsBy(steps, KeepsKind)
    requires OnlyOrigin(ws, c, iset{k}) && DeletionOf(group, ws, steps, c, iset{k}, i)
    ensures !ws[|ws| - 1].HasCopy(l, k)
  {
    forall s | s in steps && s.SyncStep?
      ensures Closed(iset{k}, s.spec)
    {
      OneKeyClosed(s.spec, k);
    }
    DeletionReachesAll(group, ws, steps, c, iset{k}, i, l, k);
  }

  ghost function AllKinds(namespace: string, name: string): iset<Key> {
    iset k: Key | k.namespace == namespace && k.name == name
  }

  /** For rules that change kinds as they like, over all kinds of one name. */
  lemma DeletionOfName(
    group: set<ClusterId>, ws: seq<World>, steps: seq<Step>, c: ClusterId, namespace: string, name: string, i: nat,
    l: ClusterId, k: Key)
    requires Run(ws, steps) && WellFormed(ws[0]) && NativesOnly(ws[0]) && SyncsBy(steps, OwnershipNeutral)
    requires OnlyOrigin(ws, c, AllKinds(namespace, name))
    requires DeletionOf(group, ws, steps, c, AllKinds(namespace, name), i) && k in AllKinds(namespace, name)
    ensures !ws[|ws| - 1].HasCopy(l, k)
  {
    forall s | s in steps && s.SyncStep?
      ensures Closed(AllKinds(namespace, name), s.spec)
    {
      AllKindsClosed(s.spec, namespace, name);
    }
    DeletionReachesAll(group, ws, steps, c, AllKinds(namespace, name), i, l, k);
  }

  lemma OwnLocalKey(spec: RuleSpec, k: Key)
    requires KeepsKind(spec) && k.gvk == spec.gvk
    ensures LocalKey(spec, k) == k
  {
    if spec.rules != [] {
      SameOverlay(spec.rules, NO_GVK, spec.gvk);
    }
  }

  /** Reading from a cluster that holds the object and then from one that does not creates the copy
      and deletes it again, so that in turn they do so forever, exactly when the object is not
      excluded from syncing, its owner is neither the reader nor considered alive by it, and the
      delete path looks where the copy was written. */
  lemma DeadOwnerCycle(holder: Config, lacking: Config, local: Store, held: Store, empty: Store, key: Key, v: View)
    requires lacking == holder.(peer := lacking.peer) && lacking.peer != holder.peer && holder.peer != ""
    requires key !in empty
    requires Read(holder.spec, holder.peer, held, key).Offer?
    requires var d := Read(holder.spec, holder.peer, held, key).desired;
             KeyOf(d) !in local && !Blocked(d, v)
    ensures var d, made := Read(holder.spec, holder.peer, held, key).desired, Pull(holder, local, held, key, v);
            KeyOf(d) in made && Pull(lacking, made, empty, key, v) == local <==>
            && SyncDisabled !in d.annotations && Owner(d) != holder.local && Owner(d) !in v.alive
            && LocalKey(holder.spec, key) == KeyOf(d)
  {
    var i := Read(holder.spec, holder.peer, held, key);
    MutatedIsCopy(held[key], MatchedRules(holder.spec, held[key]).value, holder.peer);
    CreateThenWithdraw(holder, lacking, local, i.desired, i.syncStatus, v, LocalKey(holder.spec, key));
  }

  lemma CreateThenWithdraw(c: Config, c': Config, store: Store, d: Object, syncStatus: bool, v: View, k: Key)
    requires KeyOf(d) !in store && !Blocked(d, v)
    requires !Native(d) && c'.peer != c.peer
    ensures var made := Settle(c, store, d, syncStatus, v);
            KeyOf(d) in made && Withdraw(c', made, k, v.alive) == store <==>
            MayCreate(c, d, v.alive) && Owner(d) !in v.alive && k == KeyOf(d)
  {
    CreateEffect(c, store, d, syncStatus, v);
    var copy := d.(status := if syncStatus then d.status else "");
    assert store[KeyOf(d) := copy] - {KeyOf(d)} == store;
    assert Owner(copy) == Owner(d);
    if MayCreate(c, d, v.alive) && !(Owner(d) !in v.alive && k == KeyOf(d)) {
      assert KeyOf(d) in Withdraw(c', store[KeyOf(d) := copy], k, v.alive);
    }
  }

  /******* Excluding objects from syncing *******/

  /** The rules do not take the sync-disabled annotation away. */
  predicate KeepsExclusion(spec: RuleSpec) {
    forall r | r in spec.rules :: SyncDisabled !in r.mutations.annotations.remove
  }

  lemma OfferKeepsExclusion(o: Object, rules: seq<SyncRule>, peer: ClusterId)
    requires SyncDisabled in o.annotations && forall r | r in rules :: SyncDisabled !in r.mutations.annotations.remove
    ensures SyncDisabled in Mutated(o, rules, peer).annotations
  {
    MergedMetadata(AnnotationMutations(rules), o.annotations, SyncDisabled);
  }

  /** What l reads in this step, if anything, is excluded from syncing. */
  predicate ReadsExcluded(w: World, s: Step, l: ClusterId) {
    s.SyncStep? && s.at == l ==>
      KeepsExclusion(s.spec) && (w.Has(s.from, s.key) ==> SyncDisabled in w.At(s.from)[s.key].annotations)
  }

  /** A missing object is not created from an excluded source. */
  lemma ExcludedNotCreated(w: World, s: Step, l: ClusterId, k: Key)
    requires Allowed(s) && WellFormed(w) && !UserTouches(s, l, k) && !w.Has(l, k) && ReadsExcluded(w, s, l)
    ensures !Effect(w, s).Has(l, k)
  {
    if s.SyncStep? && s.at == l {
      var c := Config(s.spec, s.from, l);
      PullEffect(c, w.At(l), w.At(s.from), s.key, ViewOf(w, s), k);
      if Read(s.spec, s.from, w.At(s.from), s.key).Offer? {
        OfferKeepsExclusion(w.At(s.from)[s.key], MatchedRules(s.spec, w.At(s.from)[s.key]).value, s.from);
      }
    }
  }

  /** A local object excluded from syncing is not changed by any step but a user's; at most it is
      withdrawn. */
  lemma ExcludedNotChanged(w: World, s: Step, l: ClusterId, k: Key)
    requires Allowed(s) && WellFormed(w) && !UserTouches(s, l, k)
    requires w.Has(l, k) && SyncDisabled in w.At(l)[k].annotations && Effect(w, s).Has(l, k)
    ensures SameCore(Effect(w, s).At(l)[k], w.At(l)[k])
  {
    StepOrigin(w, s, l, k);
  }

  /** Once the object carries the annotation wherever l reads it, l never gets it back: over any
      stretch of a run without users at l, what l lacks stays missing. */
  lemma {:induction false} ExcludedStaysMissing(ws: seq<World>, steps: seq<Step>, l: ClusterId, k: Key, i: nat, j: nat)
    requires Run(ws, steps) && WellFormed(ws[0]) && i <= j < |ws| && !ws[i].Has(l, k)
    requires forall n | i <= n < j :: !UserTouches(steps[n], l, k) && ReadsExcluded(ws[n], steps[n], l)
    ensures !ws[j].Has(l, k)
  {
    if i < j {
      ExcludedStaysMissing(ws, steps, l, k, i, j - 1);
      RunWellFormed(ws, steps, j - 1);
      ExcludedNotCreated(ws[j - 1], steps[j - 1], l, k);
    }
  }

  /******* Owners are authoritative *******/

  /** What l writes to, or withdraws from, tgt when it reads from c is about src. */
  predicate OnlyFromSource(w: World, s: Step, c: ClusterId, l: ClusterId, src: Key, tgt: Key) {
    s.SyncStep? && s.at == l && s.from == c ==>
      && OwnershipNeutral(s.spec)
      && match Read(s.spec, c, w.At(c), s.key)
         case Offer(d, _) => KeyOf(d) == tgt ==> s.key == src
         case Gone => LocalKey(s.spec, s.key) == tgt ==> s.key == src
         case Ignore => true
  }

  /** A stretch of a run in which c is alive at l and natively holds src, whose copy at l is tgt,
      and whose content only moves forward in the order ver; c's other objects do not target tgt. */
  ghost predicate Authority(
    ws: seq<World>, steps: seq<Step>, c: ClusterId, l: ClusterId, src: Key, tgt: Key, ver: string -> int)
  {
    && Run(ws, steps) && WellFormed(ws[0]) && l != c && c != ""
    && (forall i | 0 <= i < |ws| ::
          c in ws[i].Alive(l) && ws[i].HasNative(c, src) && !ws[i].At(c)[src].deleting)
    && (forall i | 0 <= i < |steps| :: ver(ws[i].At(c)[src].body) <= ver(ws[i + 1].At(c)[src].body))
    && (forall i | 0 <= i < |steps| ::
          !UserTouches(steps[i], l, tgt) && OnlyFromSource(ws[i], steps[i], c, l, src, tgt))
  }

  predicate OwnedCopy(w: World, l: ClusterId, k: Key, c: ClusterId) {
    w.Has(l, k) && Owner(w.At(l)[k]) == c
  }

  predicate Pulls(s: Step, l: ClusterId, c: ClusterId) {
    s.SyncStep? && s.at == l && s.from == c
  }

  /** One step: c's copy stays c's, only l's controller for c changes it, and then to c's current
      content. */
  lemma AuthorityStep(w: World, s: Step, c: ClusterId, l: ClusterId, src: Key, tgt: Key)
    requires Allowed(s) && WellFormed(w) && l != c && c != ""
    requires c in w.Alive(l) && w.HasNative(c, src) && !w.At(c)[src].deleting
    requires !UserTouches(s, l, tgt) && OwnedCopy(w, l, tgt, c) && OnlyFromSource(w, s, c, l, src, tgt)
    ensures OwnedCopy(Effect(w, s), l, tgt, c)
    ensures var o := Effect(w, s).At(l)[tgt];
            SameCore(o, w.At(l)[tgt]) || (Pulls(s, l, c) && o.body == w.At(c)[src].body)
  {
    if s.SyncStep? && s.at == l {
      var cf, v := Config(s.spec, s.from, s.at), ViewOf(w, s);
      if s.from != c {
        PeerCannotTouch(cf, w.At(l), w.At(s.from), s.key, v, tgt);
      } else {
        PullEffect(cf, w.At(l), w.At(c), s.key, v, tgt);
        assert WellKeyed(w.At(c));
        if Read(s.spec, c, w.At(c), s.key).Offer? {
          OfferFacts(cf, w.At(c), s.key);
        }
      }
    }
  }

  lemma {:induction false} StaysOwned(
    ws: seq<World>, steps: seq<Step>, c: ClusterId, l: ClusterId, src: Key, tgt: Key, ver: string -> int, j: nat)
    requires Authority(ws, steps, c, l, src, tgt, ver) && j < |ws| && OwnedCopy(ws[0], l, tgt, c)
    ensures OwnedCopy(ws[j], l, tgt, c) && WellFormed(ws[j])
  {
    RunWellFormed(ws, steps, j);
    if j > 0 {
      StaysOwned(ws, steps, c, l, src, tgt, ver, j - 1);
      AuthorityStep(ws[j - 1], steps[j - 1], c, l, src, tgt);
    }
  }

  /** One step of the stretch, in terms of versions. */
  lemma VersionStep(
    ws: seq<World>, steps: seq<Step>, c: ClusterId, l: ClusterId, src: Key, tgt: Key, ver: string -> int, j: nat)
    requires Authority(ws, steps, c, l, src, tgt, ver) && j < |steps| && OwnedCopy(ws[0], l, tgt, c)
    ensures OwnedCopy(ws[j], l, tgt, c) && OwnedCopy(ws[j + 1], l, tgt, c)
    ensures || SameCore(ws[j + 1].At(l)[tgt], ws[j].At(l)[tgt])
            || (Pulls(steps[j], l, c) && ver(ws[j + 1].At(l)[tgt].body) == ver(ws[j].At(c)[src].body))
  {
    StaysOwned(ws, steps, c, l, src, tgt, ver, j);
    AuthorityStep(ws[j], steps[j], c, l, src, tgt);
  }

  /** Versions alone: a follower that only ever takes over the leader's current version never goes
      back, never gets ahead, and changes only when it pulls. */
  lemma {:induction false} Chase(
    copies: seq<Object>, origin: seq<int>, pulls: seq<bool>, ver: string -> int, i: nat, j: nat)
    requires |copies| == |origin| == |pulls| + 1 && i <= j < |copies| && ver(copies[0].body) <= origin[0]
    requires forall n | 0 <= n < |pulls| :: origin[n] <= origin[n + 1]
    requires forall n | 0 <= n < |pulls| ::
               SameCore(copies[n + 1], copies[n]) || (pulls[n] && ver(copies[n + 1].body) == origin[n])
    ensures ver(copies[i].body) <= ver(copies[j].body) <= origin[j]
    ensures (forall n | i <= n < j :: !pulls[n]) ==> SameCore(copies[j], copies[i])
    decreases j
  {
    if j > 0 {
      Chase(copies, origin, pulls, ver, if i < j then i else j - 1, j - 1);
    }
  }

  /** Over the whole stretch the copy stays c's, its content never goes back and never runs ahead
      of c's own, and without a reconcile of l's controller for c it does not change at all. */
  lemma OwnerAuthority(
    ws: seq<World>, steps: seq<Step>, c: ClusterId, l: ClusterId, src: Key, tgt: Key, ver: string -> int,
    i: nat, j: nat)
    requires Authority(ws, steps, c, l, src, tgt, ver) && i <= j < |ws|
    requires OwnedCopy(ws[0], l, tgt, c) && ver(ws[0].At(l)[tgt].body) <= ver(ws[0].At(c)[src].body)
    ensures OwnedCopy(ws[i], l, tgt, c) && OwnedCopy(ws[j], l, tgt, c)
    ensures ver(ws[i].At(l)[tgt].body) <= ver(ws[j].At(l)[tgt].body) <= ver(ws[j].At(c)[src].body)
    ensures (forall n | i <= n < j :: !Pulls(steps[n], l, c)) ==> SameCore(ws[j].At(l)[tgt], ws[i].At(l)[tgt])
  {
    forall n | 0 <= n < |ws|
      ensures OwnedCopy(ws[n], l, tgt, c)
    {
      StaysOwned(ws, steps, c, l, src, tgt, ver, n);
    }
    var copies := seq(|ws|, n requires 0 <= n < |ws| => ws[n].At(l)[tgt]);
    var origin := seq(|ws|, n requires 0 <= n < |ws| => ver(ws[n].At(c)[src].body));
    var pulls := seq(|steps|, n requires 0 <= n < |steps| => Pulls(steps[n], l, c));
    forall n | 0 <= n < |pulls|
      ensures SameCore(copies[n + 1], copies[n]) || (pulls[n] && ver(copies[n + 1].body) == origin[n])
    {
      VersionStep(ws, steps, c, l, src, tgt, ver, n);
    }
    Chase(copies, origin, pulls, ver, i, j);
  }
}
