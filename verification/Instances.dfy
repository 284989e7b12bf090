/** Concrete runs for the failures that the theorems delimit: each starts from objects as users
    create them and ends where the promise is broken. */
module Instances {
  import opened Objects
  import opened Rules
  import opened Sync
  import opened Protocol
  import opened Convergence
  import opened Statuses
  import Safety
  import Copies

  const KIND := GVK("apps", "v1", "Deployment")
  const K := Key(KIND, "ns", "web")

  /** A rule that selects every deployment and changes nothing. */
  function PlainRule(syncStatus: bool): SyncRule {
    SyncRule([], Mutations(NO_META, NO_META, NO_GVK, [], syncStatus))
  }

  function Plain(syncStatus: bool): RuleSpec {
    RuleSpec([], KIND, [PlainRule(syncStatus)])
  }

  function NativeOf(body: string, status: string): Object {
    Object(KIND, "ns", "web", map[], map[], [], [], false, body, status)
  }

  function CopyOf(owner: ClusterId, body: string, status: string): Object {
    NativeOf(body, status).(labels := map[Ownership := owner], annotations := map[Ownership := owner])
  }

  lemma PlainMeta(syncStatus: bool, m: Labels)
    ensures ApplyMeta(AnnotationMutations([PlainRule(syncStatus)]), m) == m
    ensures ApplyMeta(LabelMutations([PlainRule(syncStatus)]), m) == m
  {
    UntouchedMap(AnnotationMutations([PlainRule(syncStatus)]), m);
    UntouchedMap(LabelMutations([PlainRule(syncStatus)]), m);
  }

  lemma UntouchedMap(ms: seq<MetaMutation>, m: Labels)
    requires ms == [NO_META]
    ensures ApplyMeta(ms, m) == m
  {
    assert ms[..0] == [] && MergedAdd(ms) == map[] && MergedRemove(ms) == [];
    assert (m + map[]) - {} == m;
  }

  lemma PlainMutated(syncStatus: bool, o: Object, peer: ClusterId)
    requires o.finalizers == [] && o.ownerReferences == [] && o.annotations.Keys !! Stripped
    ensures Mutated(o, [PlainRule(syncStatus)], peer) ==
            o.(labels := Claimed(o.labels, peer), annotations := Claimed(o.annotations, peer))
  {
    var rules := [PlainRule(syncStatus)];
    PlainMeta(syncStatus, o.annotations);
    PlainMeta(syncStatus, o.labels);
    SameOverlay(rules, NO_GVK, o.gvk);
    assert Claimed(o.annotations, peer) - Stripped == Claimed(o.annotations, peer);
  }

  lemma PlainMatched(syncStatus: bool, o: Object)
    requires o.gvk == KIND
    ensures MatchedRules(Plain(syncStatus), o) == Some([PlainRule(syncStatus)])
  {
    var rules := Plain(syncStatus).rules;
    assert rules[..0] == [] && RuleVerdict(rules[0], o) == Matched;
    assert Selected(rules, o) == [PlainRule(syncStatus)];
  }

  /** What a cluster offers of a native, and of a copy. */
  lemma Offers(syncStatus: bool, peer: ClusterId, remote: Store, owner: ClusterId, body: string, status: string)
    requires peer != "" && owner != "" && K in remote
    requires remote[K] == CopyOf(owner, body, status) || (owner == peer && remote[K] == NativeOf(body, status))
    ensures Read(Plain(syncStatus), peer, remote, K) == Offer(CopyOf(owner, body, status), syncStatus)
  {
    PlainMatched(syncStatus, remote[K]);
    PlainMutated(syncStatus, remote[K], peer);
  }

  /** Read with an empty store: the object is gone. */
  lemma Gone(syncStatus: bool, peer: ClusterId, remote: Store)
    requires K !in remote
    ensures Read(Plain(syncStatus), peer, remote, K) == Intent.Gone && LocalKey(Plain(syncStatus), K) == K
  {
    Safety.OwnLocalKey(Plain(syncStatus), K);
  }

  predicate Three(a: ClusterId, b: ClusterId, c: ClusterId) {
    a != "" && b != "" && c != "" && a != b && b != c && c != a
  }

  function One(o: Object): Store {
    map[K := o]
  }

  /** Three clusters that see each other alive. */
  function Group(a: ClusterId, b: ClusterId, c: ClusterId, sa: Store, sb: Store, sc: Store): World {
    World(map[a := sa, b := sb, c := sc],
          map[a := {b, c}, b := {a, c}, c := {a, b}],
          map[a := {"ns"}, b := {"ns"}, c := {"ns"}])
  }

  /** Only c's store differs, and it is st. */
  ghost predicate Puts(w: World, w': World, c: ClusterId, st: Store) {
    w'.alive == w.alive && w'.namespaces == w.namespaces && w'.stores == w.stores[c := st]
  }

  /** A step of the plain rule at `at`, reading what `from` holds of `owner`. */
  lemma Reads(
    w: World, at: ClusterId, from: ClusterId, syncStatus: bool, owner: ClusterId, body: string, status: string)
    returns (w': World)
    requires at != "" && from != "" && at != from && owner != "" && "ns" in w.Namespaces(at) && w.Has(from, K)
    requires w.At(from)[K] == CopyOf(owner, body, status) || (owner == from && w.At(from)[K] == NativeOf(body, status))
    ensures Reaches(w, w')
    ensures var c, v := Config(Plain(syncStatus), from, at), View(w.Alive(at), w.Namespaces(at), false);
            Puts(w, w', at, Settle(c, w.At(at), CopyOf(owner, body, status), syncStatus, v))
  {
    var s := SyncStep(at, from, Plain(syncStatus), K, false);
    w' := Effect(w, s);
    StepReaches(w, s);
    Offers(syncStatus, from, w.At(from), owner, body, status);
  }

  /** Such a step without statuses, where it may create or update. */
  lemma Takes(w: World, at: ClusterId, from: ClusterId, owner: ClusterId, body: string) returns (w': World)
    requires at != "" && from != "" && at != from && owner != "" && "ns" in w.Namespaces(at) && w.Has(from, K)
    requires w.At(from)[K] == CopyOf(owner, body, "") || (owner == from && w.At(from)[K] == NativeOf(body, ""))
    requires if w.Has(at, K)
             then w.At(at)[K] == CopyOf(Owner(w.At(at)[K]), w.At(at)[K].body, "") && !Native(w.At(at)[K])
                  && !OwnedByAnotherAlive(Owner(w.At(at)[K]), from, w.Alive(at))
             else owner != at && !OwnedByAnotherAlive(owner, from, w.Alive(at))
    ensures Reaches(w, w') && Puts(w, w', at, w.At(at)[K := CopyOf(owner, body, "")])
  {
    w' := Reads(w, at, from, false, owner, body, "");
  }

  /** A read from a cluster that lacks the object, where it may delete. */
  lemma Loses(w: World, at: ClusterId, from: ClusterId) returns (w': World)
    requires at != "" && from != "" && at != from && w.Has(at, K) && !w.Has(from, K)
    requires !Native(w.At(at)[K]) && !OwnedByAnotherAlive(Owner(w.At(at)[K]), from, w.Alive(at))
    ensures Reaches(w, w') && Puts(w, w', at, w.At(at) - {K})
  {
    var s := SyncStep(at, from, Plain(false), K, false);
    w' := Effect(w, s);
    StepReaches(w, s);
    Gone(false, from, w.At(from));
  }

  lemma Deletes(w: World, at: ClusterId) returns (w': World)
    ensures Reaches(w, w') && Puts(w, w', at, w.At(at) - {K})
  {
    StepReaches(w, UserDelete(at, K));
    w' := Effect(w, UserDelete(at, K));
  }

  lemma Sees(w: World, at: ClusterId, alive: set<ClusterId>) returns (w': World)
    requires at !in alive
    ensures Reaches(w, w') && w' == w.(alive := w.alive[at := alive])
  {
    StepReaches(w, SetAlive(at, alive));
    w' := Effect(w, SetAlive(at, alive));
  }

  /******* The status of a native is overwritten *******/

  /** Two clusters hold natives of the same name; syncing statuses replaces one's by the other's. */
  lemma NativeStatusLost(w: World, a: ClusterId, b: ClusterId) returns (w': World)
    requires a != "" && b != "" && a != b && "ns" in w.Namespaces(a)
    requires w.At(a) == One(NativeOf("x", "up")) && w.At(b) == One(NativeOf("y", "down"))
    ensures Reaches(w, w') && w'.At(a) == One(NativeOf("x", "down"))
  {
    w' := Reads(w, a, b, true, b, "y", "down");
  }

  /******* A cluster holds a copy of its own object *******/

  /** a's object reaches b; a deletes it and takes c's object of the same name; c is lost sight of;
      and then a takes its own old object back from b, as a copy. */
  lemma OwnCopyReached(w: World, a: ClusterId, b: ClusterId, c: ClusterId) returns (w': World)
    requires Three(a, b, c) && "ns" in w.Namespaces(a) && "ns" in w.Namespaces(b)
    requires w.At(a) == One(NativeOf("x", "")) && w.At(b) == map[] && w.At(c) == One(NativeOf("y", ""))
    ensures Reaches(w, w') && w'.At(a) == One(CopyOf(a, "x", ""))
  {
    var w1 := Vacated(w, a, b);
    var w2 := Replaced(w1, a, c, {b});
    ReachesOn(w, w1, w2);
    w' := Takes(w2, a, b, a, "x");
    ReachesOn(w, w2, w');
  }

  lemma Vacated(w: World, a: ClusterId, b: ClusterId) returns (w': World)
    requires a != "" && b != "" && a != b && "ns" in w.Namespaces(b)
    requires w.At(a) == One(NativeOf("x", "")) && w.At(b) == map[]
    ensures Reaches(w, w') && w'.At(a) == map[] && w'.At(b) == One(CopyOf(a, "x", ""))
    ensures w'.namespaces == w.namespaces && forall x | x != a && x != b :: w'.At(x) == w.At(x)
  {
    var w1 := Takes(w, b, a, a, "x");
    w' := Deletes(w1, a);
    assert One(NativeOf("x", "")) - {K} == map[];
    ReachesOn(w, w1, w');
  }

  lemma Replaced(w: World, a: ClusterId, c: ClusterId, alive: set<ClusterId>) returns (w': World)
    requires a != "" && c != "" && a != c && "ns" in w.Namespaces(a) && a !in alive
    requires w.At(a) == map[] && w.At(c) == One(NativeOf("y", ""))
    ensures Reaches(w, w') && w'.At(a) == One(CopyOf(c, "y", "")) && w'.Alive(a) == alive
    ensures w'.namespaces == w.namespaces && forall x | x != a :: w'.At(x) == w.At(x)
  {
    var w1 := Takes(w, a, c, c, "y");
    w' := Sees(w1, a, alive);
    ReachesOn(w, w1, w');
  }

  /******* Created and deleted forever *******/

  /** a's object reaches b; c loses sight of a; and then c's reads from b and from a peer d that lacks
      the object create and delete the copy, over and over. */
  lemma FlappingReached(w: World, a: ClusterId, b: ClusterId, c: ClusterId, d: ClusterId)
    returns (without: World, with': World)
    requires Three(a, b, c) && d !in {"", a, b, c} && "ns" in w.Namespaces(b) && "ns" in w.Namespaces(c)
    requires w.At(a) == One(NativeOf("x", "")) && w.At(b) == w.At(d) == map[] && c in w.stores && w.stores[c] == map[]
    ensures Reaches(w, without) && Reaches(without, with') && Reaches(with', without)
    ensures !without.Has(c, K) && with'.Has(c, K)
  {
    var w1 := Takes(w, b, a, a, "x");
    without := Sees(w1, c, {b, d});
    ReachesOn(w, w1, without);
    with' := Flaps(without, a, b, c, d);
  }

  lemma Flaps(w: World, a: ClusterId, b: ClusterId, c: ClusterId, d: ClusterId) returns (w': World)
    requires Three(a, b, c) && d !in {"", a, b, c} && "ns" in w.Namespaces(c) && w.Alive(c) == {b, d}
    requires w.At(b) == One(CopyOf(a, "x", "")) && w.At(d) == map[] && c in w.stores && w.stores[c] == map[]
    ensures Reaches(w, w') && Reaches(w', w) && w'.Has(c, K)
  {
    w' := Takes(w, c, b, a, "x");
    var back := Loses(w', c, d);
    assert One(CopyOf(a, "x", "")) - {K} == map[];
    assert back == w;
  }

  /******* Statuses that need not settle *******/

  function PlainMesh(clusters: set<ClusterId>): Mesh {
    Mesh(clusters, Plain(true), K, K)
  }

  /** a holds the object, the others outdated copies of it. */
  ghost predicate Outdated(w: World, clusters: set<ClusterId>, a: ClusterId) {
    && WellFormed(w) && "" !in clusters && a in clusters
    && (forall l | l in clusters :: w.Alive(l) == clusters - {l} && "ns" in w.Namespaces(l))
    && (forall l | l in clusters :: w.At(l) == One(if l == a then NativeOf("x", "up") else CopyOf(a, "x", "down")))
  }

  lemma MemberOffers(w: World, clusters: set<ClusterId>, a: ClusterId, l: ClusterId)
    requires Outdated(w, clusters, a) && l in clusters
    ensures Offered(PlainMesh(clusters), w, l) == Offer(CopyOf(a, "x", if l == a then "up" else "down"), true)
  {
    Offers(true, l, w.At(l), a, "x", if l == a then "up" else "down");
  }

  lemma MemberGood(w: World, clusters: set<ClusterId>, a: ClusterId, l: ClusterId)
    requires Outdated(w, clusters, a) && l in clusters
    ensures var m := PlainMesh(clusters);
            && GoodNative(m, w, l) && GoodOffer(m, w, l) && GoodOwner(m, w, l, K) && GoodCopy(m, w, l)
            && w.Has(l, K) && !Stale(m, w, l) && Gossips(m, w, l)
            && StatusAt(w, l, K) == if l == a then "up" else "down"
  {
    MemberOffers(w, clusters, a, l);
    MemberOffers(w, clusters, a, a);
    assert w.At(l) == One(if l == a then NativeOf("x", "up") else CopyOf(a, "x", "down"));
    assert w.At(a) == One(NativeOf("x", "up"));
  }

  lemma OutdatedReady(w: World, clusters: set<ClusterId>, a: ClusterId)
    requires Outdated(w, clusters, a)
    ensures Ready(PlainMesh(clusters), w) && Converged(PlainMesh(clusters), w)
  {
    var m := PlainMesh(clusters);
    assert GoodRule(m);
    forall l | l in clusters
      ensures GoodNative(m, w, l) && GoodOffer(m, w, l) && GoodOwner(m, w, l, K) && GoodCopy(m, w, l)
      ensures w.Has(l, K) && !Stale(m, w, l)
    {
      MemberGood(w, clusters, a, l);
    }
  }

  /** A converged mesh of three or more clusters that some fair run leaves with different statuses. */
  lemma StatusesApart(w: World, clusters: set<ClusterId>, a: ClusterId, b: ClusterId, c: ClusterId)
    requires Outdated(w, clusters, a) && {b, c} <= clusters - {a} && b != c
    ensures Ready(PlainMesh(clusters), w) && Converged(PlainMesh(clusters), w) && !AlwaysSettles(PlainMesh(clusters), w)
  {
    var m := PlainMesh(clusters);
    OutdatedReady(w, clusters, a);
    MemberGood(w, clusters, a, a);
    MemberGood(w, clusters, a, b);
    MemberGood(w, clusters, a, c);
    assert w.At(a) == One(NativeOf("x", "up")) && w.At(b) == One(CopyOf(a, "x", "down"));
    assert !OffersAgreeAt(m, w, c, a, b);
    StatusesSettleExactly(m, w);
  }

  /******* Statuses that settle although they are synced *******/

  /** A rule for objects without the ownership label, which syncs statuses. */
  function SourcesRule(): SyncRule {
    var sources := Selector(map[], [Requirement(Ownership, DoesNotExist, [])]);
    SyncRule([SyncRuleMatch("", "", [], [sources], [])], Mutations(NO_META, NO_META, NO_GVK, [], true))
  }

  function Sources(): RuleSpec {
    RuleSpec([], KIND, [SourcesRule()])
  }

  /** Labelled copies are not offered on. */
  lemma CopiesNotOffered(peer: ClusterId, remote: Store, key: Key)
    requires key in remote && !remote[key].deleting && Ownership in remote[key].labels
    ensures Read(Sources(), peer, remote, key) == Ignore
  {
    var o, rules := remote[key], Sources().rules;
    var sel := SourcesRule().matches[0].labels[0];
    assert !Holds(sel.matchExpressions[0], o.labels);
    assert !Selects(sel, o.labels) && [sel][1..] == [];
    assert FirstSelected([sel], o.labels) == Unmatched;
    var entry := SourcesRule().matches[0];
    assert MatchVerdict(entry, o) == Unmatched && [entry][1..] == [];
    assert FirstMatch([entry], o) == Unmatched && SourcesRule().matches == [entry];
    assert RuleVerdict(rules[0], o) == Unmatched && rules[..0] == [];
    assert Selected(rules, o) == [];
  }

  /** With such a rule and one native, the statuses of any number of copies always settle. */
  lemma SourcesSettle(m: Mesh, w: World, a: ClusterId)
    requires m.spec == Sources() && Ready(m, w) && Converged(m, w)
    requires forall c | c in m.clusters && c != a && w.Has(c, m.src) :: Ownership in w.At(c)[m.src].labels
    ensures AlwaysSettles(m, w)
  {
    forall c | c in m.clusters && Gossips(m, w, c)
      ensures c == a
    {
      if c != a {
        CopiesNotOffered(c, w.At(c), m.src);
      }
    }
    SoleTellerSettles(m, w, a);
  }

  /** Worlds as these runs start from exist. */
  lemma StartsExist(a: ClusterId, b: ClusterId, c: ClusterId, sa: Store, sb: Store, sc: Store)
    requires Three(a, b, c)
    ensures var w := Group(a, b, c, sa, sb, sc);
            && w.At(a) == sa && w.At(b) == sb && w.At(c) == sc
            && w.Alive(a) == {b, c} && w.Alive(b) == {a, c} && w.Alive(c) == {a, b}
            && w.Namespaces(a) == w.Namespaces(b) == w.Namespaces(c) == {"ns"}
            && w.stores == map[a := sa, b := sb, c := sc]
            && (WellKeyed(sa) && WellKeyed(sb) && WellKeyed(sc) ==> WellFormed(w))
  {
  }

  /******* A renamed copy that outlives its source *******/

  /** Overrides that move every object to another namespace. */
  function Mover(known: set<ClusterId>): Patcher {
    Patcher(known, (patches: seq<string>, o: Object, synced: ClusterId, local: ClusterId) =>
                     Some(o.(namespace := "elsewhere")))
  }

  function MovingSpec(): RuleSpec {
    RuleSpec([], KIND, [PlainRule(false).(mutations := PlainRule(false).mutations.(overrides := ["move"]))])
  }

  /** A copy that only changed its namespace is written, and stays when its source is gone: the
      lookup for renamed copies searches the source's own namespace. */
  lemma MovedCopyStays(c: Config, st: LocalState, remote: Store, gone: Store, v: View, v': View, patcher: Patcher)
    requires c.spec == MovingSpec() && c.peer != "" && c.local != "" && c.peer != c.local
    requires patcher == Mover({c.peer, c.local}) && st == LocalState(map[], false, false)
    requires K in remote && remote[K] == NativeOf("x", "") && K !in gone && !v.limited && "elsewhere" in v.namespaces
    ensures var written, k := Reconciled(c, st, remote, K, v, patcher), K.(namespace := "elsewhere");
            k in written.store && k in Reconciled(c, written, gone, K, v', patcher).store
  {
    var d := MovedCopy(c, remote[K], patcher);
    Copies.RenamedLifecycle(c, st, remote, gone, K, v, v', patcher, d);
  }

  lemma MovingMatched(o: Object)
    requires o.gvk == KIND
    ensures MatchedRules(MovingSpec(), o) == Some(MovingSpec().rules) && Overrides(MovingSpec().rules) == ["move"]
  {
    var rules := MovingSpec().rules;
    assert rules[..0] == [] && RuleVerdict(rules[0], o) == Matched && Selected(rules, o) == rules;
  }

  lemma MovingMutated(o: Object, peer: ClusterId)
    requires o == NativeOf("x", "") && peer != ""
    ensures var d := Mutated(o, MovingSpec().rules, peer);
            KeyOf(d) == K && Owner(d) == peer && SyncDisabled !in d.annotations
  {
    var rules := MovingSpec().rules;
    SameOverlay(rules, NO_GVK, KIND);
    UntouchedMap(AnnotationMutations(rules), map[]);
  }

  lemma MovedCopy(c: Config, o: Object, patcher: Patcher) returns (d: Object)
    requires c.spec == MovingSpec() && c.peer != "" && c.local != "" && c.peer != c.local
    requires o == NativeOf("x", "") && patcher == Mover({c.peer, c.local})
    ensures Copies.Wanted(c, o, patcher) == Some(d)
    ensures KeyOf(d) == K.(namespace := "elsewhere") && Owner(d) == c.peer && SyncDisabled !in d.annotations
  {
    MovingMatched(o);
    MovingMutated(o, c.peer);
    d := Copies.Wanted(c, o, patcher).value;
  }

  /******* The same in concrete worlds *******/

  lemma NativeStatusLostCase()
    ensures exists w, w' :: WellFormed(w) && Safety.NativesOnly(w) && Reaches(w, w')
              && w.At("a") == One(NativeOf("x", "up")) && w'.At("a") == One(NativeOf("x", "down"))
  {
    var w := Start("a", "b", "c", One(NativeOf("x", "up")), One(NativeOf("y", "down")), map[]);
    var w' := NativeStatusLost(w, "a", "b");
  }

  lemma OwnCopyCase()
    ensures exists w, w' :: WellFormed(w) && Safety.NativesOnly(w) && Reaches(w, w')
              && w'.At("a") == One(CopyOf("a", "x", ""))
  {
    var w := Start("a", "b", "c", One(NativeOf("x", "")), map[], One(NativeOf("y", "")));
    var w' := OwnCopyReached(w, "a", "b", "c");
  }

  lemma FlappingCase()
    ensures exists w, without, with' :: WellFormed(w) && Safety.NativesOnly(w) && Reaches(w, without)
              && Reaches(without, with') && Reaches(with', without) && !without.Has("c", K) && with'.Has("c", K)
  {
    var w := Start("a", "b", "c", One(NativeOf("x", "")), map[], map[]);
    var without, with' := FlappingReached(w, "a", "b", "c", "d");
  }

  lemma StatusesApartCase()
    ensures exists m, w :: Ready(m, w) && Converged(m, w) && !AlwaysSettles(m, w)
  {
    var copy := One(CopyOf("a", "x", "down"));
    var w := Group("a", "b", "c", One(NativeOf("x", "up")), copy, copy);
    StartsExist("a", "b", "c", One(NativeOf("x", "up")), copy, copy);
    assert Outdated(w, {"a", "b", "c"}, "a");
    StatusesApart(w, {"a", "b", "c"}, "a", "b", "c");
  }

  /** Three clusters that see each other alive and hold the given natives. */
  lemma Start(a: ClusterId, b: ClusterId, c: ClusterId, sa: Store, sb: Store, sc: Store) returns (w: World)
    requires Three(a, b, c) && WellKeyed(sa) && WellKeyed(sb) && WellKeyed(sc)
    requires AllNative(sa) && AllNative(sb) && AllNative(sc)
    ensures WellFormed(w) && Safety.NativesOnly(w) && w.At(a) == sa && w.At(b) == sb && w.At(c) == sc
    ensures w.Namespaces(a) == w.Namespaces(b) == w.Namespaces(c) == {"ns"} && w.stores.Keys == {a, b, c}
  {
    w := Group(a, b, c, sa, sb, sc);
    StartsExist(a, b, c, sa, sb, sc);
    OnlyNatives(w, a, b, c);
  }

  lemma OnlyNatives(w: World, a: ClusterId, b: ClusterId, c: ClusterId)
    requires w.stores.Keys == {a, b, c} && AllNative(w.stores[a]) && AllNative(w.stores[b]) && AllNative(w.stores[c])
    ensures Safety.NativesOnly(w)
  {
  }

  predicate AllNative(st: Store) {
    forall k | k in st :: Native(st[k])
  }
}
