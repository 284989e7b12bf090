/** Convergence of a full mesh: all clusters see each other alive, one rule runs between every pair,
    and nobody edits or deletes the object. */
module Convergence {
  import opened Objects
  import opened Rules
  import opened Sync
  import opened Protocol
  import Safety

  /** The clusters of the group, the rule they all run, the object under consideration and the key
      its copies are written to, which differs from the object's if the matched rules change kinds. */
  datatype Mesh = Mesh(clusters: set<ClusterId>, spec: RuleSpec, src: Key, target: Key)

  /** What c offers its peers. */
  function Offered(m: Mesh, w: World, c: ClusterId): Intent {
    Read(m.spec, c, w.At(c), m.src)
  }

  predicate GoodRule(m: Mesh) {
    && NoOverrides(m.spec) && OwnershipNeutral(m.spec)
    && m.src.gvk == m.spec.gvk && m.target == m.src.(gvk := m.target.gvk) && "" !in m.clusters
  }

  /** Natives are selected by the rule, written to the target and not excluded from syncing. */
  predicate GoodNative(m: Mesh, w: World, c: ClusterId) {
    w.HasNative(c, m.src) ==>
      && !w.At(c)[m.src].deleting && Offered(m, w, c).Offer?
      && KeyOf(Offered(m, w, c).desired) == m.target && SyncDisabled !in Offered(m, w, c).desired.annotations
  }

  /** Nothing is offered for the source key itself unless that is the target. */
  predicate GoodOffer(m: Mesh, w: World, c: ClusterId) {
    Offered(m, w, c).Offer? && KeyOf(Offered(m, w, c).desired) == m.src ==> m.target == m.src
  }

  /** Copies belong to another member of the group. */
  predicate GoodOwner(m: Mesh, w: World, l: ClusterId, k: Key) {
    w.HasCopy(l, k) ==> Owner(w.At(l)[k]) in m.clusters && Owner(w.At(l)[k]) != l
  }

  predicate GoodCopy(m: Mesh, w: World, l: ClusterId) {
    w.HasCopy(l, m.target) ==>
      && w.HasNative(Owner(w.At(l)[m.target]), m.src)
      && SyncDisabled !in w.At(l)[m.target].annotations
  }

  ghost predicate Ready(m: Mesh, w: World) {
    && GoodRule(m) && WellFormed(w)
    && (forall l | l in m.clusters ::
          && w.Alive(l) == m.clusters - {l}
          && (m.src.namespace == "" || m.src.namespace in w.Namespaces(l))
          && GoodNative(m, w, l) && GoodOffer(m, w, l)
          && GoodOwner(m, w, l, m.src) && GoodOwner(m, w, l, m.target) && GoodCopy(m, w, l))
  }

  /** Sync steps of the rule between two members, for any object. */
  predicate MeshStep(m: Mesh, s: Step) {
    s.SyncStep? && s.spec == m.spec && s.at in m.clusters && s.from in m.clusters && Allowed(s)
  }

  /** The object at (l, k) did not change, apart from its status. */
  predicate Same(w: World, w': World, l: ClusterId, k: Key) {
    && (w.Has(l, k) <==> w'.Has(l, k))
    && (w.Has(l, k) ==> SameCore(w'.At(l)[k], w.At(l)[k]))
  }

  /** A write of the object at l under m: l had none, or a copy of the peer it read from; it now
      has that peer's offer. */
  predicate Refreshed(m: Mesh, w: World, w': World, s: Step)
    requires s.SyncStep?
  {
    && s.key == m.src && w.HasNative(s.from, m.src)
    && (w.Has(s.at, m.target) ==> Owner(w.At(s.at)[m.target]) == s.from)
    && w'.HasCopy(s.at, m.target) && Owner(w'.At(s.at)[m.target]) == s.from
    && Offered(m, w, s.from).Offer? && SameCore(w'.At(s.at)[m.target], Offered(m, w, s.from).desired)
  }

  /** A foreign copy under the source's own key, which is not the target, is withdrawn. */
  predicate Withdrawn(m: Mesh, w: World, w': World, l: ClusterId, k: Key) {
    k == m.src && m.src != m.target && w.HasCopy(l, k) && !w'.Has(l, k)
  }

  /** Every step either leaves a cluster's version of the object alone or refreshes it. */
  lemma Outcome(m: Mesh, w: World, s: Step, k: Key)
    requires Ready(m, w) && MeshStep(m, s) && k in {m.src, m.target}
    ensures || Same(w, Effect(w, s), s.at, k)
            || (k == m.target && Refreshed(m, w, Effect(w, s), s))
            || Withdrawn(m, w, Effect(w, s), s.at, k)
  {
    assert GoodOwner(m, w, s.at, k) && GoodCopy(m, w, s.at);
    assert GoodNative(m, w, s.from) && GoodOwner(m, w, s.from, m.src) && GoodOffer(m, w, s.from);
    assert WellKeyed(w.At(s.from));
    if Offered(m.(src := s.key), w, s.from).Offer? {
      OfferOutcome(m, w, s, k);
    } else {
      SilentOutcome(m, w, s, k);
    }
  }

  /** A peer that offers nothing changes nothing at the target: withdrawing is up to the owner,
      which holds on. */
  lemma SilentOutcome(m: Mesh, w: World, s: Step, k: Key)
    requires GoodRule(m) && MeshStep(m, s) && k in {m.src, m.target} && w.Alive(s.at) == m.clusters - {s.at}
    requires GoodOwner(m, w, s.at, k) && GoodNative(m, w, s.from) && GoodCopy(m, w, s.at)
    requires !Offered(m.(src := s.key), w, s.from).Offer?
    ensures Same(w, Effect(w, s), s.at, k) || Withdrawn(m, w, Effect(w, s), s.at, k)
  {
    PullEffect(Config(s.spec, s.from, s.at), w.At(s.at), w.At(s.from), s.key, ViewOf(w, s), k);
  }

  /** Whether the stepping cluster may write d to k. */
  predicate Accepted(w: World, s: Step, d: Object, k: Key)
    requires s.SyncStep?
  {
    var c := Config(s.spec, s.from, s.at);
    if w.Has(s.at, k) then MayUpdate(c, w.At(s.at)[k], w.Alive(s.at)) else MayCreate(c, d, w.Alive(s.at))
  }

  /** An offer is accepted only from the cluster that natively holds the object. */
  lemma OnlyOwnersAccepted(m: Mesh, w: World, s: Step, d: Object)
    requires GoodRule(m) && MeshStep(m, s) && s.key == m.src && w.Alive(s.at) == m.clusters - {s.at}
    requires GoodOwner(m, w, s.at, m.target) && GoodOwner(m, w, s.from, m.src) && GoodCopy(m, w, s.at)
    requires w.Has(s.from, m.src)
    requires Owner(d) == if Native(w.At(s.from)[m.src]) then s.from else Owner(w.At(s.from)[m.src])
    requires Accepted(w, s, d, m.target)
    ensures w.HasNative(s.from, m.src) && Owner(d) == s.from
    ensures w.Has(s.at, m.target) ==> Owner(w.At(s.at)[m.target]) == s.from
  {
  }

  /** An offer leaves the object at k alone or, where accepted, is installed there. */
  lemma OfferInstalled(m: Mesh, w: World, s: Step, k: Key)
    requires MeshStep(m, s) && Offered(m.(src := s.key), w, s.from).Offer?
    ensures var d := Offered(m.(src := s.key), w, s.from).desired;
            || Same(w, Effect(w, s), s.at, k)
            || (k == KeyOf(d) && Accepted(w, s, d, k)
                && Effect(w, s).Has(s.at, k) && SameCore(Effect(w, s).At(s.at)[k], d))
  {
    PullEffect(Config(s.spec, s.from, s.at), w.At(s.at), w.At(s.from), s.key, ViewOf(w, s), k);
  }

  /** Only the object's own request offers something for its keys. */
  lemma OfferedKey(m: Mesh, w: World, s: Step, k: Key)
    requires GoodRule(m) && MeshStep(m, s) && k in {m.src, m.target} && WellKeyed(w.At(s.from))
    requires Offered(m.(src := s.key), w, s.from).Offer?
    requires k == KeyOf(Offered(m.(src := s.key), w, s.from).desired) && GoodOffer(m, w, s.from)
    ensures s.key == m.src && k == m.target && w.Has(s.from, m.src)
    ensures var d := Offered(m, w, s.from).desired;
            && !Native(d)
            && Owner(d) == if Native(w.At(s.from)[m.src]) then s.from else Owner(w.At(s.from)[m.src])
  {
    OfferFacts(Config(s.spec, s.from, s.at), w.At(s.from), s.key);
  }

  lemma OfferOutcome(m: Mesh, w: World, s: Step, k: Key)
    requires GoodRule(m) && MeshStep(m, s) && k in {m.src, m.target} && w.Alive(s.at) == m.clusters - {s.at}
    requires WellKeyed(w.At(s.from))
    requires GoodOwner(m, w, s.at, k) && GoodOwner(m, w, s.from, m.src) && GoodCopy(m, w, s.at)
    requires Offered(m.(src := s.key), w, s.from).Offer? && GoodOffer(m, w, s.from)
    ensures Same(w, Effect(w, s), s.at, k) || (k == m.target && Refreshed(m, w, Effect(w, s), s))
  {
    OfferInstalled(m, w, s, k);
    if !Same(w, Effect(w, s), s.at, k) {
      OfferedKey(m, w, s, k);
      OnlyOwnersAccepted(m, w, s, Offered(m, w, s.from).desired);
    }
  }

  lemma OfferStable(m: Mesh, w: World, w': World, c: ClusterId)
    requires Same(w, w', c, m.src) && w.Has(c, m.src)
    ensures Offered(m, w, c).Offer? <==> Offered(m, w', c).Offer?
    ensures Offered(m, w, c).Offer? ==> SameCore(Offered(m, w', c).desired, Offered(m, w, c).desired)
  {
    ReadIgnoresStatus(m.spec, c, w'.At(c), w.At(c), m.src);
  }

  /** All that is used about a step: other clusters are untouched, natives are kept, and the
      stepping cluster's version is kept or refreshed. */
  ghost predicate Moved(m: Mesh, w: World, w': World, s: Step)
    requires s.SyncStep?
  {
    && w'.alive == w.alive && w'.namespaces == w.namespaces && WellFormed(w')
    && (forall l, k | l in m.clusters && l != s.at && k in {m.src, m.target} :: Same(w, w', l, k))
    && (forall c | c in m.clusters :: w.HasNative(c, m.src) <==> w'.HasNative(c, m.src))
    && (forall c | c in m.clusters && w.HasNative(c, m.src) :: Same(w, w', c, m.src))
    && (Same(w, w', s.at, m.src) || m.src == m.target || !w'.Has(s.at, m.src))
    && (Same(w, w', s.at, m.target) || Refreshed(m, w, w', s))
  }

  lemma MeshMoves(m: Mesh, w: World, s: Step)
    requires Ready(m, w) && MeshStep(m, s)
    ensures Moved(m, w, Effect(w, s), s)
  {
    OthersUnmoved(m, w, s);
    SteppingMoved(m, w, s);
    NativesMoved(m, w, s);
  }

  lemma EffectWellFormed(w: World, s: Step)
    requires WellFormed(w) && Allowed(s)
    ensures WellFormed(Effect(w, s))
  {
    RunWellFormed([w, Effect(w, s)], [s], 1);
  }

  lemma OthersUnmoved(m: Mesh, w: World, s: Step)
    requires WellFormed(w) && MeshStep(m, s)
    ensures Effect(w, s).alive == w.alive && Effect(w, s).namespaces == w.namespaces && WellFormed(Effect(w, s))
    ensures forall l, k | l in m.clusters && l != s.at && k in {m.src, m.target} :: Same(w, Effect(w, s), l, k)
  {
    EffectWellFormed(w, s);
    assert forall l | l != s.at :: Effect(w, s).At(l) == w.At(l);
  }

  lemma SteppingMoved(m: Mesh, w: World, s: Step)
    requires Ready(m, w) && MeshStep(m, s)
    ensures Same(w, Effect(w, s), s.at, m.src) || m.src == m.target || !Effect(w, s).Has(s.at, m.src)
    ensures Same(w, Effect(w, s), s.at, m.target) || Refreshed(m, w, Effect(w, s), s)
  {
    Outcome(m, w, s, m.src);
    Outcome(m, w, s, m.target);
  }

  lemma NativesMoved(m: Mesh, w: World, s: Step)
    requires WellFormed(w) && MeshStep(m, s)
    ensures forall c | c in m.clusters :: w.HasNative(c, m.src) <==> Effect(w, s).HasNative(c, m.src)
    ensures forall c | c in m.clusters && w.HasNative(c, m.src) :: Same(w, Effect(w, s), c, m.src)
  {
    forall l | l in m.clusters
      ensures w.HasNative(l, m.src) <==> Effect(w, s).HasNative(l, m.src)
      ensures w.HasNative(l, m.src) ==> Same(w, Effect(w, s), l, m.src)
    {
      Safety.NativeStep(w, s, l, m.src);
    }
  }

  lemma OffersStable(m: Mesh, w: World, w': World, s: Step, c: ClusterId)
    requires Ready(m, w) && MeshStep(m, s) && Moved(m, w, w', s) && c in m.clusters && w.HasNative(c, m.src)
    ensures Offered(m, w', c).Offer? && Offered(m, w, c).Offer?
    ensures SameCore(Offered(m, w', c).desired, Offered(m, w, c).desired)
    ensures GoodNative(m, w', c)
  {
    assert GoodNative(m, w, c);
    OfferStable(m, w, w', c);
  }

  lemma StillGood(m: Mesh, w: World, w': World, s: Step, l: ClusterId)
    requires MeshStep(m, s) && Moved(m, w, w', s) && l in m.clusters
    requires GoodOwner(m, w, l, m.src) && GoodOwner(m, w, l, m.target) && GoodCopy(m, w, l) && GoodNative(m, w, s.from)
    ensures GoodOwner(m, w', l, m.src) && GoodOwner(m, w', l, m.target) && GoodCopy(m, w', l)
  {
    assert l != s.at ==> Same(w, w', l, m.src) && Same(w, w', l, m.target);
  }

  lemma StillGoodOffer(m: Mesh, w: World, w': World, s: Step, l: ClusterId)
    requires MeshStep(m, s) && Moved(m, w, w', s) && l in m.clusters && GoodOffer(m, w, l)
    ensures GoodOffer(m, w', l)
  {
    assert l != s.at ==> Same(w, w', l, m.src);
    if m.src != m.target && w'.Has(l, m.src) {
      OfferStable(m, w, w', l);
    }
  }

  lemma ReadyStep(m: Mesh, w: World, w': World, s: Step)
    requires Ready(m, w) && MeshStep(m, s) && Moved(m, w, w', s)
    ensures Ready(m, w')
  {
    forall l | l in m.clusters
      ensures GoodNative(m, w', l)
    {
      if w.HasNative(l, m.src) {
        OffersStable(m, w, w', s, l);
      }
    }
    forall l | l in m.clusters
      ensures GoodOwner(m, w', l, m.src) && GoodOwner(m, w', l, m.target) && GoodCopy(m, w', l)
      ensures GoodOffer(m, w', l)
    {
      StillGood(m, w, w', s, l);
      StillGoodOffer(m, w, w', s, l);
    }
    assert forall l | l in m.clusters :: w'.Alive(l) == w.Alive(l) && w'.Namespaces(l) == w.Namespaces(l);
  }

  /******* The measure *******/

  predicate Stale(m: Mesh, w: World, l: ClusterId) {
    && w.HasCopy(l, m.target)
    && var i := Offered(m, w, Owner(w.At(l)[m.target]));
       !(i.Offer? && SameCore(w.At(l)[m.target], i.desired))
  }

  /** Clusters that miss the object or hold an outdated copy of it. */
  function Todo(m: Mesh, w: World): set<ClusterId> {
    set l | l in m.clusters && (!w.Has(l, m.target) || Stale(m, w, l))
  }

  /** Every effective step takes the written cluster off the list, and no step adds one. */
  lemma TodoStep(m: Mesh, w: World, w': World, s: Step)
    requires Ready(m, w) && MeshStep(m, s) && Moved(m, w, w', s)
    ensures Todo(m, w') <= Todo(m, w)
    ensures forall l | l in Todo(m, w') :: Same(w, w', l, m.target)
    ensures !Same(w, w', s.at, m.target) ==> s.at in Todo(m, w) && s.at !in Todo(m, w')
  {
    forall l | l in Todo(m, w')
      ensures l in Todo(m, w) && Same(w, w', l, m.target)
    {
      StillTodo(m, w, w', s, l);
    }
    if !Same(w, w', s.at, m.target) {
      OffersStable(m, w, w', s, s.from);
    }
  }

  lemma StillTodo(m: Mesh, w: World, w': World, s: Step, l: ClusterId)
    requires Ready(m, w) && MeshStep(m, s) && Moved(m, w, w', s) && l in Todo(m, w')
    ensures l in Todo(m, w) && Same(w, w', l, m.target)
  {
    assert GoodOwner(m, w, l, m.target) && GoodCopy(m, w, l);
    assert l != s.at ==> Same(w, w', l, m.target);
    if !Same(w, w', l, m.target) {
      OffersStable(m, w, w', s, s.from);
    } else if w.HasCopy(l, m.target) {
      OffersStable(m, w, w', s, Owner(w.At(l)[m.target]));
    }
  }

  /** Reading from a cluster that natively holds the object settles a reader that has none or
      holds that cluster's copy. */
  lemma Progress(m: Mesh, w: World, s: Step)
    requires Ready(m, w) && MeshStep(m, s) && s.key == m.src && !s.limited && w.HasNative(s.from, m.src)
    requires w.Has(s.at, m.target) ==> Owner(w.At(s.at)[m.target]) == s.from
    ensures s.at !in Todo(m, Effect(w, s))
  {
    var c, w' := Config(s.spec, s.from, s.at), Effect(w, s);
    assert GoodNative(m, w, s.from) && GoodCopy(m, w, s.at);
    assert WellKeyed(w.At(s.from));
    OfferFacts(c, w.At(s.from), s.key);
    var d := Offered(m, w, s.from).desired;
    SettleAccepts(c, w.At(s.at), d, Offered(m, w, s.from).syncStatus, View(w.Alive(s.at), w.Namespaces(s.at), false));
    assert w'.Has(s.at, m.target) && SameCore(w'.At(s.at)[m.target], d);
    MeshMoves(m, w, s);
    OffersStable(m, w, w', s, s.from);
  }

  lemma SettleAccepts(c: Config, store: Store, d: Object, syncStatus: bool, v: View)
    requires !Blocked(d, v)
    requires if KeyOf(d) in store then MayUpdate(c, store[KeyOf(d)], v.alive) else MayCreate(c, d, v.alive)
    ensures KeyOf(d) in Settle(c, store, d, syncStatus, v) && SameCore(Settle(c, store, d, syncStatus, v)[KeyOf(d)], d)
  {
  }

  /******* Whole runs *******/

  ghost predicate MeshRun(m: Mesh, ws: seq<World>, steps: seq<Step>) {
    && Run(ws, steps) && Ready(m, ws[0])
    && (forall s | s in steps :: MeshStep(m, s))
  }

  lemma {:induction false} RunReady(m: Mesh, ws: seq<World>, steps: seq<Step>, i: nat)
    requires MeshRun(m, ws, steps) && i < |ws|
    ensures Ready(m, ws[i])
    ensures i < |steps| ==> MeshStep(m, steps[i]) && Moved(m, ws[i], ws[i + 1], steps[i])
  {
    if i > 0 {
      RunReady(m, ws, steps, i - 1);
      ReadyStep(m, ws[i - 1], ws[i], steps[i - 1]);
    }
    if i < |steps| {
      assert steps[i] in steps;
      MeshMoves(m, ws[i], steps[i]);
    }
  }

  /** The list is shorter in w', and a cluster still on it was not written since w. */
  ghost predicate Shorter(m: Mesh, w: World, w': World) {
    Todo(m, w') <= Todo(m, w) && forall l | l in Todo(m, w') :: Same(w, w', l, m.target)
  }

  lemma ShorterOn(m: Mesh, w: World, x: World, y: World)
    requires Shorter(m, w, x) && Shorter(m, x, y)
    ensures Shorter(m, w, y)
  {
  }

  /** The list of unsettled clusters only shrinks, and a cluster on it at the end was never written. */
  lemma TodoShrinks(m: Mesh, ws: seq<World>, steps: seq<Step>, i: nat, j: nat)
    requires MeshRun(m, ws, steps) && i <= j < |ws|
    ensures Todo(m, ws[j]) <= Todo(m, ws[i])
    ensures forall l | l in Todo(m, ws[j]) :: Same(ws[i], ws[j], l, m.target)
  {
    forall n | i <= n < j && Shorter(m, ws[i], ws[n])
      ensures Shorter(m, ws[i], ws[n + 1])
    {
      ShorterStep(m, ws, steps, n);
      ShorterOn(m, ws[i], ws[n], ws[n + 1]);
    }
    Invariant(w => Shorter(m, ws[i], w), ws, i, j);
  }

  lemma ShorterStep(m: Mesh, ws: seq<World>, steps: seq<Step>, n: nat)
    requires MeshRun(m, ws, steps) && n < |steps|
    ensures Shorter(m, ws[n], ws[n + 1])
  {
    RunReady(m, ws, steps, n);
    TodoStep(m, ws[n], ws[n + 1], steps[n]);
  }

  function Sum(xs: seq<nat>): nat {
    if xs == [] then 0 else Sum(xs[..|xs| - 1]) + xs[|xs| - 1]
  }

  lemma {:induction false} Telescope(sizes: seq<nat>, costs: seq<nat>)
    requires |sizes| == |costs| + 1 && forall i | 0 <= i < |costs| :: sizes[i + 1] + costs[i] <= sizes[i]
    ensures Sum(costs) + sizes[|costs|] <= sizes[0]
  {
    if costs != [] {
      Telescope(sizes[..|costs|], costs[..|costs| - 1]);
    }
  }

  /** One for each step that changed its cluster's version of the object. */
  ghost function Writes(m: Mesh, ws: seq<World>, steps: seq<Step>): seq<nat>
    requires |ws| == |steps| + 1
  {
    seq(|steps|, i requires 0 <= i < |steps| => if Same(ws[i], ws[i + 1], steps[i].at, m.target) then 0 else 1)
  }

  lemma WriteCost(m: Mesh, w: World, w': World, s: Step)
    requires Ready(m, w) && MeshStep(m, s) && Moved(m, w, w', s)
    ensures |Todo(m, w')| + (if Same(w, w', s.at, m.target) then 0 else 1) <= |Todo(m, w)|
  {
    TodoStep(m, w, w', s);
    if Same(w, w', s.at, m.target) {
      SubsetSize(Todo(m, w'), Todo(m, w));
    } else {
      SubsetSize(Todo(m, w'), Todo(m, w) - {s.at});
    }
  }

  lemma RunWriteCost(m: Mesh, ws: seq<World>, steps: seq<Step>, i: nat)
    requires MeshRun(m, ws, steps) && i < |steps|
    ensures |Todo(m, ws[i + 1])| + (if Same(ws[i], ws[i + 1], steps[i].at, m.target) then 0 else 1) <= |Todo(m, ws[i])|
  {
    RunReady(m, ws, steps, i);
    WriteCost(m, ws[i], ws[i + 1], steps[i]);
  }

  /** Bounded work: however the steps are scheduled, each unsettled cluster is written at most once
      and settled clusters never. */
  lemma WriteBound(m: Mesh, ws: seq<World>, steps: seq<Step>)
    requires MeshRun(m, ws, steps)
    ensures Sum(Writes(m, ws, steps)) + |Todo(m, ws[|steps|])| <= |Todo(m, ws[0])|
  {
    var sizes := seq(|ws|, i requires 0 <= i < |ws| => |Todo(m, ws[i])|);
    forall i | 0 <= i < |steps|
      ensures sizes[i + 1] + Writes(m, ws, steps)[i] <= sizes[i]
    {
      RunWriteCost(m, ws, steps, i);
    }
    Telescope(sizes, Writes(m, ws, steps));
  }

  /** Every cluster that some other cluster can supply holds the object, and every copy is its
      owner's object as the rule mutates it. */
  ghost predicate Converged(m: Mesh, w: World) {
    forall l | l in m.clusters ::
      && ((exists c | c in m.clusters && c != l :: w.HasNative(c, m.src)) ==> w.Has(l, m.target))
      && !Stale(m, w, l)
  }

  /** If no read of the object changes anything, the mesh has converged. */
  lemma QuiescentConverged(m: Mesh, w: World)
    requires Ready(m, w)
    requires forall l, c | l in m.clusters && c in m.clusters && l != c ::
               Same(w, Effect(w, SyncStep(l, c, m.spec, m.src, false)), l, m.target)
    ensures Converged(m, w)
  {
    forall l, c | l in m.clusters && c in m.clusters && l != c && w.HasNative(c, m.src)
      ensures w.Has(l, m.target)
      ensures Owner(w.At(l)[m.target]) == c ==> !Stale(m, w, l)
    {
      if !w.Has(l, m.target) || Owner(w.At(l)[m.target]) == c {
        Settles(m, w, l, c);
      }
    }
    forall l | l in m.clusters
      ensures !Stale(m, w, l)
    {
      assert GoodOwner(m, w, l, m.target) && GoodCopy(m, w, l);
    }
  }

  lemma Settles(m: Mesh, w: World, l: ClusterId, c: ClusterId)
    requires Ready(m, w) && l in m.clusters && c in m.clusters && l != c && w.HasNative(c, m.src)
    requires w.Has(l, m.target) ==> Owner(w.At(l)[m.target]) == c
    requires Same(w, Effect(w, SyncStep(l, c, m.spec, m.src, false)), l, m.target)
    ensures l !in Todo(m, w)
  {
    var s := SyncStep(l, c, m.spec, m.src, false);
    var w' := Effect(w, s);
    Progress(m, w, s);
    MeshMoves(m, w, s);
    OffersStable(m, w, w', s, c);
  }

  /** A converged mesh stays as it is. */
  lemma ConvergedIsStable(m: Mesh, w: World, s: Step)
    requires Ready(m, w) && MeshStep(m, s) && Converged(m, w)
    ensures Same(w, Effect(w, s), s.at, m.target)
  {
    MeshMoves(m, w, s);
    TodoStep(m, w, Effect(w, s), s);
  }

  lemma ConvergedStep(m: Mesh, w: World, s: Step)
    requires Ready(m, w) && MeshStep(m, s) && Converged(m, w)
    ensures Ready(m, Effect(w, s)) && Converged(m, Effect(w, s))
  {
    var w' := Effect(w, s);
    MeshMoves(m, w, s);
    ReadyStep(m, w, w', s);
    TodoStep(m, w, w', s);
    forall l | l in m.clusters
      ensures !Stale(m, w', l)
      ensures (exists c | c in m.clusters && c != l :: w'.HasNative(c, m.src)) ==> w'.Has(l, m.target)
    {
      assert !Stale(m, w, l);
      if c :| c in m.clusters && c != l && w'.HasNative(c, m.src) {
        assert w.HasNative(c, m.src);
        assert l !in Todo(m, w);
      }
    }
  }

  /** Every cluster reads the object from every other one at least once. */
  ghost predicate Fair(m: Mesh, steps: seq<Step>) {
    forall l, c | l in m.clusters && c in m.clusters && l != c :: SyncStep(l, c, m.spec, m.src, false) in steps
  }

  /** Once every cluster has read the object from every other one, in any order and however often,
      with any other steps of the rule in between, the mesh has converged. */
  lemma FairRunConverges(m: Mesh, ws: seq<World>, steps: seq<Step>)
    requires MeshRun(m, ws, steps) && Fair(m, steps)
    ensures Ready(m, ws[|steps|]) && Converged(m, ws[|steps|])
  {
    var n := |steps|;
    RunReady(m, ws, steps, n);
    forall l, c | l in m.clusters && c in m.clusters && l != c && ws[n].HasNative(c, m.src)
      ensures ws[n].Has(l, m.target)
      ensures Owner(ws[n].At(l)[m.target]) == c ==> !Stale(m, ws[n], l)
    {
      if !ws[n].Has(l, m.target) || Owner(ws[n].At(l)[m.target]) == c {
        ReadSettles(m, ws, steps, l, c);
      }
    }
    forall l | l in m.clusters
      ensures !Stale(m, ws[n], l)
    {
      assert GoodOwner(m, ws[n], l, m.target) && GoodCopy(m, ws[n], l);
    }
  }

  lemma ReadSettles(m: Mesh, ws: seq<World>, steps: seq<Step>, l: ClusterId, c: ClusterId)
    requires MeshRun(m, ws, steps) && l in m.clusters && c in m.clusters && l != c
    requires SyncStep(l, c, m.spec, m.src, false) in steps && ws[|steps|].HasNative(c, m.src)
    requires ws[|steps|].Has(l, m.target) ==> Owner(ws[|steps|].At(l)[m.target]) == c
    ensures l !in Todo(m, ws[|steps|])
  {
    var n, s := |steps|, SyncStep(l, c, m.spec, m.src, false);
    if l in Todo(m, ws[n]) {
      var i :| 0 <= i < n && steps[i] == s;
      RunReady(m, ws, steps, i);
      assert forall j | i <= j < n :: steps[j] in steps;
      Safety.NativesConserved(ws, steps, c, m.src, i, n);
      TodoShrinks(m, ws, steps, i, n);
      Progress(m, ws[i], s);
      TodoShrinks(m, ws, steps, i + 1, n);
    }
  }

  /******* Disturbances *******/

  /** What users may do to the object without breaking the mesh. */
  datatype Disturbance =
    | DeleteCopy(at: ClusterId)
    | ChangeCopy(at: ClusterId, obj: Object)
    | EditNative(at: ClusterId, obj: Object)

  function Disturbed(m: Mesh, w: World, d: Disturbance): World {
    match d
    case DeleteCopy(at) => Effect(w, UserDelete(at, m.target))
    case ChangeCopy(at, obj) => Effect(w, UserPut(at, obj))
    case EditNative(at, obj) => Effect(w, UserPut(at, obj))
  }

  /** A copy may be changed in any way that keeps its owner and does not exclude it from syncing; a
      native may be edited in any way that keeps it selected by the rule. */
  predicate Bearable(m: Mesh, w: World, d: Disturbance) {
    d.at in m.clusters &&
    match d
    case DeleteCopy(at) => w.HasCopy(at, m.target)
    case ChangeCopy(at, obj) =>
      && w.HasCopy(at, m.target) && KeyOf(obj) == m.target
      && Owner(obj) == Owner(w.At(at)[m.target]) && SyncDisabled !in obj.annotations
    case EditNative(at, obj) =>
      && w.HasNative(at, m.src) && KeyOf(obj) == m.src
      && Native(obj) && GoodNative(m, Effect(w, UserPut(at, obj)), at)
  }

  /** Only l's objects under k differ. */
  ghost predicate Only(w: World, w': World, l: ClusterId, k: Key) {
    && w'.alive == w.alive && w'.namespaces == w.namespaces && WellFormed(w')
    && (forall c | c != l :: w'.At(c) == w.At(c))
    && (forall x | x != k :: w'.Has(l, x) == w.Has(l, x) && (w.Has(l, x) ==> w'.At(l)[x] == w.At(l)[x]))
  }

  lemma NativesUnmoved(m: Mesh, w: World, w': World, l: ClusterId, k: Key, c: ClusterId)
    requires Only(w, w', l, k) && w.Has(l, k) && GoodNative(m, w, c)
    requires w'.Has(l, k) ==> Owner(w'.At(l)[k]) == Owner(w.At(l)[k])
    requires w.HasNative(l, k) ==> k == m.src && w'.Has(l, k) && GoodNative(m, w', l)
    ensures w'.HasNative(c, m.src) <==> w.HasNative(c, m.src)
    ensures GoodNative(m, w', c)
  {
    if c == l && w.HasNative(l, m.src) && k != m.src {
      OfferStable(m, w, w', l);
    }
  }

  lemma OffersUnmoved(m: Mesh, w: World, w': World, l: ClusterId, k: Key, c: ClusterId)
    requires Only(w, w', l, k) && GoodOffer(m, w, c) && GoodNative(m, w', c)
    requires w'.HasCopy(l, k) ==> k == m.target
    ensures GoodOffer(m, w', c)
  {
    if w'.HasCopy(c, m.src) && m.src != m.target {
      OfferStable(m, w, w', c);
    }
  }

  lemma CopiesUnmoved(m: Mesh, w: World, w': World, l: ClusterId, k: Key, c: ClusterId)
    requires Only(w, w', l, k) && w.Has(l, k)
    requires w'.Has(l, k) ==> Owner(w'.At(l)[k]) == Owner(w.At(l)[k])
    requires w'.HasCopy(l, k) ==> SyncDisabled !in w'.At(l)[k].annotations
    requires GoodOwner(m, w, c, m.src) && GoodOwner(m, w, c, m.target) && GoodCopy(m, w, c)
    requires forall o | o in m.clusters :: w'.HasNative(o, m.src) <==> w.HasNative(o, m.src)
    ensures GoodOwner(m, w', c, m.src) && GoodOwner(m, w', c, m.target) && GoodCopy(m, w', c)
  {
  }

  /** A change of one copy or one native that keeps natives natives and copies' owners is harmless. */
  lemma HarmlessChange(m: Mesh, w: World, w': World, l: ClusterId, k: Key)
    requires Ready(m, w) && l in m.clusters && k in {m.src, m.target} && Only(w, w', l, k) && w.Has(l, k)
    requires w'.Has(l, k) ==> Owner(w'.At(l)[k]) == Owner(w.At(l)[k])
    requires w.HasNative(l, k) ==> k == m.src && w'.Has(l, k) && GoodNative(m, w', l)
    requires w'.HasCopy(l, k) ==> SyncDisabled !in w'.At(l)[k].annotations && k == m.target
    ensures Ready(m, w')
  {
    forall c | c in m.clusters
      ensures w'.HasNative(c, m.src) <==> w.HasNative(c, m.src)
      ensures GoodNative(m, w', c)
    {
      NativesUnmoved(m, w, w', l, k, c);
    }
    forall c | c in m.clusters
      ensures GoodOwner(m, w', c, m.src) && GoodOwner(m, w', c, m.target) && GoodCopy(m, w', c)
      ensures GoodOffer(m, w', c)
    {
      CopiesUnmoved(m, w, w', l, k, c);
      OffersUnmoved(m, w, w', l, k, c);
    }
    assert forall c | c in m.clusters :: w'.Alive(c) == w.Alive(c) && w'.Namespaces(c) == w.Namespaces(c);
  }

  lemma PutOnly(w: World, l: ClusterId, o: Object)
    requires WellFormed(w)
    ensures Only(w, Effect(w, UserPut(l, o)), l, KeyOf(o))
  {
    var w' := Effect(w, UserPut(l, o));
    assert WellKeyed(w.At(l)) && WellKeyed(w'.At(l));
  }

  lemma DeleteOnly(w: World, l: ClusterId, k: Key)
    requires WellFormed(w)
    ensures Only(w, Effect(w, UserDelete(l, k)), l, k)
  {
    assert WellKeyed(w.At(l)) && WellKeyed(w.At(l) - {k});
  }

  lemma DisturbedReady(m: Mesh, w: World, d: Disturbance)
    requires Ready(m, w) && Bearable(m, w, d)
    ensures Ready(m, Disturbed(m, w, d))
  {
    match d
    case DeleteCopy(at) =>
      DeleteOnly(w, at, m.target);
      HarmlessChange(m, w, Disturbed(m, w, d), at, m.target);
    case ChangeCopy(at, obj) =>
      PutOnly(w, at, obj);
      HarmlessChange(m, w, Disturbed(m, w, d), at, m.target);
    case EditNative(at, obj) =>
      PutOnly(w, at, obj);
      HarmlessChange(m, w, Disturbed(m, w, d), at, m.src);
  }

  /** A step of the mesh, or something users do to it. */
  datatype Move = Stepping(step: Step) | Disturbing(disturbance: Disturbance)

  predicate Moves(m: Mesh, w: World, v: Move, w': World) {
    match v
    case Stepping(s) => MeshStep(m, s) && w' == Effect(w, s)
    case Disturbing(d) => Bearable(m, w, d) && w' == Disturbed(m, w, d)
  }

  ghost predicate DisturbedRun(m: Mesh, ws: seq<World>, moves: seq<Move>) {
    |ws| == |moves| + 1 && Ready(m, ws[0]) && forall i | 0 <= i < |moves| :: Moves(m, ws[i], moves[i], ws[i + 1])
  }

  lemma MoveReady(m: Mesh, w: World, v: Move, w': World)
    requires Ready(m, w) && Moves(m, w, v, w')
    ensures Ready(m, w')
  {
    match v
    case Stepping(s) =>
      MeshMoves(m, w, s);
      ReadyStep(m, w, w', s);
    case Disturbing(d) =>
      DisturbedReady(m, w, d);
  }

  /** The mesh heals: after any interleaving of steps with edits of natives, tampering with copies and
      deletions of copies, the next fair run brings every copy back to what its owner holds then. */
  lemma MeshHeals(m: Mesh, ws: seq<World>, moves: seq<Move>, ws': seq<World>, steps: seq<Step>)
    requires DisturbedRun(m, ws, moves)
    requires Run(ws', steps) && ws'[0] == ws[|moves|] && Fair(m, steps) && forall s | s in steps :: MeshStep(m, s)
    ensures Ready(m, ws'[|steps|]) && Converged(m, ws'[|steps|])
  {
    forall n | 0 <= n < |moves| && Ready(m, ws[n])
      ensures Ready(m, ws[n + 1])
    {
      MoveReady(m, ws[n], moves[n], ws[n + 1]);
    }
    Invariant(w => Ready(m, w), ws, 0, |moves|);
    FairRunConverges(m, ws', steps);
  }

  /** The clusters see each other alive and hold only natives of the object. */
  ghost predicate Fresh(m: Mesh, w: World) {
    && GoodRule(m) && WellFormed(w)
    && (forall l | l in m.clusters ::
          && w.Alive(l) == m.clusters - {l} && (m.src.namespace == "" || m.src.namespace in w.Namespaces(l))
          && GoodNative(m, w, l) && !w.HasCopy(l, m.src) && !w.HasCopy(l, m.target))
  }

  /** From natives only, whichever clusters hold them: once every cluster has read from every other,
      every cluster that another can supply holds the object, and every copy is its owner's. */
  lemma FreshMeshConverges(m: Mesh, ws: seq<World>, steps: seq<Step>)
    requires Run(ws, steps) && Fresh(m, ws[0]) && Fair(m, steps) && forall s | s in steps :: MeshStep(m, s)
    ensures Ready(m, ws[|steps|]) && Converged(m, ws[|steps|])
  {
    forall l | l in m.clusters
      ensures GoodOffer(m, ws[0], l)
    {
      assert GoodNative(m, ws[0], l) && !ws[0].HasCopy(l, m.src);
    }
    FairRunConverges(m, ws, steps);
  }
}
