/** The cluster group as a transition system: every cluster runs sync controllers that read its
    peers and write its own store; users edit objects and clusters come and go, in any order. */
module Protocol {
  import opened Objects
  import opened Rules
  import opened Sync

  predicate NoOverrides(spec: RuleSpec) {
    forall r | r in spec.rules :: r.mutations.overrides == []
  }

  /** The rules neither add nor remove the ownership annotation. */
  predicate OwnershipNeutral(spec: RuleSpec) {
    forall r | r in spec.rules ::
      Ownership !in r.mutations.annotations.add && Ownership !in r.mutations.annotations.remove
  }

  /******* One reconcile of a rule without overrides *******/

  /** What the controller makes of the peer's object. */
  datatype Intent = Gone | Ignore | Offer(desired: Object, syncStatus: bool)

  function Read(spec: RuleSpec, peer: ClusterId, remote: Store, key: Key): Intent {
    if key !in remote || remote[key].deleting then Gone else
      match MatchedRules(spec, remote[key])
      case None => Ignore
      case Some(rules) =>
        if rules == [] then Ignore else Offer(Mutated(remote[key], rules, peer), SyncStatus(rules))
  }

  function Pull(c: Config, local: Store, remote: Store, key: Key, v: View): Store {
    match Read(c.spec, c.peer, remote, key)
    case Gone => Withdraw(c, local, LocalKey(c.spec, key), v.alive)
    case Ignore => local
    case Offer(d, syncStatus) => Settle(c, local, d, syncStatus, v)
  }

  lemma {:induction false} OverridesOf(rules: seq<SyncRule>)
    requires forall r | r in rules :: r.mutations.overrides == []
    ensures Overrides(rules) == []
  {
    if rules != [] {
      OverridesOf(rules[..|rules| - 1]);
    }
  }

  /** For a rule without overrides the controller never renames, and its reconcile is Pull. */
  lemma OverrideFreeReconcile(c: Config, local: Store, remote: Store, key: Key, v: View, patcher: Patcher)
    requires NoOverrides(c.spec)
    ensures Reconciled(c, LocalState(local, false, false), remote, key, v, patcher)
         == LocalState(Pull(c, local, remote, key, v), false, false)
  {
    if key in remote && !remote[key].deleting {
      var rules := MatchedRules(c.spec, remote[key]);
      if rules.Some? && rules.value != [] {
        OverridesOf(rules.value);
        assert Desired(c, remote[key], rules.value, patcher) == Some(Mutated(remote[key], rules.value, c.peer));
      }
    }
  }

  /******* What an offer carries *******/

  lemma {:induction false} MatchesIgnoreStatus(ms: seq<SyncRuleMatch>, o: Object, status: string)
    ensures FirstMatch(ms, o.(status := status)) == FirstMatch(ms, o)
  {
    if ms != [] {
      MatchesIgnoreStatus(ms[1..], o, status);
    }
  }

  lemma {:induction false} SelectedIgnoresStatus(rules: seq<SyncRule>, o: Object, status: string)
    ensures Selected(rules, o.(status := status)) == Selected(rules, o)
    ensures forall r | r in rules :: RuleVerdict(r, o.(status := status)) == RuleVerdict(r, o)
  {
    if rules != [] {
      var last := rules[|rules| - 1];
      SelectedIgnoresStatus(rules[..|rules| - 1], o, status);
      MatchesIgnoreStatus(last.matches, o, status);
      assert forall r | r in rules :: r in rules[..|rules| - 1] || r == last;
    }
  }

  /** What is read from a peer depends on the status of its object only in the status. */
  lemma ReadIgnoresStatus(spec: RuleSpec, peer: ClusterId, a: Store, b: Store, key: Key)
    requires key in a && key in b && SameCore(a[key], b[key])
    ensures var i, j := Read(spec, peer, a, key), Read(spec, peer, b, key);
            && (i.Offer? <==> j.Offer?)
            && (i.Offer? ==> SameCore(i.desired, j.desired) && i.syncStatus == j.syncStatus)
  {
    SelectedIgnoresStatus(spec.rules, b[key], a[key].status);
    assert a[key] == b[key].(status := a[key].status);
    assert MatchedRules(spec, a[key]) == MatchedRules(spec, b[key]);
  }

  lemma MutatedIsCopy(o: Object, rules: seq<SyncRule>, peer: ClusterId)
    requires peer != ""
    ensures Owner(Mutated(o, rules, peer)) != ""
  {
  }

  lemma MutatedOwner(o: Object, rules: seq<SyncRule>, peer: ClusterId)
    requires forall r | r in rules ::
               Ownership !in r.mutations.annotations.add && Ownership !in r.mutations.annotations.remove
    ensures Owner(Mutated(o, rules, peer)) == if Native(o) then peer else Owner(o)
  {
    UntouchedKey(AnnotationMutations(rules), o.annotations, Ownership);
  }

  /** An offer always has an owner, and carries the source's name, namespace and content, but not
      the finalizers and owner references that mean something only where they come from. */
  lemma OfferFacts(c: Config, remote: Store, key: Key)
    requires c.peer != "" && WellKeyed(remote) && Read(c.spec, c.peer, remote, key).Offer?
    ensures var d := Read(c.spec, c.peer, remote, key).desired;
            && key in remote && !remote[key].deleting && remote[key].gvk == c.spec.gvk
            && !Native(d) && !d.deleting
            && d.namespace == key.namespace && d.name == key.name
            && d.body == remote[key].body && d.finalizers == [] && d.ownerReferences == []
            && (OwnershipNeutral(c.spec) ==> Owner(d) == if Native(remote[key]) then c.peer else Owner(remote[key]))
  {
    var rules := MatchedRules(c.spec, remote[key]).value;
    MutatedIsCopy(remote[key], rules, c.peer);
    if OwnershipNeutral(c.spec) {
      MutatedOwner(remote[key], rules, c.peer);
    }
  }

  /** The rules are some of the spec's. */
  predicate FromSpec(rules: seq<SyncRule>, spec: RuleSpec) {
    forall r | r in rules :: r in spec.rules
  }

  /** The key at which an object of the spec's kind is written when these rules match it. */
  function Written(spec: RuleSpec, rules: seq<SyncRule>, key: Key): Key {
    key.(gvk := MutateGvk(rules, spec.gvk))
  }

  lemma OfferWritten(spec: RuleSpec, peer: ClusterId, remote: Store, key: Key)
    requires Read(spec, peer, remote, key).Offer? && KeyOf(remote[key]) == key
    ensures var rules := MatchedRules(spec, remote[key]).value;
            && rules != [] && FromSpec(rules, spec) && key.gvk == spec.gvk
            && KeyOf(Read(spec, peer, remote, key).desired) == Written(spec, rules, key)
  {
  }

  /** The delete path looks where a copy was written, whenever every rule that changes the kind
      matched its source. */
  lemma WithdrawnWhereWritten(spec: RuleSpec, peer: ClusterId, remote: Store, key: Key)
    requires Read(spec, peer, remote, key).Offer? && KeyOf(remote[key]) == key
    requires forall r | r in spec.rules && r.mutations.gvk != NO_GVK :: RuleVerdict(r, remote[key]) == Matched
    ensures KeyOf(Read(spec, peer, remote, key).desired) == LocalKey(spec, key)
  {
    OfferWritten(spec, peer, remote, key);
    DeleteTargetsWrittenKind(spec.rules, remote[key], spec.gvk);
  }

  /******* The effect of one reconcile on one key *******/

  /** A reconcile that offers d leaves every other key alone; at d's key it keeps what is there
      (up to status) or, where permitted, installs d. It never removes anything. */
  lemma SettleEffect(c: Config, store: Store, d: Object, syncStatus: bool, v: View, k: Key)
    ensures var s := Settle(c, store, d, syncStatus, v);
            && (k in store ==> k in s)
            && (k != KeyOf(d) && k in s ==> k in store && s[k] == store[k])
            && (k == KeyOf(d) && k in s ==>
                  if k in store then
                    SameCore(s[k], store[k]) || (SameCore(s[k], d) && MayUpdate(c, store[k], v.alive))
                  else
                    SameCore(s[k], d) && MayCreate(c, d, v.alive))
  {
  }

  /** Each key of the new store holds what it held (up to status) or the accepted offer; a key
      disappears only by a permitted withdrawal. */
  lemma PullEffect(c: Config, local: Store, remote: Store, key: Key, v: View, k: Key)
    ensures var s, i := Pull(c, local, remote, key, v), Read(c.spec, c.peer, remote, key);
            && (k in s ==>
                  || (k in local && SameCore(s[k], local[k]))
                  || (i.Offer? && k == KeyOf(i.desired) && SameCore(s[k], i.desired)
                      && if k in local then MayUpdate(c, local[k], v.alive) else MayCreate(c, i.desired, v.alive)))
            && (k in local && k !in s ==>
                  i.Gone? && k == LocalKey(c.spec, key) && MayDelete(c, local[k], v.alive))
  {
    var i := Read(c.spec, c.peer, remote, key);
    if i.Offer? {
      SettleEffect(c, local, i.desired, i.syncStatus, v, k);
    }
  }

  /** A copy whose owner is alive and is not the peer being read is beyond this controller. */
  lemma PeerCannotTouch(c: Config, local: Store, remote: Store, key: Key, v: View, k: Key)
    requires k in local && Owner(local[k]) in v.alive && Owner(local[k]) != c.peer
    ensures k in Pull(c, local, remote, key, v) && SameCore(Pull(c, local, remote, key, v)[k], local[k])
  {
    PullEffect(c, local, remote, key, v, k);
  }

  /******* The group *******/

  datatype World = World(
    stores: map<ClusterId, Store>,
    alive: map<ClusterId, set<ClusterId>>,
    namespaces: map<ClusterId, set<string>>)
  {
    function At(c: ClusterId): Store {
      if c in stores then stores[c] else map[]
    }

    function Alive(c: ClusterId): set<ClusterId> {
      if c in alive then alive[c] else {}
    }

    function Namespaces(c: ClusterId): set<string> {
      if c in namespaces then namespaces[c] else {}
    }

    predicate Has(c: ClusterId, k: Key) {
      k in At(c)
    }

    predicate HasNative(c: ClusterId, k: Key) {
      Has(c, k) && Native(At(c)[k])
    }

    predicate HasCopy(c: ClusterId, k: Key) {
      Has(c, k) && !Native(At(c)[k])
    }
  }

  datatype Step =
    | UserPut(at: ClusterId, obj: Object)
    | UserDelete(at: ClusterId, key: Key)
    | SetAlive(at: ClusterId, alive: set<ClusterId>)
    | SetNamespaces(at: ClusterId, namespaces: set<string>)
    | SyncStep(at: ClusterId, from: ClusterId, spec: RuleSpec, key: Key, limited: bool)

  /** Users write only objects without an owner (marking one as terminating included), and may
      delete anything. A cluster never manages itself as a peer. Any request may come at any time. */
  predicate Allowed(step: Step) {
    match step
    case UserPut(_, obj) => Native(obj)
    case UserDelete(_, _) => true
    case SetAlive(at, alive) => at !in alive
    case SetNamespaces(_, _) => true
    case SyncStep(at, from, spec, key, _) =>
      at != "" && from != "" && at != from && NoOverrides(spec) && key.gvk == spec.gvk
  }

  function Effect(w: World, step: Step): World {
    match step
    case UserPut(at, obj) => w.(stores := w.stores[at := w.At(at)[KeyOf(obj) := obj]])
    case UserDelete(at, key) => w.(stores := w.stores[at := w.At(at) - {key}])
    case SetAlive(at, alive) => w.(alive := w.alive[at := alive])
    case SetNamespaces(at, namespaces) => w.(namespaces := w.namespaces[at := namespaces])
    case SyncStep(at, from, spec, key, limited) => w.(stores := w.stores[at := Pulled(w, step)])
  }

  /** What the stepping cluster observes. */
  function ViewOf(w: World, step: Step): View
    requires step.SyncStep?
  {
    View(w.Alive(step.at), w.Namespaces(step.at), step.limited)
  }

  function Pulled(w: World, step: Step): Store
    requires step.SyncStep?
  {
    Pull(Config(step.spec, step.from, step.at), w.At(step.at), w.At(step.from), step.key, ViewOf(w, step))
  }

  /** ws is the sequence of worlds that the allowed steps lead through. */
  ghost predicate Run(ws: seq<World>, steps: seq<Step>) {
    && |ws| == |steps| + 1
    && (forall i | 0 <= i < |steps| :: Allowed(steps[i]) && ws[i + 1] == Effect(ws[i], steps[i]))
  }

  /** Some run leads from w to w'. */
  ghost predicate Reaches(w: World, w': World) {
    exists ws, steps :: Run(ws, steps) && ws[0] == w && ws[|steps|] == w'
  }

  lemma StepReaches(w: World, s: Step)
    requires Allowed(s)
    ensures Reaches(w, Effect(w, s))
  {
    assert Run([w, Effect(w, s)], [s]);
  }

  lemma ReachesOn(w: World, x: World, y: World)
    requires Reaches(w, x) && Reaches(x, y)
    ensures Reaches(w, y)
  {
    var ws, steps :| Run(ws, steps) && ws[0] == w && ws[|steps|] == x;
    var ws', steps' :| Run(ws', steps') && ws'[0] == x && ws'[|steps'|] == y;
    RunsJoined(ws, steps, ws', steps');
  }

  lemma RunsJoined(ws: seq<World>, steps: seq<Step>, ws': seq<World>, steps': seq<Step>)
    requires Run(ws, steps) && Run(ws', steps') && ws[|steps|] == ws'[0]
    ensures Run(ws + ws'[1..], steps + steps')
    ensures (ws + ws'[1..])[0] == ws[0] && (ws + ws'[1..])[|steps + steps'|] == ws'[|steps'|]
  {
    var all, moves := ws + ws'[1..], steps + steps';
    forall i | 0 <= i < |moves|
      ensures Allowed(moves[i]) && all[i + 1] == Effect(all[i], moves[i])
    {
      if i >= |steps| {
        assert all[i] == ws'[i - |steps|] && all[i + 1] == ws'[i + 1 - |steps|];
      }
    }
  }

  /** What every step keeps holds throughout. */
  lemma {:induction false} Invariant(inv: World -> bool, ws: seq<World>, i: nat, j: nat)
    requires i <= j < |ws| && inv(ws[i]) && forall n | i <= n < j && inv(ws[n]) :: inv(ws[n + 1])
    ensures inv(ws[j])
  {
    if i < j {
      Invariant(inv, ws, i, j - 1);
    }
  }

  /** The worlds that steps lead through from w. */
  function Trace(w: World, steps: seq<Step>): (ws: seq<World>)
    ensures |ws| == |steps| + 1 && ws[0] == w
    ensures forall i | 0 <= i < |steps| :: ws[i + 1] == Effect(ws[i], steps[i])
  {
    if steps == [] then [w] else
      var ws := Trace(w, steps[..|steps| - 1]);
      ws + [Effect(ws[|steps| - 1], steps[|steps| - 1])]
  }

  predicate WellFormed(w: World) {
    forall c | c in w.stores :: WellKeyed(w.stores[c])
  }

  lemma PullWellKeyed(c: Config, local: Store, remote: Store, key: Key, v: View)
    requires WellKeyed(local)
    ensures WellKeyed(Pull(c, local, remote, key, v))
  {
    var s := Pull(c, local, remote, key, v);
    forall k | k in s
      ensures KeyOf(s[k]) == k
    {
      PullEffect(c, local, remote, key, v, k);
    }
  }

  lemma {:induction false} RunWellFormed(ws: seq<World>, steps: seq<Step>, i: nat)
    requires Run(ws, steps) && WellFormed(ws[0]) && i < |ws|
    ensures WellFormed(ws[i])
  {
    if i > 0 {
      RunWellFormed(ws, steps, i - 1);
      var w, s := ws[i - 1], steps[i - 1];
      assert WellKeyed(w.At(s.at));
      if s.SyncStep? {
        PullWellKeyed(Config(s.spec, s.from, s.at), w.At(s.at), w.At(s.from), s.key, ViewOf(w, s));
      }
      assert WellKeyed(ws[i].At(s.at));
    }
  }

  /** How a step can give (l, k) its content: nothing changed there but status, a user wrote a
      native, or l's controller for a peer accepted what it read from that peer. */
  lemma StepOrigin(w: World, s: Step, l: ClusterId, k: Key)
    requires Allowed(s) && WellFormed(w) && Effect(w, s).Has(l, k)
    ensures var o := Effect(w, s).At(l)[k];
            || (w.Has(l, k) && SameCore(o, w.At(l)[k]))
            || (s.UserPut? && s.at == l && o == s.obj && KeyOf(o) == k)
            || (&& s.SyncStep? && s.at == l
                && var c := Config(s.spec, s.from, s.at);
                   var i := Read(c.spec, c.peer, w.At(s.from), s.key);
                && i.Offer? && k == KeyOf(i.desired) && SameCore(o, i.desired)
                && if w.Has(l, k) then MayUpdate(c, w.At(l)[k], w.Alive(l)) else MayCreate(c, i.desired, w.Alive(l)))
  {
    if s.SyncStep? && s.at == l {
      PullEffect(Config(s.spec, s.from, s.at), w.At(l), w.At(s.from), s.key, ViewOf(w, s), k);
    }
  }

  /** How a step under neutral rules can leave a copy at (l, k): it was there, or it was accepted
      from a peer that held the same object, as a native of that peer or as a copy of the owner. */
  lemma CopyOrigin(w: World, s: Step, l: ClusterId, k: Key)
    requires Allowed(s) && WellFormed(w) && Effect(w, s).HasCopy(l, k)
    requires s.SyncStep? ==> OwnershipNeutral(s.spec)
    ensures var o := Effect(w, s).At(l)[k];
            || (w.HasCopy(l, k) && SameCore(o, w.At(l)[k]))
            || (&& s.SyncStep? && s.at == l && w.Has(s.from, s.key)
                && var src := w.At(s.from)[s.key];
                && !src.deleting && src.body == o.body
                && s.key.namespace == k.namespace && s.key.name == k.name
                && Owner(o) == (if Native(src) then s.from else Owner(src))
                && (if w.Has(l, k)
                    then MayUpdate(Config(s.spec, s.from, l), w.At(l)[k], w.Alive(l))
                    else Owner(o) != l && !OwnedByAnotherAlive(Owner(o), s.from, w.Alive(l))))
  {
    StepOrigin(w, s, l, k);
    if s.SyncStep? && s.at == l && !(w.Has(l, k) && SameCore(Effect(w, s).At(l)[k], w.At(l)[k])) {
      assert WellKeyed(w.At(s.from));
      OfferFacts(Config(s.spec, s.from, l), w.At(s.from), s.key);
    }
  }
}
