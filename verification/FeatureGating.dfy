/** The incremental split into active and pending controllers is a plain filter of what has been
    registered by what the features currently satisfy. */
module FeatureGating {
  import opened Objects
  import opened Rules
  import opened Registry

  /** The registered controllers filtered by the features. */
  ghost function Classified(registered: Controllers, features: Features): State {
    State(features,
          map n | n in registered && Satisfied(registered[n], features) :: registered[n],
          map n | n in registered && !Satisfied(registered[n], features) :: registered[n])
  }

  /** A cluster state splits its controllers by their requirements. */
  ghost predicate Gated(s: State) {
    && Filed(s.active) && Filed(s.pending)
    && s.active.Keys !! s.pending.Keys
    && (forall n | n in s.active :: Satisfied(s.active[n], s.features))
    && (forall n | n in s.pending :: !Satisfied(s.pending[n], s.features))
  }

  function Registered(s: State): Controllers {
    s.pending + s.active
  }

  /** The filter and the invariant are two views of the same thing. */
  lemma GatedIsClassified(s: State)
    ensures Gated(s) <==> Filed(Registered(s)) && s == Classified(Registered(s), s.features)
  {
    var r := Registered(s);
    var c := Classified(r, s.features);
    if Gated(s) {
      assert s.active == c.active;
      assert s.pending == c.pending;
    }
  }

  lemma RegisteredAdd(s: State, c: Controller)
    requires c.name !in s.active
    ensures Registered(WithController(s, c)) == Registered(s)[c.name := c]
  {
  }

  lemma RegisteredAgain(s: State, n: string)
    requires n in s.active
    ensures n in Registered(s) && Registered(s)[n] == s.active[n]
    ensures Registered(s) == Registered(s)[n := s.active[n]]
  {
  }

  lemma AddNew(s: State, c: Controller)
    requires Gated(s) && c.name !in s.active
    ensures Gated(WithController(s, c))
  {
  }

  /** Adding a controller keeps the split and registers it exactly when no different controller
      of its name is active. */
  lemma AddExactly(s: State, c: Controller)
    requires Gated(s)
    ensures var s' := WithController(s, c);
            Gated(s') && Registered(s') == Registered(s)[c.name := c] <==>
            (c.name in s.active ==> s.active[c.name] == c)
  {
    if c.name !in s.active {
      RegisteredAdd(s, c);
      AddNew(s, c);
    } else {
      RegisteredAgain(s, c.name);
      AddOver(s, c);
    }
  }

  lemma AddOver(s: State, c: Controller)
    requires Gated(s) && c.name in s.active && Registered(s) == Registered(s)[c.name := s.active[c.name]]
    ensures Gated(WithController(s, c)) && Registered(WithController(s, c)) == Registered(s)[c.name := c] <==>
            s.active[c.name] == c
  {
    if !Satisfied(c, s.features) {
      assert c.name in WithController(s, c).pending.Keys * WithController(s, c).active.Keys;
    } else {
      assert Registered(s)[c.name := c][c.name] == c;
    }
  }

  lemma RemoveKeeps(s: State, name: string)
    requires Gated(s)
    ensures Gated(WithoutController(s, name))
    ensures Registered(WithoutController(s, name)) == Registered(s) - {name}
  {
  }

  /** Adding or changing a feature keeps the split exactly when no active controller depends on
      what the change takes away: active controllers are not rechecked. */
  lemma FeatureExactly(s: State, f: Feature)
    requires Gated(s)
    ensures Registered(WithFeature(s, f)) == Registered(s)
    ensures Gated(WithFeature(s, f)) <==>
            forall n | n in s.active :: Satisfied(s.active[n], s.features[f.uid := f])
  {
    var s1 := s.(features := s.features[f.uid := f]);
    StartKeeps(s1, Startable(s1));
    StartSplits(s1);
  }

  /** Starting what can start leaves the split right exactly for those that were active before. */
  lemma StartSplits(s: State)
    requires Filed(s.active) && Filed(s.pending) && s.active.Keys !! s.pending.Keys
    ensures Gated(Start(s, Startable(s))) <==> forall n | n in s.active :: Satisfied(s.active[n], s.features)
  {
    var s' := Start(s, Startable(s));
    StartKeeps(s, Startable(s));
    assert forall n | n in s'.pending :: n in s.pending && s'.pending[n] == s.pending[n] && n !in Startable(s);
  }

  lemma StartKeeps(s: State, names: set<string>)
    requires names <= s.pending.Keys && s.active.Keys !! s.pending.Keys
    ensures var s' := Start(s, names);
            && Registered(s') == Registered(s)
            && s'.active.Keys == s.active.Keys + names
            && (forall n | n in names :: s'.active[n] == s.pending[n])
            && (forall n | n in s.active :: s'.active[n] == s.active[n])
  {
  }

  /** A feature under a new identifier is always safe to add. */
  lemma FreshFeatureSafe(s: State, f: Feature)
    requires Gated(s) && f.uid !in s.features
    ensures Gated(WithFeature(s, f))
  {
    forall n | n in s.active
      ensures Satisfied(s.active[n], s.features[f.uid := f])
    {
      SatisfiedMonotone(s.active[n], s.features, s.features[f.uid := f]);
    }
    FeatureExactly(s, f);
  }

  /** Relabelling the only feature a controller depends on leaves it running unsupported. */
  lemma RelabelledFeatureLeavesActive(old': Feature, new': Feature, r: FeatureRequirement)
    requires old'.uid == new'.uid && Fits(r, old') && !Fits(r, new')
    ensures var c := Controller("sync", [r], None);
            var s := State(map[old'.uid := old'], map["sync" := c], map[]);
            Gated(s) && !Gated(WithFeature(s, new'))
  {
    var c := Controller("sync", [r], None);
    var s := State(map[old'.uid := old'], map["sync" := c], map[]);
    assert Met(r, s.features) by {
      assert Fits(r, s.features[old'.uid]);
    }
    assert Gated(s);
    var after := s.features[new'.uid := new'];
    assert !Met(r, after) by {
      assert forall uid | uid in after :: after[uid] == new';
    }
    assert r in c.requirements && !Satisfied(s.active["sync"], after);
    FeatureExactly(s, new');
  }

  lemma FeatureLossKeeps(s: State, uid: string)
    requires Gated(s)
    ensures Gated(WithoutFeature(s, uid))
    ensures Registered(WithoutFeature(s, uid)) == Registered(s)
  {
    var s1 := s.(features := s.features - {uid});
    forall n | n in s.pending
      ensures !Satisfied(s.pending[n], s1.features)
    {
      if Satisfied(s.pending[n], s1.features) {
        SatisfiedMonotone(s.pending[n], s1.features, s.features);
      }
    }
    SuspendKeeps(s1, Stoppable(s1));
    SuspendSplits(s1);
  }

  lemma SuspendSplits(s: State)
    requires Filed(s.active) && Filed(s.pending) && s.active.Keys !! s.pending.Keys
    requires forall n | n in s.pending :: !Satisfied(s.pending[n], s.features)
    ensures Gated(Suspend(s, Stoppable(s)))
  {
    var s' := Suspend(s, Stoppable(s));
    SuspendKeeps(s, Stoppable(s));
    assert forall n | n in s'.active :: s'.active[n] == s.active[n] && n !in Stoppable(s);
  }

  lemma SuspendKeeps(s: State, names: set<string>)
    requires names <= s.active.Keys && s.active.Keys !! s.pending.Keys
    ensures var s' := Suspend(s, names);
            && Registered(s') == Registered(s)
            && s'.pending.Keys == s.pending.Keys + names
            && s'.active.Keys == s.active.Keys - names
            && (forall n | n in names :: s'.pending[n] == s.active[n])
            && (forall n | n in s.pending :: s'.pending[n] == s.pending[n])
  {
  }

  /******* Rules *******/

  const EMPTY_SPEC := RuleSpec([], GVK("", "", ""), [])

  function Requirements(spec: RuleSpec): seq<FeatureRequirement> {
    seq(|spec.clusterFeatureMatches|, i requires 0 <= i < |spec.clusterFeatureMatches| =>
      FeatureRequirement(spec.clusterFeatureMatches[i].featureName, spec.clusterFeatureMatches[i].selector))
  }

  /** The sync controller of a rule. */
  function ControllerFor(name: string, spec: RuleSpec): Controller {
    Controller(name, Requirements(spec), Some(spec))
  }

  /** The rule an active controller runs; a controller that is no sync controller counts as running
      the empty rule. */
  function ActualSpec(c: Controller): RuleSpec {
    if c.rule.Some? then c.rule.value else EMPTY_SPEC
  }

  /** One cluster after a rule was reconciled into it. Building the controller needs a rate limiter. */
  function Synced(s: State, name: string, spec: RuleSpec, limiterOk: bool): State {
    if name in s.active && ActualSpec(s.active[name]) == spec then s else
      var without := if name in s.active then WithoutController(s, name) else s;
      if limiterOk then WithController(without, ControllerFor(name, spec)) else without
  }

  /** Sync controllers are the ones their rules describe. */
  predicate Provisioned(cs: Controllers) {
    forall n | n in cs && cs[n].rule.Some? :: cs[n] == ControllerFor(n, cs[n].rule.value)
  }

  /** Reconciling a rule leaves the cluster with exactly the rule's controller under its name, filed
      by the features, and every other controller as it was. This holds exactly when a limiter
      can be built, or the controller is there already, unless an active built-in controller of
      the same name meets the empty rule. */
  lemma RuleCoherence(s: State, name: string, spec: RuleSpec, limiterOk: bool)
    requires Gated(s) && Provisioned(Registered(s))
    ensures Gated(Synced(s, name, spec, limiterOk))
    ensures Registered(Synced(s, name, spec, limiterOk)) == Registered(s)[name := ControllerFor(name, spec)] <==>
            if limiterOk then !(name in s.active && s.active[name].rule.None? && spec == EMPTY_SPEC)
            else name in Registered(s) && Registered(s)[name] == ControllerFor(name, spec)
    ensures Registered(Synced(s, name, spec, limiterOk)) - {name} == Registered(s) - {name}
  {
    if name in s.active && ActualSpec(s.active[name]) == spec {
      RuleKept(s, name, spec);
    } else {
      RuleReplaced(s, name, spec, limiterOk);
    }
  }

  /** Where no limiter can be built, an active controller that runs another rule is taken down and
      nothing takes its place; in every other case nothing changes. */
  lemma RuleWithoutLimiter(s: State, name: string, spec: RuleSpec)
    ensures Synced(s, name, spec, false) ==
            if name in s.active && s.active[name].rule != Some(spec)
               && !(s.active[name].rule == None && spec == RuleSpec([], GVK("", "", ""), []))
            then State(s.features, s.active - {name}, s.pending - {name}) else s
  {
  }

  /** Some present feature has the name and the labels that m asks for. */
  predicate Offered(m: FeatureMatch, features: Features) {
    exists uid | uid in features ::
      && m.featureName in {"", features[uid].name}
      && Valid(m.selector) && Selects(m.selector, features[uid].labels)
  }

  /** After a rule was reconciled into a cluster, its controller is active exactly when for every
      feature the rule asks for the cluster has one of that name, if any is given, whose labels
      the rule's selector chooses; and it runs the rule as it is now. */
  lemma RuleActiveExactly(s: State, name: string, spec: RuleSpec)
    requires Gated(s) && Provisioned(Registered(s))
    ensures var s' := Synced(s, name, spec, true);
            && s'.features == s.features
            && (name in s'.active <==> forall m | m in spec.clusterFeatureMatches :: Offered(m, s.features))
            && (name in s'.active <==> name !in s'.pending)
    ensures !(name in s.active && s.active[name].rule == None) ==>
              var s' := Synced(s, name, spec, true);
              var c := if name in s'.active then s'.active[name] else s'.pending[name];
              c.name == name && c.rule == Some(spec)
  {
    RuleCoherence(s, name, spec, true);
    AskedFor(name, spec, s.features);
    if name in s.active && ActualSpec(s.active[name]) == spec {
      RuleKept(s, name, spec);
      assert Registered(s)[name] == s.active[name];
    }
  }

  lemma AskedFor(name: string, spec: RuleSpec, features: Features)
    ensures Satisfied(ControllerFor(name, spec), features) <==>
            forall m | m in spec.clusterFeatureMatches :: Offered(m, features)
  {
    var c, ms := ControllerFor(name, spec), spec.clusterFeatureMatches;
    forall i | 0 <= i < |ms|
      ensures c.requirements[i] in c.requirements && ms[i] in ms
      ensures Met(c.requirements[i], features) <==> Offered(ms[i], features)
    {
      MetMeansOffered(c.requirements[i], ms[i], features);
    }
  }

  lemma MetMeansOffered(r: FeatureRequirement, m: FeatureMatch, features: Features)
    requires r.name == m.featureName && r.selector == m.selector
    ensures Met(r, features) <==> Offered(m, features)
  {
    if uid :| uid in features && Fits(r, features[uid]) {
      assert m.featureName in {"", features[uid].name};
    }
    if uid :| uid in features && m.featureName in {"", features[uid].name}
              && Valid(m.selector) && Selects(m.selector, features[uid].labels) {
      assert Fits(r, features[uid]);
    }
  }

  lemma RuleKept(s: State, name: string, spec: RuleSpec)
    requires Provisioned(Registered(s)) && name in s.active && ActualSpec(s.active[name]) == spec
    ensures name in Registered(s) && Registered(s)[name] == s.active[name]
    ensures Registered(s) == Registered(s)[name := ControllerFor(name, spec)] <==> s.active[name].rule.Some?
    ensures s.active[name] == ControllerFor(name, spec) <==> s.active[name].rule.Some?
  {
    RegisteredAgain(s, name);
    if s.active[name].rule.None? {
      assert Registered(s)[name := ControllerFor(name, spec)][name] != Registered(s)[name];
    }
  }

  lemma RuleReplaced(s: State, name: string, spec: RuleSpec, limiterOk: bool)
    requires Gated(s) && Provisioned(Registered(s)) && !(name in s.active && ActualSpec(s.active[name]) == spec)
    ensures Gated(Synced(s, name, spec, limiterOk))
    ensures Registered(Synced(s, name, spec, limiterOk)) == Registered(s)[name := ControllerFor(name, spec)] <==>
            limiterOk || (name in Registered(s) && Registered(s)[name] == ControllerFor(name, spec))
    ensures Registered(Synced(s, name, spec, limiterOk)) - {name} == Registered(s) - {name}
  {
    var c, r := ControllerFor(name, spec), Registered(s);
    var without := if name in s.active then WithoutController(s, name) else s;
    if name in s.active {
      RemoveKeeps(s, name);
      RegisteredAgain(s, name);
    }
    assert Registered(without)[name := c] == r[name := c];
    if limiterOk {
      AddExactly(without, c);
      assert r[name := c] - {name} == r - {name};
    } else if name !in s.active && name in r && r[name] == c {
      assert r == r[name := c];
    }
  }

  /******* Whole histories *******/

  datatype Op =
    | AddBuiltin(controller: Controller)
    | ReconcileRule(name: string, spec: RuleSpec)
    | RemoveByName(name: string)
    | AddFeature(feature: Feature)
    | RemoveFeature(uid: string)

  function Apply(s: State, op: Op): State {
    match op
    case AddBuiltin(c) => WithController(s, c)
    case ReconcileRule(name, spec) => Synced(s, name, spec, true)
    case RemoveByName(name) => WithoutController(s, name)
    case AddFeature(f) => WithFeature(s, f)
    case RemoveFeature(uid) => WithoutFeature(s, uid)
  }

  /** The operation is one the incremental index handles; each condition is exact by the lemmas above. */
  ghost predicate Handled(s: State, op: Op) {
    match op
    case AddBuiltin(c) => c.rule.None? && (c.name in s.active ==> s.active[c.name] == c)
    case ReconcileRule(name, spec) => !(name in s.active && s.active[name].rule.None? && spec == EMPTY_SPEC)
    case RemoveByName(_) => true
    case AddFeature(f) => forall n | n in s.active :: Satisfied(s.active[n], s.features[f.uid := f])
    case RemoveFeature(_) => true
  }

  function States(ops: seq<Op>): State {
    if ops == [] then State(map[], map[], map[]) else Apply(States(ops[..|ops| - 1]), ops[|ops| - 1])
  }

  /** What the history asks for: the last registration of each name that was not removed since. */
  function Declared(ops: seq<Op>): Controllers {
    if ops == [] then map[] else
      var before := Declared(ops[..|ops| - 1]);
      match ops[|ops| - 1]
      case AddBuiltin(c) => before[c.name := c]
      case ReconcileRule(name, spec) => before[name := ControllerFor(name, spec)]
      case RemoveByName(name) => before - {name}
      case AddFeature(_) => before
      case RemoveFeature(_) => before
  }

  function Present(ops: seq<Op>): Features {
    if ops == [] then map[] else
      var before := Present(ops[..|ops| - 1]);
      match ops[|ops| - 1]
      case AddFeature(f) => before[f.uid := f]
      case RemoveFeature(uid) => before - {uid}
      case _ => before
  }

  lemma ApplyKeeps(s: State, op: Op)
    requires Gated(s) && Provisioned(Registered(s)) && Handled(s, op)
    ensures Gated(Apply(s, op))
    ensures Registered(Apply(s, op)) ==
            match op
            case AddBuiltin(c) => Registered(s)[c.name := c]
            case ReconcileRule(name, spec) => Registered(s)[name := ControllerFor(name, spec)]
            case RemoveByName(name) => Registered(s) - {name}
            case _ => Registered(s)
  {
    match op
    case AddBuiltin(c) => AddExactly(s, c);
    case ReconcileRule(name, spec) => RuleCoherence(s, name, spec, true);
    case RemoveByName(name) => RemoveKeeps(s, name);
    case AddFeature(f) => FeatureExactly(s, f);
    case RemoveFeature(uid) => FeatureLossKeeps(s, uid);
  }

  lemma ApplyFeatures(s: State, op: Op)
    ensures Apply(s, op).features ==
            match op
            case AddFeature(f) => s.features[f.uid := f]
            case RemoveFeature(uid) => s.features - {uid}
            case _ => s.features
  {
  }

  lemma {:induction false} DeclaredProvisioned(ops: seq<Op>)
    requires forall op | op in ops && op.AddBuiltin? :: op.controller.rule.None?
    ensures Provisioned(Declared(ops))
  {
    if ops != [] {
      DeclaredProvisioned(ops[..|ops| - 1]);
    }
  }

  lemma {:induction false} HistoryGated(ops: seq<Op>)
    requires forall i | 0 <= i < |ops| :: Handled(States(ops[..i]), ops[i])
    ensures Gated(States(ops)) && Registered(States(ops)) == Declared(ops)
    ensures States(ops).features == Present(ops)
  {
    if ops != [] {
      var init, last := ops[..|ops| - 1], ops[|ops| - 1];
      assert forall i | 0 <= i < |init| :: init[i] == ops[i] && init[..i] == ops[..i];
      HistoryGated(init);
      DeclaredProvisioned(init);
      ApplyKeeps(States(init), last);
      ApplyFeatures(States(init), last);
    }
  }

  /** After any history the cluster runs exactly the declared controllers whose requirements the
      present features meet, and keeps exactly the other declared ones pending. */
  lemma GatingIsFilter(ops: seq<Op>)
    requires forall i | 0 <= i < |ops| :: Handled(States(ops[..i]), ops[i])
    ensures States(ops) == Classified(Declared(ops), Present(ops))
  {
    HistoryGated(ops);
    GatedIsClassified(States(ops));
  }
}
