/** Reconciling a sync rule into every managed cluster. */
module RuleReconciler {
  import opened Objects
  import opened Rules
  import opened Registry
  import opened FeatureGating

  method RequirementsOf(spec: RuleSpec) returns (rs: seq<FeatureRequirement>)
    ensures rs == Requirements(spec)
  {
    rs := [];
    for i := 0 to |spec.clusterFeatureMatches|
      invariant rs == Requirements(spec)[..i]
    {
      var m := spec.clusterFeatureMatches[i];
      rs := rs + [FeatureRequirement(m.featureName, m.selector)];
    }
  }

  method InitController(cluster: Cluster, name: string, spec: RuleSpec, limiterOk: bool)
    requires cluster.Valid()
    modifies cluster`features, cluster`controllers, cluster`pending
    ensures cluster.Valid()
    ensures cluster.View() == if limiterOk then WithController(old(cluster.View()), ControllerFor(name, spec))
                              else old(cluster.View())
  {
    if !limiterOk {
      return;
    }
    var requirements := RequirementsOf(spec);
    cluster.AddController(Controller(name, requirements, Some(spec)));
  }

  method SyncClusterController(cluster: Cluster, name: string, spec: RuleSpec, limiterOk: bool)
    requires cluster.Valid()
    modifies cluster`features, cluster`controllers, cluster`pending
    ensures cluster.Valid() && cluster.View() == Synced(old(cluster.View()), name, spec, limiterOk)
  {
    if name !in cluster.controllers {
      InitController(cluster, name, spec, limiterOk);
      return;
    }
    var c := cluster.controllers[name];
    var actual := EMPTY_SPEC;
    if c.rule.Some? {
      actual := c.rule.value;
    }
    if actual != spec {
      cluster.RemoveControllerByName(c.name);
      InitController(cluster, name, spec, limiterOk);
    }
  }

  /** Effect of a rule's reconcile on one cluster; a rule that is gone loses its controllers. */
  function RuleApplied(s: State, name: string, rule: Option<RuleSpec>, limiterOk: bool): State {
    match rule
    case None => WithoutController(s, name)
    case Some(spec) => Synced(s, name, spec, limiterOk)
  }

  /** A rule that is gone has no controller, active or pending, and all others are as they were. */
  lemma RuleGone(s: State, name: string, limiterOk: bool)
    ensures var s' := RuleApplied(s, name, None, limiterOk);
            && name !in s'.active && name !in s'.pending && s'.features == s.features
            && s'.active == s.active - {name} && s'.pending == s.pending - {name}
  {
  }

  /** Every managed cluster gets the effect, in whatever order they are visited. */
  method Reconcile(clusters: set<Cluster>, name: string, rule: Option<RuleSpec>, limiterOk: bool)
    requires forall c | c in clusters :: c.Valid()
    modifies clusters`features, clusters`controllers, clusters`pending
    ensures forall c | c in clusters :: c.Valid() && c.View() == RuleApplied(old(c.View()), name, rule, limiterOk)
  {
    var todo := clusters;
    while todo != {}
      invariant todo <= clusters
      invariant forall c | c in clusters :: c.Valid()
      invariant forall c | c in todo :: c.View() == old(c.View())
      invariant forall c | c in clusters - todo :: c.View() == RuleApplied(old(c.View()), name, rule, limiterOk)
      decreases todo
    {
      var c :| c in todo;
      todo := todo - {c};
      match rule
      case None => c.RemoveControllerByName(name);
      case Some(spec) => SyncClusterController(c, name, spec, limiterOk);
    }
  }
}
