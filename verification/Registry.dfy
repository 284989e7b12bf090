/** The controllers of one managed cluster, split by whether the cluster offers the features they
    require, and the sync controllers that rules install into it. */
module Registry {
  import opened Objects
  import opened Rules

  /******* Features and requirements *******/

  datatype Feature = Feature(uid: string, name: string, labels: Labels)

  type Features = map<string, Feature>

  datatype FeatureRequirement = FeatureRequirement(name: string, selector: Selector)

  predicate Fits(r: FeatureRequirement, f: Feature) {
    && (r.name == "" || r.name == f.name)
    && Valid(r.selector) && Selects(r.selector, f.labels)
  }

  predicate Met(r: FeatureRequirement, features: Features) {
    exists uid | uid in features :: Fits(r, features[uid])
  }

  /** The search over the features, in whatever order they come. An invalid selector ends it at the
      first feature of the right name, and is no worse than one that selects nothing. */
  method MatchFeatures(r: FeatureRequirement, features: Features) returns (met: bool)
    ensures met == Met(r, features)
  {
    var todo := features.Keys;
    while todo != {}
      invariant todo <= features.Keys
      invariant forall uid | uid in features.Keys - todo :: !Fits(r, features[uid])
      decreases todo
    {
      var uid :| uid in todo;
      todo := todo - {uid};
      var f := features[uid];
      if r.name != "" && r.name != f.name {
        continue;
      }
      if r.selector.matchLabels == map[] && r.selector.matchExpressions == [] {
        assert Fits(r, f);
        return true;
      }
      if !Valid(r.selector) {
        return false;
      }
      if Selects(r.selector, f.labels) {
        return true;
      }
    }
    return false;
  }

  /** A managed controller; `rule` is present on the sync controllers that rules install. */
  datatype Controller = Controller(name: string, requirements: seq<FeatureRequirement>, rule: Option<RuleSpec>)

  predicate Satisfied(c: Controller, features: Features) {
    forall r | r in c.requirements :: Met(r, features)
  }

  /** More features never take a requirement away. */
  lemma SatisfiedMonotone(c: Controller, a: Features, b: Features)
    requires Satisfied(c, a) && forall uid | uid in a :: uid in b && b[uid] == a[uid]
    ensures Satisfied(c, b)
  {
    forall r | r in c.requirements
      ensures Met(r, b)
    {
      var uid :| uid in a && Fits(r, a[uid]);
      assert Fits(r, b[uid]);
    }
  }

  /******* The registry of one cluster *******/

  type Controllers = map<string, Controller>

  datatype State = State(features: Features, active: Controllers, pending: Controllers)

  function WithController(s: State, c: Controller): State {
    if !Satisfied(c, s.features) then s.(pending := s.pending[c.name := c])
    else if c.name in s.active then s
    else s.(active := s.active[c.name := c], pending := s.pending - {c.name})
  }

  function WithoutController(s: State, name: string): State {
    s.(active := s.active - {name}, pending := s.pending - {name})
  }

  /** s with the named pending controllers started. */
  function Start(s: State, names: set<string>): State
    requires names <= s.pending.Keys
  {
    s.(active := s.active + (map n | n in names :: s.pending[n]), pending := s.pending - names)
  }

  /** s with the named active controllers put back to pending. */
  function Suspend(s: State, names: set<string>): State
    requires names <= s.active.Keys
  {
    s.(active := s.active - names, pending := s.pending + (map n | n in names :: s.active[n]))
  }

  function Startable(s: State): set<string> {
    set n | n in s.pending && n !in s.active && Satisfied(s.pending[n], s.features)
  }

  function Stoppable(s: State): set<string> {
    set n | n in s.active && !Satisfied(s.active[n], s.features)
  }

  function WithFeature(s: State, f: Feature): State {
    var s' := s.(features := s.features[f.uid := f]);
    Start(s', Startable(s'))
  }

  function WithoutFeature(s: State, uid: string): State {
    var s' := s.(features := s.features - {uid});
    Suspend(s', Stoppable(s'))
  }

  /** Controllers are filed under their own names. */
  predicate Filed(cs: Controllers) {
    forall n | n in cs :: cs[n].name == n
  }

  lemma StartOne(s: State, names: set<string>, n: string)
    requires names <= s.pending.Keys && n in s.pending && n !in names
    ensures n in Start(s, names).pending && Start(s, names).pending[n] == s.pending[n]
    ensures n in Start(s, names).active <==> n in s.active
    ensures var before := Start(s, names);
            Start(s, names + {n}) ==
              before.(active := before.active[n := s.pending[n]], pending := before.pending - {n})
  {
    var before, after := Start(s, names), Start(s, names + {n});
    assert before.active[n := s.pending[n]] == after.active;
    assert before.pending - {n} == after.pending;
  }

  lemma StartStep(s: State, todo: set<string>, n: string)
    requires Filed(s.pending) && n in todo && todo <= s.pending.Keys
    ensures n in Start(s, Startable(s) - todo).pending
    ensures WithController(Start(s, Startable(s) - todo), Start(s, Startable(s) - todo).pending[n])
         == Start(s, Startable(s) - (todo - {n}))
  {
    var go := Startable(s);
    StartOne(s, go - todo, n);
    assert go - (todo - {n}) == if n in go then go - todo + {n} else go - todo;
  }

  lemma SuspendOne(s: State, names: set<string>, n: string)
    requires names <= s.active.Keys && n in s.active && n !in names
    ensures n in Suspend(s, names).active && Suspend(s, names).active[n] == s.active[n]
    ensures var without := WithoutController(Suspend(s, names), n);
            Suspend(s, names + {n}) == without.(pending := without.pending[n := s.active[n]])
  {
    var before, after := Suspend(s, names), Suspend(s, names + {n});
    assert before.active - {n} == after.active;
    assert (before.pending - {n})[n := s.active[n]] == after.pending;
  }

  /** What a connection to a cluster was built from: the reference and the content of a secret. */
  datatype Credentials = Credentials(secretId: Option<string>, kubeconfig: string)

  class Cluster {
    const name: string
    const credentials: Credentials
    var alive: bool
    var clusterId: ClusterId
    var features: Features
    var controllers: Controllers
    var pending: Controllers

    constructor (name: string, credentials: Credentials)
      ensures this.name == name && this.credentials == credentials && !alive
      ensures View() == State(map[], map[], map[]) && Valid()
    {
      this.name := name;
      this.credentials := credentials;
      alive, clusterId := false, "";
      features, controllers, pending := map[], map[], map[];
    }

    function View(): State
      reads this
    {
      State(features, controllers, pending)
    }

    predicate Valid()
      reads this
    {
      Filed(controllers) && Filed(pending)
    }

    /** The liveness check: the answer is the UID of the kube-system namespace, if there is one. */
    method LivenessCheck(answer: Option<ClusterId>)
      modifies this`alive, this`clusterId
      ensures alive == answer.Some?
      ensures clusterId == if answer.Some? then answer.value else old(clusterId)
    {
      if answer.None? {
        alive := false;
        return;
      }
      alive := true;
      clusterId := answer.value;
    }

    method CheckRequiredFeatures(c: Controller) returns (ok: bool)
      ensures ok == Satisfied(c, features)
    {
      for i := 0 to |c.requirements|
        invariant forall r | r in c.requirements[..i] :: Met(r, features)
      {
        var met := MatchFeatures(c.requirements[i], features);
        if !met {
          return false;
        }
      }
      return true;
    }

    method AddController(c: Controller)
      requires Valid()
      modifies this`features, this`controllers, this`pending
      ensures Valid() && View() == WithController(old(View()), c)
    {
      var ok := CheckRequiredFeatures(c);
      if !ok {
        pending := pending[c.name := c];
        return;
      }
      if c.name in controllers {
        return;
      }
      pending := pending - {c.name};
      controllers := controllers[c.name := c];
    }

    method RemoveControllerByName(name: string)
      requires Valid()
      modifies this`features, this`controllers, this`pending
      ensures Valid() && View() == WithoutController(old(View()), name)
    {
      pending := pending - {name};
      controllers := controllers - {name};
    }

    method AddFeature(f: Feature)
      requires Valid()
      modifies this`features, this`controllers, this`pending
      ensures Valid() && View() == WithFeature(old(View()), f)
    {
      features := features[f.uid := f];
      ghost var s := View();
      var todo := pending.Keys;
      assert Startable(s) - todo == {};
      while todo != {}
        invariant Valid() && todo <= s.pending.Keys && View() == Start(s, Startable(s) - todo)
        decreases todo
      {
        var n :| n in todo;
        StartStep(s, todo, n);
        AddController(pending[n]);
        todo := todo - {n};
      }
      assert Startable(s) - {} == Startable(s);
    }

    method RemoveFeature(uid: string)
      requires Valid()
      modifies this`features, this`controllers, this`pending
      ensures Valid() && View() == WithoutFeature(old(View()), uid)
    {
      features := features - {uid};
      ghost var s := View();
      ghost var stop := Stoppable(s);
      var todo := controllers.Keys;
      while todo != {}
        invariant Valid() && todo <= s.active.Keys && View() == Suspend(s, stop - todo)
        decreases todo
      {
        var n :| n in todo;
        SuspendOne(s, stop - todo, n);
        var c := controllers[n];
        var ok := CheckRequiredFeatures(c);
        if !ok {
          RemoveControllerByName(c.name);
          pending := pending[c.name := c];
        }
        assert stop - (todo - {n}) == if n in stop then stop - todo + {n} else stop - todo;
        todo := todo - {n};
      }
      assert stop - {} == stop;
    }
  }
}
