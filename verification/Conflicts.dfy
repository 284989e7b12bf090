/** Detecting that several Cluster resources claim to be the local cluster. Each resource carries
    its own flag, and a work queue that triggers itself brings all flags up to date. */
module Conflicts {
  import opened Objects

  /** The local-conflict condition of a resource: not set yet, false or true. */
  datatype Flag = Unset | NoConflict | Conflict

  datatype Resource = Resource(clusterId: ClusterId, disabled: bool, flag: Flag)

  type Resources = map<string, Resource>

  /** The same resource up to its flag. */
  predicate SameClaim(a: Resource, b: Resource) {
    a == b.(flag := a.flag)
  }

  /** The stored resources and the queued requests. Requests are handled in any order; a request
      that is queued twice is handled once. */
  datatype State = State(resources: Resources, queue: set<string>)

  /** An enabled resource that claims to be the local cluster. */
  predicate Local(rs: Resources, local: ClusterId, n: string) {
    n in rs && rs[n].clusterId == local && !rs[n].disabled
  }

  /** Another resource, disabled or not, makes the same claim. */
  predicate HasRival(rs: Resources, local: ClusterId, n: string) {
    exists m | m in rs :: m != n && rs[m].clusterId == local
  }

  /** The flag of a resource that claims to be local says whether it has a rival. */
  predicate Right(rs: Resources, local: ClusterId, n: string)
    requires n in rs
  {
    rs[n].flag == if HasRival(rs, local, n) then Conflict else NoConflict
  }

  ghost predicate AllRight(rs: Resources, local: ClusterId) {
    forall n | Local(rs, local, n) :: Right(rs, local, n)
  }

  function Flagged(rs: Resources): set<string> {
    set n | n in rs && rs[n].flag == Conflict
  }

  /** One reconcile of n. The rival that is looked at is whichever the listing gives first. */
  ghost predicate Step(local: ClusterId, s: State, n: string, s': State) {
    var rest := s.queue - {n};
    if n !in s.resources then
      s' == State(s.resources, rest + Flagged(s.resources))
    else if s.resources[n].disabled then
      s' == State(s.resources[n := s.resources[n].(flag := Unset)], rest)
    else if s.resources[n].clusterId != local then
      s' == s.(queue := rest)
    else if !HasRival(s.resources, local, n) then
      s' == State(s.resources[n := s.resources[n].(flag := NoConflict)], rest)
    else
      exists m | m in s.resources && m != n && s.resources[m].clusterId == local ::
        s' == State(s.resources[n := s.resources[n].(flag := Conflict)],
                    rest + (if s.resources[m].flag == NoConflict then {m} else {}))
  }

  /******* The flags become right *******/

  /** The reconcile of n will put m into the queue. */
  predicate Wakes(s: State, local: ClusterId, n: string, m: string) {
    && n in s.queue && m in s.resources
    && if n !in s.resources then s.resources[m].flag == Conflict
       else
         && n != m && Local(s.resources, local, n) && s.resources[m].flag == NoConflict
         && forall x | x in s.resources && x != n && s.resources[x].clusterId == local :: x == m
  }

  /** Every local resource is right, or queued, or will be queued by the resource that changed. */
  ghost predicate OnTrack(s: State, local: ClusterId, changed: string) {
    forall m | Local(s.resources, local, m) ::
      Right(s.resources, local, m) || m in s.queue || Wakes(s, local, changed, m)
  }

  lemma SameRivals(rs: Resources, rs': Resources, local: ClusterId, m: string)
    requires rs.Keys == rs'.Keys && forall n | n in rs :: rs'[n].clusterId == rs[n].clusterId
    ensures HasRival(rs, local, m) <==> HasRival(rs', local, m)
  {
    if HasRival(rs, local, m) {
      var x :| x in rs && x != m && rs[x].clusterId == local;
      assert x in rs' && rs'[x].clusterId == local;
    }
    if HasRival(rs', local, m) {
      var x :| x in rs' && x != m && rs'[x].clusterId == local;
      assert x in rs && rs[x].clusterId == local;
    }
  }

  /** What a step does to the resources: at most the flag of n changes, and it becomes right. */
  lemma StepFacts(local: ClusterId, s: State, n: string, s': State)
    requires Step(local, s, n, s')
    ensures s'.resources.Keys == s.resources.Keys
    ensures forall m | m in s.resources :: SameClaim(s'.resources[m], s.resources[m])
    ensures forall m | m in s.resources && m != n :: s'.resources[m] == s.resources[m]
    ensures s.queue - {n} <= s'.queue
    ensures Local(s.resources, local, n) ==> Right(s'.resources, local, n)
    ensures n in s.resources && s.resources[n].disabled ==> s'.resources[n].flag == Unset && s'.queue == s.queue - {n}
    ensures n in s.resources && !s.resources[n].disabled && s.resources[n].clusterId != local ==>
              s' == State(s.resources, s.queue - {n})
  {
    SameRivals(s.resources, s'.resources, local, n);
  }

  lemma StepOnTrack(local: ClusterId, s: State, n: string, s': State, changed: string)
    requires OnTrack(s, local, changed) && n in s.queue && Step(local, s, n, s')
    ensures OnTrack(s', local, changed)
  {
    StepFacts(local, s, n, s');
    forall m | Local(s'.resources, local, m)
      ensures Right(s'.resources, local, m) || m in s'.queue || Wakes(s', local, changed, m)
    {
      SameRivals(s.resources, s'.resources, local, m);
      if m != n && Wakes(s, local, changed, m) {
        if n == changed {
          Woken(local, s, n, s', m);
        } else {
          assert Wakes(s', local, changed, m);
        }
      }
    }
  }

  lemma Woken(local: ClusterId, s: State, n: string, s': State, m: string)
    requires Wakes(s, local, n, m) && Local(s.resources, local, m) && m != n && Step(local, s, n, s')
    ensures m in s'.queue
  {
    if n in s.resources {
      assert HasRival(s.resources, local, n);
    }
  }

  function Created(rs: Resources, n: string, id: ClusterId, disabled: bool): Resources {
    rs[n := Resource(id, disabled, Unset)]
  }

  /** A resource that had no rival gets a disabled one, and no queued request makes it look again. */
  predicate Overlooked(rs: Resources, local: ClusterId, id: ClusterId, disabled: bool, queue: set<string>) {
    disabled && id == local && exists m | m in rs :: Local(rs, local, m) && !HasRival(rs, local, m) && m !in queue
  }

  /** Creating a resource in a settled group: its own request brings every flag on track, exactly
      when no enabled resource is overlooked by a disabled rival. */
  lemma CreatedOnTrack(rs: Resources, local: ClusterId, n: string, id: ClusterId, disabled: bool, queue: set<string>)
    requires AllRight(rs, local) && n !in rs && n in queue
    ensures OnTrack(State(Created(rs, n, id, disabled), queue), local, n)
       <==> !Overlooked(rs, local, id, disabled, queue)
  {
    var s := State(Created(rs, n, id, disabled), queue);
    forall m | Local(s.resources, local, m) && m != n
      ensures Local(rs, local, m) && (HasRival(s.resources, local, m) <==> HasRival(rs, local, m) || id == local)
    {
      RivalAdded(rs, local, n, id, disabled, m);
    }
    forall m | Local(s.resources, local, m) && m != n && !HasRival(rs, local, m) && id == local && !disabled
      ensures Wakes(s, local, n, m)
    {
      assert forall x | x in s.resources && x != n && s.resources[x].clusterId == local :: x in rs;
    }
    if m :| m in rs && Local(rs, local, m) && !HasRival(rs, local, m) && m !in queue && disabled && id == local {
      assert Local(s.resources, local, m);
    }
  }

  /** A wrong flag that the queued requests will not correct: m denies its rivals, is not queued, and
      all of its rivals are disabled, so that they wake nobody. */
  ghost predicate Stuck(s: State, local: ClusterId, m: string) {
    && Local(s.resources, local, m) && s.resources[m].flag == NoConflict && m !in s.queue
    && HasRival(s.resources, local, m)
    && forall x | x in s.resources && x != m && s.resources[x].clusterId == local :: s.resources[x].disabled
  }

  lemma StaysStuck(local: ClusterId, s: State, n: string, s': State, m: string)
    requires Stuck(s, local, m) && n in s.queue && Step(local, s, n, s')
    ensures Stuck(s', local, m)
  {
    StepFacts(local, s, n, s');
    SameRivals(s.resources, s'.resources, local, m);
  }

  lemma OverlookedIsStuck(
    rs: Resources, local: ClusterId, n: string, id: ClusterId, disabled: bool, queue: set<string>) returns (m: string)
    requires AllRight(rs, local) && n !in rs && Overlooked(rs, local, id, disabled, queue)
    ensures Stuck(State(Created(rs, n, id, disabled), queue), local, m)
  {
    m :| m in rs && Local(rs, local, m) && !HasRival(rs, local, m) && m !in queue;
    RivalAdded(rs, local, n, id, disabled, m);
    assert Right(rs, local, m);
  }

  lemma StuckIsWrong(s: State, local: ClusterId, m: string)
    requires Stuck(s, local, m)
    ensures !AllRight(s.resources, local)
  {
    assert !Right(s.resources, local, m);
  }

  lemma RivalAdded(rs: Resources, local: ClusterId, n: string, id: ClusterId, disabled: bool, m: string)
    requires n !in rs && m in rs
    ensures HasRival(Created(rs, n, id, disabled), local, m) <==> HasRival(rs, local, m) || id == local
  {
    var rs' := Created(rs, n, id, disabled);
    if HasRival(rs, local, m) {
      var x :| x in rs && x != m && rs[x].clusterId == local;
      assert x in rs' && rs'[x].clusterId == local;
    }
    if id == local {
      assert n in rs' && rs'[n].clusterId == local;
    }
    assert forall x | x in rs' && x != n :: rs'[x] == rs[x];
  }

  lemma DeletedOnTrack(rs: Resources, local: ClusterId, n: string, queue: set<string>)
    requires AllRight(rs, local) && n in queue
    ensures OnTrack(State(rs - {n}, queue), local, n)
  {
    var s := State(rs - {n}, queue);
    forall m | Local(s.resources, local, m)
      ensures Right(s.resources, local, m) || Wakes(s, local, n, m)
    {
      assert Local(rs, local, m);
      if !HasRival(rs, local, m) {
        assert forall x | x in s.resources :: x in rs && s.resources[x] == rs[x];
      }
    }
  }

  /******* The queue runs dry *******/

  /** Resources whose flag still denies a rival they have. */
  ghost function Wrong(rs: Resources, local: ClusterId): set<string> {
    set n | n in rs && rs[n].clusterId == local && rs[n].flag == NoConflict && HasRival(rs, local, n)
  }

  /** Requests for resources that are gone, which may wake many. */
  function Absent(s: State): set<string> {
    s.queue - s.resources.Keys
  }

  ghost function Pressure(s: State, local: ClusterId): nat {
    2 * |Wrong(s.resources, local) - s.queue| + |s.queue|
  }

  /** Every reconcile lowers the pair of the two, compared lexicographically. */
  lemma StepDecreases(local: ClusterId, s: State, n: string, s': State)
    requires n in s.queue && Step(local, s, n, s')
    ensures |Absent(s')| < |Absent(s)| || (Absent(s') == Absent(s) && Pressure(s', local) < Pressure(s, local))
  {
    StepFacts(local, s, n, s');
    if n !in s.resources {
      assert Absent(s') == Absent(s) - {n};
    } else {
      WrongShrinks(local, s, n, s');
      SameAbsent(local, s, n, s');
      Relieved(Wrong(s.resources, local), Wrong(s'.resources, local), s.queue, s'.queue, n);
    }
  }

  lemma SameAbsent(local: ClusterId, s: State, n: string, s': State)
    requires n in s.resources && s'.resources.Keys == s.resources.Keys && s.queue - {n} <= s'.queue
    requires forall m | m in s'.queue && m !in s.queue - {n} :: m in Wrong(s.resources, local)
    ensures Absent(s') == Absent(s)
  {
  }

  /** The arithmetic of a step: n leaves the queue, and whoever joins it was wrong and not queued. */
  lemma Relieved(w: set<string>, w': set<string>, q: set<string>, q': set<string>, n: string)
    requires n in q && w' <= w - {n} && q - {n} <= q'
    requires forall m | m in q' && m !in q - {n} :: m in w && m != n && q' == q - {n} + {m}
    ensures 2 * |w' - q'| + |q'| < 2 * |w - q| + |q|
  {
    var rest := q - {n};
    if q' == rest {
      assert w' - q' <= w - q;
      SubsetSize(w' - q', w - q);
    } else {
      var m :| m in q' && m !in rest;
      assert w' - q' <= (w - q) - {m};
      SubsetSize(w' - q', (w - q) - {m});
    }
  }

  lemma WrongShrinks(local: ClusterId, s: State, n: string, s': State)
    requires n in s.resources && Step(local, s, n, s')
    ensures Wrong(s'.resources, local) <= Wrong(s.resources, local) - {n}
    ensures forall m | m in s'.queue && m !in s.queue - {n} ::
              m in Wrong(s.resources, local) && m != n && s'.queue == s.queue - {n} + {m}
  {
    StepFacts(local, s, n, s');
    forall m | m in Wrong(s'.resources, local)
      ensures m in Wrong(s.resources, local) && m != n
    {
      SameRivals(s.resources, s'.resources, local, m);
    }
    forall m | m in s'.queue && m !in s.queue - {n}
      ensures m in Wrong(s.resources, local) && m != n && s'.queue == s.queue - {n} + {m}
    {
      assert s.resources[n].clusterId == local;
      assert HasRival(s.resources, local, m);
    }
  }

  /******* Whole histories *******/

  /** Any chain of reconciles from a state on track stays on track; once the queue is empty every
      flag is right. */
  lemma {:induction false} QuiescentIsRight(local: ClusterId, ss: seq<State>, ns: seq<string>, changed: string)
    requires |ss| == |ns| + 1 && OnTrack(ss[0], local, changed)
    requires forall i | 0 <= i < |ns| :: ns[i] in ss[i].queue && Step(local, ss[i], ns[i], ss[i + 1])
    ensures OnTrack(ss[|ns|], local, changed)
    ensures ss[|ns|].queue == {} ==> AllRight(ss[|ns|].resources, local)
  {
    var n := |ns|;
    if n > 0 {
      QuiescentIsRight(local, ss[..n], ns[..n - 1], changed);
      StepOnTrack(local, ss[n - 1], ns[n - 1], ss[n], changed);
    }
  }

  lemma {:induction false} StuckForGood(local: ClusterId, ss: seq<State>, ns: seq<string>, m: string)
    requires |ss| == |ns| + 1 && Stuck(ss[0], local, m)
    requires forall i | 0 <= i < |ns| :: ns[i] in ss[i].queue && Step(local, ss[i], ns[i], ss[i + 1])
    ensures Stuck(ss[|ns|], local, m)
  {
    var n := |ns|;
    if n > 0 {
      StuckForGood(local, ss[..n], ns[..n - 1], m);
      StaysStuck(local, ss[n - 1], ns[n - 1], ss[n], m);
    }
  }

  /** A resource appears in a settled group. Whatever is queued with it and in whatever order it is
      handled, once the queue is empty all flags are right if and only if none is overlooked. */
  lemma RequestsSettleRight(
    local: ClusterId, rs: Resources, n: string, id: ClusterId, disabled: bool, ss: seq<State>, ns: seq<string>)
    requires AllRight(rs, local) && n !in rs && |ss| == |ns| + 1
    requires ss[0].resources == Created(rs, n, id, disabled) && n in ss[0].queue
    requires forall i | 0 <= i < |ns| :: ns[i] in ss[i].queue && Step(local, ss[i], ns[i], ss[i + 1])
    requires ss[|ns|].queue == {}
    ensures AllRight(ss[|ns|].resources, local) <==> !Overlooked(rs, local, id, disabled, ss[0].queue)
  {
    CreatedOnTrack(rs, local, n, id, disabled, ss[0].queue);
    assert ss[0] == State(Created(rs, n, id, disabled), ss[0].queue);
    if Overlooked(rs, local, id, disabled, ss[0].queue) {
      var m := OverlookedIsStuck(rs, local, n, id, disabled, ss[0].queue);
      StuckForGood(local, ss, ns, m);
      StuckIsWrong(ss[|ns|], local, m);
    } else {
      QuiescentIsRight(local, ss, ns, n);
    }
  }

  /******* What a creation queues *******/

  /** A listing gives every resource once, in whatever order. */
  predicate IsListing(listing: seq<string>, names: set<string>) {
    && (set n | n in listing) == names
    && (forall i, j | 0 <= i < j < |listing| :: listing[i] != listing[j])
  }

  predicate Before(listing: seq<string>, m: string, n: string) {
    exists i, j | 0 <= i < j < |listing| :: listing[i] == m && listing[j] == n
  }

  /** The table by cluster ID that the watch builds from a listing; later entries replace earlier
      ones. */
  function ById(rs: Resources, listing: seq<string>): (t: map<ClusterId, string>)
    ensures forall id | id in t :: t[id] in listing && t[id] in rs && rs[t[id]].clusterId == id
  {
    if listing == [] then map[] else
      var t, n := ById(rs, listing[..|listing| - 1]), listing[|listing| - 1];
      if n in rs then t[rs[n].clusterId := n] else t
  }

  /** The requests of the watch on creations and deletions: the entries of the table that are of the
      local type. The pass that sets a flag also stores that type, and disabling takes both away. */
  function Watched(rs: Resources, listing: seq<string>): set<string> {
    var t := ById(rs, listing);
    set id | id in t && rs[t[id]].flag != Unset :: t[id]
  }

  /** An entry of a listing is in the table exactly when none of the same cluster ID follows it. */
  lemma {:induction false} LastOfId(rs: Resources, listing: seq<string>, i: nat)
    requires i < |listing| && (forall j | 0 <= j < |listing| :: listing[j] in rs)
    requires forall j | i < j < |listing| :: listing[j] != listing[i]
    ensures var id := rs[listing[i]].clusterId;
            && id in ById(rs, listing)
            && (ById(rs, listing)[id] == listing[i] <==>
                forall j | i < j < |listing| :: rs[listing[j]].clusterId != id)
  {
    var init, last, id := listing[..|listing| - 1], listing[|listing| - 1], rs[listing[i]].clusterId;
    if i < |init| {
      LastOfId(rs, init, i);
      if rs[last].clusterId != id {
        assert ById(rs, listing)[id] == ById(rs, init)[id];
        assert forall j | i < j < |listing| :: j == |init| || listing[j] == init[j];
      }
    }
  }

  /** The new resource is disabled, claims the local ID, and is listed behind an enabled resource
      that had no rival. */
  predicate ListedBehind(
    rs: Resources, local: ClusterId, n: string, id: ClusterId, disabled: bool, listing: seq<string>)
  {
    && disabled && id == local
    && exists m | m in rs :: Local(rs, local, m) && !HasRival(rs, local, m) && Before(listing, m, n)
  }

  lemma WatchedUnlessBehind(
    rs: Resources, local: ClusterId, n: string, disabled: bool, listing: seq<string>, m: string)
    requires AllRight(rs, local) && n !in rs && Local(rs, local, m) && !HasRival(rs, local, m)
    requires IsListing(listing, rs.Keys + {n})
    ensures m in Watched(Created(rs, n, local, disabled), listing) <==> !Before(listing, m, n)
  {
    var rs' := Created(rs, n, local, disabled);
    assert Right(rs, local, m);
    assert m in listing;
    var i :| 0 <= i < |listing| && listing[i] == m;
    assert forall j | 0 <= j < |listing| :: listing[j] in listing && listing[j] in rs';
    LastOfId(rs', listing, i);
    forall j | i < j < |listing|
      ensures rs'[listing[j]].clusterId == local <==> listing[j] == n
    {
      assert listing[j] in listing && listing[j] != m;
    }
    var t := ById(rs', listing);
    assert m in Watched(rs', listing) <==> t[local] == m;
  }

  /** With the requests of a creation in a settled group, being overlooked is being listed in front
      of the new resource. */
  lemma OverlookedMeansBehind(
    rs: Resources, local: ClusterId, n: string, id: ClusterId, disabled: bool, listing: seq<string>)
    requires AllRight(rs, local) && n !in rs && IsListing(listing, rs.Keys + {n})
    ensures Overlooked(rs, local, id, disabled, Watched(Created(rs, n, id, disabled), listing) + {n})
       <==> ListedBehind(rs, local, n, id, disabled, listing)
  {
    if disabled && id == local {
      forall m | m in rs && Local(rs, local, m) && !HasRival(rs, local, m)
        ensures m in Watched(Created(rs, n, id, disabled), listing) <==> !Before(listing, m, n)
      {
        WatchedUnlessBehind(rs, local, n, disabled, listing, m);
      }
    }
  }

  /** A resource appears in a settled group, and its own request and those of the watch are handled
      in any order: the flags end up wrong exactly when the new resource is disabled, claims the
      local ID, and is listed behind an enabled one without a rival. */
  lemma CreationSettlesRight(
    local: ClusterId, rs: Resources, n: string, id: ClusterId, disabled: bool, listing: seq<string>,
    ss: seq<State>, ns: seq<string>)
    requires AllRight(rs, local) && n !in rs && IsListing(listing, rs.Keys + {n}) && |ss| == |ns| + 1
    requires ss[0] == State(Created(rs, n, id, disabled), Watched(Created(rs, n, id, disabled), listing) + {n})
    requires forall i | 0 <= i < |ns| :: ns[i] in ss[i].queue && Step(local, ss[i], ns[i], ss[i + 1])
    requires ss[|ns|].queue == {}
    ensures AllRight(ss[|ns|].resources, local) <==> !ListedBehind(rs, local, n, id, disabled, listing)
  {
    RequestsSettleRight(local, rs, n, id, disabled, ss, ns);
    OverlookedMeansBehind(rs, local, n, id, disabled, listing);
  }

  /** It happens: "a" is local and settled, a disabled "b" of the same ID appears and is listed
      second, the watch finds only "b", and its reconcile leaves the queue empty and "a" wrong. */
  lemma DisabledRivalUnnoticed(local: ClusterId)
    ensures var rs := map["a" := Resource(local, false, NoConflict)];
            var s := State(Created(rs, "b", local, true), Watched(Created(rs, "b", local, true), ["a", "b"]) + {"b"});
            var s' := s.(queue := {});
            && AllRight(rs, local) && IsListing(["a", "b"], rs.Keys + {"b"})
            && Step(local, s, "b", s') && !AllRight(s'.resources, local)
  {
    var rs := map["a" := Resource(local, false, NoConflict)];
    var rs', listing := Created(rs, "b", local, true), ["a", "b"];
    assert listing[..1] == ["a"] && listing[..1][..0] == [];
    assert ById(rs', listing) == map[local := "b"];
    assert Watched(rs', listing) == {};
    assert rs'["b" := rs'["b"].(flag := Unset)] == rs';
    assert {} + {"b"} - {"b"} == {};
    RivalAdded(rs, local, "b", local, true, "a");
    assert Local(rs', local, "a");
  }

  lemma DrainOnce(local: ClusterId, s: State, n: string, s': State, changed: string)
    requires n in s.queue && Step(local, s, n, s')
    ensures OnTrack(s, local, changed) ==> OnTrack(s', local, changed)
    ensures forall m | Stuck(s, local, m) :: Stuck(s', local, m)
    ensures Claims(s'.resources) == Claims(s.resources)
    ensures |Absent(s')| < |Absent(s)| || (Absent(s') == Absent(s) && Pressure(s', local) < Pressure(s, local))
  {
    if OnTrack(s, local, changed) {
      StepOnTrack(local, s, n, s', changed);
    }
    forall m | Stuck(s, local, m)
      ensures Stuck(s', local, m)
    {
      StaysStuck(local, s, n, s', m);
    }
    StepDecreases(local, s, n, s');
    StepFacts(local, s, n, s');
  }

  /** What users declare: the cluster ID of each resource, and whether it is disabled. */
  function Claims(rs: Resources): map<string, (ClusterId, bool)> {
    map n | n in rs :: (rs[n].clusterId, rs[n].disabled)
  }

  /** A resource appears, or disappears; the watch lists the resources in the given order. */
  datatype Change =
    | Creation(name: string, id: ClusterId, disabled: bool, listing: seq<string>)
    | Removal(name: string, listing: seq<string>)

  /** What is declared after a change; a name that is taken cannot be created again. */
  function Changed(claims: map<string, (ClusterId, bool)>, c: Change): map<string, (ClusterId, bool)> {
    match c
    case Creation(n, id, disabled, _) => if n in claims then claims else claims[n := (id, disabled)]
    case Removal(n, _) => claims - {n}
  }

  function ChangedAll(claims: map<string, (ClusterId, bool)>, cs: seq<Change>): map<string, (ClusterId, bool)> {
    if cs == [] then claims else Changed(ChangedAll(claims, cs[..|cs| - 1]), cs[|cs| - 1])
  }

  class ConflictController {
    const local: ClusterId
    var resources: Resources
    var queue: set<string>

    constructor (local: ClusterId)
      ensures this.local == local && resources == map[] && queue == {} && AllRight(resources, local)
    {
      this.local := local;
      resources, queue := map[], {};
    }

    function Now(): State
      reads this
    {
      State(resources, queue)
    }

    method CheckLocalConflict(n: string)
      requires Local(resources, local, n) && n !in queue
      modifies this
      ensures Step(local, old(State(resources, queue + {n})), n, Now())
    {
      assert queue + {n} - {n} == queue;
      var todo := resources.Keys;
      while todo != {}
        invariant todo <= resources.Keys && Now() == old(Now())
        invariant forall m | m in resources.Keys - todo :: m == n || resources[m].clusterId != local
        decreases todo
      {
        var m :| m in todo;
        todo := todo - {m};
        if m == n {
          continue;
        }
        if resources[m].clusterId == resources[n].clusterId {
          if resources[m].flag == NoConflict {
            queue := queue + {m};
          } else {
            assert queue == queue + {};
          }
          resources := resources[n := resources[n].(flag := Conflict)];
          return;
        }
      }
      resources := resources[n := resources[n].(flag := NoConflict)];
    }

    method Reconcile(n: string)
      requires n in queue
      modifies this
      ensures Step(local, old(Now()), n, Now())
    {
      ghost var before := Now();
      queue := queue - {n};
      if n !in resources {
        queue := queue + Flagged(resources);
        return;
      }
      if resources[n].disabled {
        resources := resources[n := resources[n].(flag := Unset)];
        return;
      }
      if resources[n].clusterId == local {
        assert queue + {n} == before.queue;
        CheckLocalConflict(n);
      }
    }

    /** Handle one request, whichever comes. */
    method HandleOne(ghost changed: string)
      requires queue != {}
      modifies this
      ensures old(OnTrack(Now(), local, changed)) ==> OnTrack(Now(), local, changed)
      ensures forall m | Stuck(old(Now()), local, m) :: Stuck(Now(), local, m)
      ensures Claims(resources) == old(Claims(resources))
      ensures |Absent(Now())| < |Absent(old(Now()))|
           || (|Absent(Now())| == |Absent(old(Now()))| && Pressure(Now(), local) < Pressure(old(Now()), local))
    {
      var n :| n in queue;
      ghost var before := Now();
      Reconcile(n);
      DrainOnce(local, before, n, Now(), changed);
    }

    /** Handle requests until none is left. */
    method Drain(ghost changed: string)
      modifies this
      ensures queue == {} && (old(OnTrack(Now(), local, changed)) ==> AllRight(resources, local))
      ensures forall m | Stuck(old(Now()), local, m) :: Stuck(Now(), local, m)
      ensures Claims(resources) == old(Claims(resources))
    {
      while queue != {}
        invariant old(OnTrack(Now(), local, changed)) ==> OnTrack(Now(), local, changed)
        invariant forall m | Stuck(old(Now()), local, m) :: Stuck(Now(), local, m)
        invariant Claims(resources) == old(Claims(resources))
        decreases |Absent(Now())|, Pressure(Now(), local)
      {
        HandleOne(changed);
      }
    }

    /** The requests of the watch, for a listing of the resources in whatever order. */
    method WatchRequests(listing: seq<string>) returns (requests: set<string>)
      ensures requests == Watched(resources, listing)
    {
      var table := map[];
      for i := 0 to |listing|
        invariant table == ById(resources, listing[..i])
      {
        assert listing[..i + 1][..i] == listing[..i];
        if listing[i] in resources {
          table := table[resources[listing[i]].clusterId := listing[i]];
        }
      }
      assert listing[..|listing|] == listing;
      requests := {};
      var todo := table.Keys;
      while todo != {}
        invariant todo <= table.Keys
        invariant requests == set id | id in table.Keys - todo && resources[table[id]].flag != Unset :: table[id]
        decreases todo
      {
        var id :| id in todo;
        todo := todo - {id};
        if resources[table[id]].flag != Unset {
          requests := requests + {table[id]};
        }
      }
    }

    /** A resource appears. Its own request and those of the watch are handled until none is left. */
    method Create(n: string, id: ClusterId, disabled: bool, listing: seq<string>)
      requires n !in resources
      modifies this
      ensures queue == {} && Claims(resources) == old(Claims(resources))[n := (id, disabled)]
      ensures old(AllRight(resources, local)) && !disabled ==> AllRight(resources, local)
      ensures old(AllRight(resources, local) && queue == {} && IsListing(listing, resources.Keys + {n})) ==>
                (AllRight(resources, local) <==> !old(ListedBehind(resources, local, n, id, disabled, listing)))
    {
      ghost var rs, right := resources, AllRight(resources, local);
      resources := resources[n := Resource(id, disabled, Unset)];
      var requests := WatchRequests(listing);
      queue := queue + (requests + {n});
      ghost var stuck, overlooked := n, right && Overlooked(rs, local, id, disabled, queue);
      if right {
        CreatedOnTrack(rs, local, n, id, disabled, queue);
        if IsListing(listing, rs.Keys + {n}) {
          OverlookedMeansBehind(rs, local, n, id, disabled, listing);
        }
      }
      if overlooked {
        stuck := OverlookedIsStuck(rs, local, n, id, disabled, queue);
      }
      Drain(n);
      if overlooked {
        StuckIsWrong(Now(), local, stuck);
      }
    }

    method Delete(n: string, listing: seq<string>)
      modifies this
      ensures queue == {} && (old(AllRight(resources, local)) ==> AllRight(resources, local))
      ensures Claims(resources) == old(Claims(resources)) - {n}
    {
      ghost var rs := resources;
      resources := resources - {n};
      var requests := WatchRequests(listing);
      queue := queue + requests + {n};
      if AllRight(rs, local) {
        DeletedOnTrack(rs, local, n, queue);
      }
      Drain(n);
    }

    /** Any sequence of creations and removals, each followed by its requests: exactly the declared
        resources are there, and if the created ones were enabled, every flag is right. */
    method Serve(changes: seq<Change>)
      requires AllRight(resources, local) && queue == {}
      modifies this
      ensures queue == {} && Claims(resources) == ChangedAll(old(Claims(resources)), changes)
      ensures (forall c | c in changes && c.Creation? :: !c.disabled) ==> AllRight(resources, local)
    {
      for i := 0 to |changes|
        invariant queue == {} && Claims(resources) == ChangedAll(old(Claims(resources)), changes[..i])
        invariant (forall c | c in changes && c.Creation? :: !c.disabled) ==> AllRight(resources, local)
      {
        assert changes[..i + 1][..i] == changes[..i];
        var c := changes[i];
        assert c in changes;
        match c
        case Creation(n, id, disabled, listing) =>
          if n !in resources {
            Create(n, id, disabled, listing);
          }
        case Removal(n, listing) =>
          Delete(n, listing);
      }
      assert changes[..|changes|] == changes;
    }
  }
}
