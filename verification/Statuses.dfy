/** Statuses in a converged mesh. No ownership protects a status: a refused offer still writes the one
    it carries. So statuses are gossiped, and this module says exactly when they settle. */
module Statuses {
  import opened Objects
  import opened Rules
  import opened Sync
  import opened Protocol
  import opened Convergence
  import opened Gossip
  import Safety

  /******* Rules that do not sync statuses, and statuses that agree *******/

  /** The object at (l, k) did not change at all. */
  predicate Fixed(w: World, w': World, l: ClusterId, k: Key) {
    (w.Has(l, k) <==> w'.Has(l, k)) && (w.Has(l, k) ==> w'.At(l)[k] == w.At(l)[k])
  }

  predicate NoStatus(spec: RuleSpec) {
    forall r | r in spec.rules :: !r.mutations.syncStatus
  }

  /** A rule that does not sync statuses writes none: unchanged up to status is unchanged. */
  lemma SameIsFixed(m: Mesh, w: World, s: Step, k: Key)
    requires NoStatus(m.spec) && MeshStep(m, s) && Same(w, Effect(w, s), s.at, k)
    ensures Fixed(w, Effect(w, s), s.at, k)
  {
    if w.Has(s.at, k) {
      Safety.StatusExact(w, s, k);
    }
  }

  /** Steps that changed anything about their cluster's version of the object. */
  ghost function ExactWrites(m: Mesh, ws: seq<World>, steps: seq<Step>): seq<nat>
    requires |ws| == |steps| + 1
  {
    seq(|steps|, i requires 0 <= i < |steps| => if Fixed(ws[i], ws[i + 1], steps[i].at, m.target) then 0 else 1)
  }

  /** For rules that do not sync statuses the bound on the work counts every change. */
  lemma ExactWriteBound(m: Mesh, ws: seq<World>, steps: seq<Step>)
    requires MeshRun(m, ws, steps) && NoStatus(m.spec)
    ensures Sum(ExactWrites(m, ws, steps)) + |Todo(m, ws[|steps|])| <= |Todo(m, ws[0])|
  {
    forall i | 0 <= i < |steps|
      ensures ExactWrites(m, ws, steps)[i] == Writes(m, ws, steps)[i]
    {
      RunReady(m, ws, steps, i);
      if Same(ws[i], ws[i + 1], steps[i].at, m.target) {
        SameIsFixed(m, ws[i], steps[i], m.target);
      }
    }
    assert ExactWrites(m, ws, steps) == Writes(m, ws, steps);
    WriteBound(m, ws, steps);
  }

  /** c offers its status to the target. */
  predicate Gossips(m: Mesh, w: World, c: ClusterId) {
    var i := Offered(m, w, c);
    i.Offer? && i.syncStatus && KeyOf(i.desired) == m.target
  }

  function StatusAt(w: World, c: ClusterId, k: Key): string {
    if w.Has(c, k) then w.At(c)[k].status else ""
  }

  /** c offers l the status l's version of the object has, or none. */
  predicate StatusAgrees(m: Mesh, w: World, l: ClusterId, c: ClusterId) {
    w.Has(l, m.target) && Gossips(m, w, c) ==> StatusAt(w, c, m.src) == StatusAt(w, l, m.target)
  }

  ghost predicate StatusesAgree(m: Mesh, w: World) {
    forall l, c | l in m.clusters && c in m.clusters && l != c :: StatusAgrees(m, w, l, c)
  }

  /** What a step of a converged mesh does to a version: nothing, unless it brings another status. */
  lemma FixedExactly(m: Mesh, w: World, s: Step)
    requires Ready(m, w) && MeshStep(m, s) && Converged(m, w)
    ensures Fixed(w, Effect(w, s), s.at, m.target) <==>
            !(&& w.Has(s.at, m.target) && Safety.WritesStatus(w, s, m.target)
              && Read(s.spec, s.from, w.At(s.from), s.key).desired.status != w.At(s.at)[m.target].status)
  {
    ConvergedIsStable(m, w, s);
    if w.Has(s.at, m.target) {
      Safety.StatusExact(w, s, m.target);
    }
  }

  /** Only the object's own request writes a status to the target. */
  lemma StatusSource(m: Mesh, w: World, s: Step)
    requires Ready(m, w) && MeshStep(m, s) && Safety.WritesStatus(w, s, m.target)
    ensures s.key == m.src
  {
    assert WellKeyed(w.At(s.from));
    OfferFacts(Config(s.spec, s.from, s.at), w.At(s.from), s.key);
  }

  lemma AgreementFixes(m: Mesh, w: World, s: Step)
    requires Ready(m, w) && MeshStep(m, s) && Converged(m, w) && StatusesAgree(m, w)
    ensures Fixed(w, Effect(w, s), s.at, m.target)
  {
    FixedExactly(m, w, s);
    if w.Has(s.at, m.target) && Safety.WritesStatus(w, s, m.target) {
      StatusSource(m, w, s);
      assert StatusAgrees(m, w, s.at, s.from);
    }
  }

  ghost predicate Immovable(m: Mesh, w: World) {
    forall s | MeshStep(m, s) :: Fixed(w, Effect(w, s), s.at, m.target)
  }

  lemma FixedAgrees(m: Mesh, w: World, l: ClusterId, c: ClusterId)
    requires Ready(m, w) && Converged(m, w) && l in m.clusters && c in m.clusters && l != c
    requires Fixed(w, Effect(w, SyncStep(l, c, m.spec, m.src, false)), l, m.target)
    ensures StatusAgrees(m, w, l, c)
  {
    FixedExactly(m, w, SyncStep(l, c, m.spec, m.src, false));
    OfferInNamespace(m, w, c);
  }

  lemma ReadIsMeshStep(m: Mesh, l: ClusterId, c: ClusterId)
    requires GoodRule(m) && l in m.clusters && c in m.clusters && l != c
    ensures MeshStep(m, SyncStep(l, c, m.spec, m.src, false))
  {
  }

  /** A converged mesh is left exactly as it is by every step if and only if all the statuses that
      are offered agree with those that are held; a refused offer still writes its status. */
  lemma StableExactly(m: Mesh, w: World)
    requires Ready(m, w) && Converged(m, w)
    ensures Immovable(m, w) <==> StatusesAgree(m, w)
  {
    if StatusesAgree(m, w) {
      forall s | MeshStep(m, s)
        ensures Fixed(w, Effect(w, s), s.at, m.target)
      {
        AgreementFixes(m, w, s);
      }
    }
    if Immovable(m, w) {
      forall l, c | l in m.clusters && c in m.clusters && l != c
        ensures StatusAgrees(m, w, l, c)
      {
        ReadIsMeshStep(m, l, c);
        FixedAgrees(m, w, l, c);
      }
    }
  }

  lemma OfferInNamespace(m: Mesh, w: World, c: ClusterId)
    requires WellFormed(w) && c != ""
    ensures Offered(m, w, c).Offer? ==> Offered(m, w, c).desired.namespace == m.src.namespace
  {
    assert WellKeyed(w.At(c));
    if Offered(m, w, c).Offer? {
      OfferFacts(Config(m.spec, c, c), w.At(c), m.src);
    }
  }

  lemma NoStatusAgrees(m: Mesh, w: World)
    requires NoStatus(m.spec)
    ensures StatusesAgree(m, w)
  {
  }

  /** What c holds under the source key is what it held before the step, status included. */
  lemma SourceFixed(m: Mesh, w: World, s: Step, c: ClusterId)
    requires Ready(m, w) && MeshStep(m, s) && Converged(m, w) && StatusesAgree(m, w)
    requires c in m.clusters && Effect(w, s).Has(c, m.src)
    ensures w.Has(c, m.src) && Effect(w, s).At(c)[m.src] == w.At(c)[m.src]
  {
    if c == s.at {
      AgreementFixes(m, w, s);
      if m.src != m.target {
        Outcome(m, w, s, m.src);
        Safety.StatusExact(w, s, m.src);
        NoStatusAtSource(m, w, s);
      }
    }
  }

  lemma NoStatusAtSource(m: Mesh, w: World, s: Step)
    requires Ready(m, w) && MeshStep(m, s) && m.src != m.target
    ensures !Safety.WritesStatus(w, s, m.src)
  {
    assert WellKeyed(w.At(s.from)) && GoodOffer(m, w, s.from);
    if Read(s.spec, s.from, w.At(s.from), s.key).Offer? {
      OfferFacts(Config(s.spec, s.from, s.at), w.At(s.from), s.key);
    }
  }

  lemma StillAgrees(m: Mesh, w: World, w': World, l: ClusterId, c: ClusterId)
    requires StatusAgrees(m, w, l, c) && Fixed(w, w', l, m.target)
    requires w'.Has(c, m.src) ==> w.Has(c, m.src) && w'.At(c)[m.src] == w.At(c)[m.src]
    ensures StatusAgrees(m, w', l, c)
  {
  }

  lemma AllFixed(m: Mesh, w: World, s: Step, l: ClusterId)
    requires Ready(m, w) && MeshStep(m, s) && Converged(m, w) && StatusesAgree(m, w) && l in m.clusters
    ensures Fixed(w, Effect(w, s), l, m.target)
  {
    if l == s.at {
      AgreementFixes(m, w, s);
    }
  }

  lemma AgreementAt(m: Mesh, w: World, s: Step, l: ClusterId, c: ClusterId)
    requires Ready(m, w) && MeshStep(m, s) && Converged(m, w) && StatusesAgree(m, w)
    requires l in m.clusters && c in m.clusters && l != c
    ensures StatusAgrees(m, Effect(w, s), l, c)
  {
    AllFixed(m, w, s, l);
    if Effect(w, s).Has(c, m.src) {
      SourceFixed(m, w, s, c);
    }
    StillAgrees(m, w, Effect(w, s), l, c);
  }

  lemma AgreementStep(m: Mesh, w: World, s: Step)
    requires Ready(m, w) && MeshStep(m, s) && Converged(m, w) && StatusesAgree(m, w)
    ensures StatusesAgree(m, Effect(w, s))
    ensures forall l | l in m.clusters :: Fixed(w, Effect(w, s), l, m.target)
  {
    forall l | l in m.clusters
      ensures Fixed(w, Effect(w, s), l, m.target)
    {
      AllFixed(m, w, s, l);
    }
    forall l, c | l in m.clusters && c in m.clusters && l != c
      ensures StatusAgrees(m, Effect(w, s), l, c)
    {
      AgreementAt(m, w, s, l, c);
    }
  }

  ghost predicate Settled(m: Mesh, w: World) {
    Ready(m, w) && Converged(m, w) && StatusesAgree(m, w)
  }

  lemma SettledStep(m: Mesh, w: World, s: Step)
    requires Settled(m, w) && MeshStep(m, s)
    ensures Settled(m, Effect(w, s))
    ensures forall l | l in m.clusters :: Fixed(w, Effect(w, s), l, m.target)
  {
    ConvergedStep(m, w, s);
    AgreementStep(m, w, s);
  }

  /** Settled, with every version of the object as in w0. */
  ghost predicate SettledAs(m: Mesh, w0: World, w: World) {
    Settled(m, w) && forall l | l in m.clusters :: Fixed(w0, w, l, m.target)
  }

  lemma SettledForGood(m: Mesh, ws: seq<World>, steps: seq<Step>, i: nat, j: nat)
    requires Run(ws, steps) && (forall s | s in steps :: MeshStep(m, s)) && i <= j < |ws| && Settled(m, ws[i])
    ensures Settled(m, ws[j]) && forall l | l in m.clusters :: Fixed(ws[i], ws[j], l, m.target)
  {
    forall n | i <= n < j && SettledAs(m, ws[i], ws[n])
      ensures SettledAs(m, ws[i], ws[n + 1])
    {
      assert steps[n] in steps;
      SettledStep(m, ws[n], steps[n]);
    }
    Invariant(w => SettledAs(m, ws[i], w), ws, i, j);
  }

  /** Once converged, with statuses that agree or a rule that does not sync them, every version of
      the object stays exactly as it is through any further run. */
  lemma ConvergedForGood(m: Mesh, ws: seq<World>, steps: seq<Step>, i: nat, j: nat)
    requires MeshRun(m, ws, steps) && i <= j < |ws|
    requires Converged(m, ws[i]) && (StatusesAgree(m, ws[i]) || NoStatus(m.spec))
    ensures Settled(m, ws[j]) && forall l | l in m.clusters :: Fixed(ws[i], ws[j], l, m.target)
  {
    RunReady(m, ws, steps, i);
    if NoStatus(m.spec) {
      NoStatusAgrees(m, ws[i]);
    }
    SettledForGood(m, ws, steps, i, j);
  }

  /******* What a step does to every status *******/

  lemma AllSame(m: Mesh, w: World, s: Step)
    requires Ready(m, w) && Converged(m, w) && MeshStep(m, s)
    ensures forall c | c in m.clusters :: Same(w, Effect(w, s), c, m.target)
  {
    ConvergedIsStable(m, w, s);
    OthersUnmoved(m, w, s);
  }

  /** A step that writes a status to the target takes it from a cluster that gossips. */
  lemma Teller(m: Mesh, w: World, s: Step)
    requires Ready(m, w) && MeshStep(m, s) && Safety.WritesStatus(w, s, m.target)
    ensures s.key == m.src && Gossips(m, w, s.from)
    ensures Read(s.spec, s.from, w.At(s.from), s.key).desired.status == StatusAt(w, s.from, m.src)
  {
    StatusSource(m, w, s);
  }

  /** The statuses that are held after any step of a converged mesh: the stepping cluster takes over
      what it is told, whoever owns the object, and nothing else changes. */
  lemma HeldAfter(m: Mesh, w: World, s: Step, l: ClusterId)
    requires Ready(m, w) && Converged(m, w) && MeshStep(m, s) && l in m.clusters
    ensures Effect(w, s).Has(l, m.target) <==> w.Has(l, m.target)
    ensures w.Has(l, m.target) ==>
              StatusAt(Effect(w, s), l, m.target) ==
              if l == s.at && Safety.WritesStatus(w, s, m.target) then StatusAt(w, s.from, m.src)
              else StatusAt(w, l, m.target)
  {
    AllSame(m, w, s);
    assert Same(w, Effect(w, s), l, m.target);
    if l == s.at && w.Has(l, m.target) {
      Safety.StatusExact(w, s, m.target);
      if Safety.WritesStatus(w, s, m.target) {
        Teller(m, w, s);
      }
    }
  }

  /** The same under the source key, where a foreign copy can also be withdrawn. */
  lemma OwnAfter(m: Mesh, w: World, s: Step, c: ClusterId)
    requires Ready(m, w) && Converged(m, w) && MeshStep(m, s) && c in m.clusters && Effect(w, s).Has(c, m.src)
    ensures w.Has(c, m.src) && Same(w, Effect(w, s), c, m.src)
    ensures StatusAt(Effect(w, s), c, m.src) ==
            if c == s.at && m.target == m.src && Safety.WritesStatus(w, s, m.target) then StatusAt(w, s.from, m.src)
            else StatusAt(w, c, m.src)
  {
    if m.target == m.src {
      AllSame(m, w, s);
      assert Same(w, Effect(w, s), c, m.target);
      HeldAfter(m, w, s, c);
    } else if c == s.at {
      Outcome(m, w, s, m.src);
      Safety.StatusExact(w, s, m.src);
      NoStatusAtSource(m, w, s);
    }
  }

  /** Whether a cluster gossips does not depend on statuses. */
  lemma GossipsSame(m: Mesh, w: World, w': World, c: ClusterId)
    requires w.Has(c, m.src) && Same(w, w', c, m.src)
    ensures Gossips(m, w, c) <==> Gossips(m, w', c)
  {
    ReadIgnoresStatus(m.spec, c, w'.At(c), w.At(c), m.src);
  }

  lemma GossipedBefore(m: Mesh, w: World, s: Step, c: ClusterId)
    requires Ready(m, w) && Converged(m, w) && MeshStep(m, s) && c in m.clusters && Gossips(m, Effect(w, s), c)
    ensures Gossips(m, w, c)
  {
    OwnAfter(m, w, s, c);
    GossipsSame(m, w, Effect(w, s), c);
  }

  function ReadOf(m: Mesh, r: Pair): Step {
    SyncStep(r.0, r.1, m.spec, m.src, false)
  }

  /** An unlimited read of the object writes a status exactly when the cluster read from gossips. */
  lemma ReadWrites(m: Mesh, w: World, r: Pair)
    requires Ready(m, w) && r.0 in m.clusters && r.1 in m.clusters && r.0 != r.1
    ensures MeshStep(m, ReadOf(m, r)) && (Safety.WritesStatus(w, ReadOf(m, r), m.target) <==> Gossips(m, w, r.1))
  {
    ReadIsMeshStep(m, r.0, r.1);
    OfferInNamespace(m, w, r.1);
  }

  /******* No holder is offered two different statuses *******/

  predicate OffersAgreeAt(m: Mesh, w: World, l: ClusterId, a: ClusterId, b: ClusterId) {
    w.Has(l, m.target) && Gossips(m, w, a) && Gossips(m, w, b) ==> StatusAt(w, a, m.src) == StatusAt(w, b, m.src)
  }

  /** No cluster that holds the object is offered two different statuses by others. */
  ghost predicate OffersAgree(m: Mesh, w: World) {
    forall l, a, b {:trigger OffersAgreeAt(m, w, l, a, b)} |
      l in m.clusters && a in m.clusters && b in m.clusters && a != l && b != l :: OffersAgreeAt(m, w, l, a, b)
  }

  ghost predicate Tame(m: Mesh, w: World) {
    Ready(m, w) && Converged(m, w) && OffersAgree(m, w)
  }

  /** What a offers after the step is what b offered before it. */
  lemma OfferMoves(m: Mesh, w: World, s: Step, l: ClusterId, a: ClusterId, b: ClusterId)
    requires Tame(m, w) && MeshStep(m, s) && {l, a, b} <= m.clusters && a != l && b != l && a != b
    requires w.Has(l, m.target) && Gossips(m, Effect(w, s), a) && Gossips(m, w, b)
    ensures StatusAt(Effect(w, s), a, m.src) == StatusAt(w, b, m.src)
  {
    GossipedBefore(m, w, s, a);
    OwnAfter(m, w, s, a);
    assert OffersAgreeAt(m, w, l, a, b);
    if s.at == a && m.target == m.src && Safety.WritesStatus(w, s, m.target) {
      Teller(m, w, s);
      TellersAgree(m, w, l, s.from, a, b);
    }
  }

  lemma OffersAgreeAfter(m: Mesh, w: World, s: Step, l: ClusterId, a: ClusterId, b: ClusterId)
    requires Tame(m, w) && MeshStep(m, s) && {l, a, b} <= m.clusters && a != l && b != l && a != b && s.at != b
    ensures OffersAgreeAt(m, Effect(w, s), l, a, b)
  {
    if Effect(w, s).Has(l, m.target) && Gossips(m, Effect(w, s), a) && Gossips(m, Effect(w, s), b) {
      HeldAfter(m, w, s, l);
      GossipedBefore(m, w, s, b);
      OwnAfter(m, w, s, b);
      OfferMoves(m, w, s, l, a, b);
    }
  }

  /** Whoever told a, it was told what b tells: seen from l, or from a itself if it was l who told. */
  lemma TellersAgree(m: Mesh, w: World, l: ClusterId, from: ClusterId, a: ClusterId, b: ClusterId)
    requires OffersAgree(m, w) && {l, from, a, b} <= m.clusters && a != l && b != l && a != b && from != a
    requires Gossips(m, w, from) && Gossips(m, w, a) && Gossips(m, w, b) && m.target == m.src && w.Has(l, m.target)
    ensures StatusAt(w, from, m.src) == StatusAt(w, b, m.src)
  {
    assert w.Has(a, m.src);
    if from == l {
      assert OffersAgreeAt(m, w, a, l, b);
    } else {
      assert OffersAgreeAt(m, w, l, from, b);
    }
  }

  lemma OffersAgreeStep(m: Mesh, w: World, s: Step, l: ClusterId, a: ClusterId, b: ClusterId)
    requires Tame(m, w) && MeshStep(m, s) && {l, a, b} <= m.clusters && a != l && b != l
    ensures OffersAgreeAt(m, Effect(w, s), l, a, b)
  {
    if a != b && s.at != b {
      OffersAgreeAfter(m, w, s, l, a, b);
    } else if a != b {
      OffersAgreeAfter(m, w, s, l, b, a);
    }
  }

  lemma TameStep(m: Mesh, w: World, s: Step)
    requires Tame(m, w) && MeshStep(m, s)
    ensures Tame(m, Effect(w, s))
  {
    ConvergedStep(m, w, s);
    AllOffersAgree(m, w, s);
  }

  lemma AllOffersAgree(m: Mesh, w: World, s: Step)
    requires Tame(m, w) && MeshStep(m, s)
    ensures OffersAgree(m, Effect(w, s))
  {
    forall l, a, b | l in m.clusters && a in m.clusters && b in m.clusters && a != l && b != l
      ensures OffersAgreeAt(m, Effect(w, s), l, a, b)
    {
      OffersAgreeStep(m, w, s, l, a, b);
    }
  }

  /** Then what l once got from c, it keeps in step with c. */
  lemma AgreesAfter(m: Mesh, w: World, s: Step, l: ClusterId, c: ClusterId)
    requires Tame(m, w) && MeshStep(m, s) && l in m.clusters && c in m.clusters && l != c
    requires StatusAgrees(m, w, l, c)
    ensures StatusAgrees(m, Effect(w, s), l, c)
  {
    var w' := Effect(w, s);
    if w'.Has(l, m.target) && Gossips(m, w', c) {
      HeldAfter(m, w, s, l);
      GossipedBefore(m, w, s, c);
      OwnAfter(m, w, s, c);
      if Safety.WritesStatus(w, s, m.target) {
        Teller(m, w, s);
        assert s.from != l ==> OffersAgreeAt(m, w, l, c, s.from);
      }
    }
  }

  lemma ReadAgrees(m: Mesh, w: World, l: ClusterId, c: ClusterId)
    requires Ready(m, w) && Converged(m, w) && l in m.clusters && c in m.clusters && l != c
    ensures StatusAgrees(m, Effect(w, ReadOf(m, (l, c))), l, c)
  {
    var s := ReadOf(m, (l, c));
    ReadWrites(m, w, (l, c));
    if Effect(w, s).Has(l, m.target) && Gossips(m, Effect(w, s), c) {
      HeldAfter(m, w, s, l);
      GossipedBefore(m, w, s, c);
      OwnAfter(m, w, s, c);
    }
  }

  lemma TameRun(m: Mesh, ws: seq<World>, steps: seq<Step>, i: nat)
    requires Run(ws, steps) && (forall s | s in steps :: MeshStep(m, s)) && Tame(m, ws[0]) && i < |ws|
    ensures Tame(m, ws[i])
  {
    forall n | 0 <= n < |steps| && Tame(m, ws[n])
      ensures Tame(m, ws[n + 1])
    {
      assert steps[n] in steps;
      TameStep(m, ws[n], steps[n]);
    }
    Invariant(w => Tame(m, w), ws, 0, i);
  }

  ghost predicate TamePair(m: Mesh, w: World, l: ClusterId, c: ClusterId) {
    Tame(m, w) && StatusAgrees(m, w, l, c)
  }

  lemma PairStaysTame(m: Mesh, ws: seq<World>, steps: seq<Step>, l: ClusterId, c: ClusterId, i: nat, j: nat)
    requires Run(ws, steps) && (forall s | s in steps :: MeshStep(m, s)) && i <= j < |ws|
    requires l in m.clusters && c in m.clusters && l != c && TamePair(m, ws[i], l, c)
    ensures StatusAgrees(m, ws[j], l, c)
  {
    forall n | i <= n < j && TamePair(m, ws[n], l, c)
      ensures TamePair(m, ws[n + 1], l, c)
    {
      assert steps[n] in steps;
      TameStep(m, ws[n], steps[n]);
      AgreesAfter(m, ws[n], steps[n], l, c);
    }
    Invariant(w => TamePair(m, w, l, c), ws, i, j);
  }

  lemma TameSettlesAt(m: Mesh, ws: seq<World>, steps: seq<Step>, l: ClusterId, c: ClusterId)
    requires Run(ws, steps) && (forall s | s in steps :: MeshStep(m, s)) && Tame(m, ws[0])
    requires l in m.clusters && c in m.clusters && l != c && ReadOf(m, (l, c)) in steps
    ensures StatusAgrees(m, ws[|steps|], l, c)
  {
    var i :| 0 <= i < |steps| && steps[i] == ReadOf(m, (l, c));
    TameRun(m, ws, steps, i);
    ReadAgrees(m, ws[i], l, c);
    TameRun(m, ws, steps, i + 1);
    PairStaysTame(m, ws, steps, l, c, i + 1, |steps|);
  }

  ghost predicate AlwaysSettles(m: Mesh, w: World) {
    forall ws, steps | MeshRun(m, ws, steps) && ws[0] == w && Fair(m, steps) :: StatusesAgree(m, ws[|steps|])
  }

  lemma TameSettles(m: Mesh, w: World)
    requires Tame(m, w)
    ensures AlwaysSettles(m, w)
  {
    forall ws, steps | MeshRun(m, ws, steps) && ws[0] == w && Fair(m, steps)
      ensures StatusesAgree(m, ws[|steps|])
    {
      forall l, c | l in m.clusters && c in m.clusters && l != c
        ensures StatusAgrees(m, ws[|steps|], l, c)
      {
        assert SyncStep(l, c, m.spec, m.src, false) in steps;
        TameSettlesAt(m, ws, steps, l, c);
      }
    }
  }

  /******* Some holder is offered two different statuses: the object keeps its kind *******/

  /** The clusters that gossip, in a mesh whose copies are written to the source key. */
  ghost predicate Shared(m: Mesh, w: World, tellers: set<ClusterId>) {
    && Ready(m, w) && Converged(m, w) && m.target == m.src && tellers <= m.clusters
    && forall c | c in m.clusters :: w.Has(c, m.src) && (c in tellers <==> Gossips(m, w, c))
  }

  function BoardOf(m: Mesh, w: World): Board {
    map c | c in m.clusters :: StatusAt(w, c, m.src)
  }

  lemma SharedStep(m: Mesh, w: World, tellers: set<ClusterId>, s: Step)
    requires Shared(m, w, tellers) && MeshStep(m, s)
    ensures Shared(m, Effect(w, s), tellers)
  {
    ConvergedStep(m, w, s);
    AllSame(m, w, s);
    forall c | c in m.clusters
      ensures Effect(w, s).Has(c, m.src) && (c in tellers <==> Gossips(m, Effect(w, s), c))
    {
      assert Same(w, Effect(w, s), c, m.target);
      GossipsSame(m, w, Effect(w, s), c);
    }
  }

  /** A read in the mesh is a read on the board. */
  lemma ReadTells(m: Mesh, w: World, tellers: set<ClusterId>, r: Pair)
    requires Shared(m, w, tellers) && IsRead(BoardOf(m, w), r)
    ensures BoardOf(m, Effect(w, ReadOf(m, r))) == Told(BoardOf(m, w), tellers, r)
  {
    var b, b' := Told(BoardOf(m, w), tellers, r), BoardOf(m, Effect(w, ReadOf(m, r)));
    forall c | c in m.clusters
      ensures b'[c] == b[c]
    {
      ReadTellsAt(m, w, tellers, r, c);
    }
    SameBoard(b, b');
  }

  lemma SameBoard(b: Board, b': Board)
    requires b.Keys == b'.Keys && forall c | c in b :: b'[c] == b[c]
    ensures b' == b
  {
  }

  lemma ReadTellsAt(m: Mesh, w: World, tellers: set<ClusterId>, r: Pair, c: ClusterId)
    requires Shared(m, w, tellers) && IsRead(BoardOf(m, w), r) && c in m.clusters
    ensures StatusAt(Effect(w, ReadOf(m, r)), c, m.src) == Told(BoardOf(m, w), tellers, r)[c]
  {
    ReadWrites(m, w, r);
    HeldAfter(m, w, ReadOf(m, r), c);
  }

  function ReadsOf(m: Mesh, rs: seq<Pair>): seq<Step> {
    seq(|rs|, i requires 0 <= i < |rs| => ReadOf(m, rs[i]))
  }

  /** Any schedule of reads is a run of the mesh. */
  lemma TraceOfReads(m: Mesh, w: World, rs: seq<Pair>) returns (ws: seq<World>)
    requires GoodRule(m) && forall r | r in rs :: r.0 in m.clusters && r.1 in m.clusters && r.0 != r.1
    ensures Run(ws, ReadsOf(m, rs)) && ws[0] == w && forall s | s in ReadsOf(m, rs) :: MeshStep(m, s)
    ensures forall i | 0 <= i < |rs| :: ws[i + 1] == Effect(ws[i], ReadOf(m, rs[i]))
  {
    ReadsAreMeshSteps(m, rs);
    ws := Trace(w, ReadsOf(m, rs));
    assert forall i | 0 <= i < |rs| :: ReadsOf(m, rs)[i] in ReadsOf(m, rs) && ReadsOf(m, rs)[i] == ReadOf(m, rs[i]);
  }

  lemma ReadsAreMeshSteps(m: Mesh, rs: seq<Pair>)
    requires GoodRule(m) && forall r | r in rs :: r.0 in m.clusters && r.1 in m.clusters && r.0 != r.1
    ensures forall s | s in ReadsOf(m, rs) :: MeshStep(m, s)
  {
    forall s | s in ReadsOf(m, rs)
      ensures MeshStep(m, s)
    {
      var i :| 0 <= i < |rs| && s == ReadsOf(m, rs)[i];
      ReadIsMeshStep(m, rs[i].0, rs[i].1);
    }
  }

  lemma RunShared(m: Mesh, ws: seq<World>, steps: seq<Step>, tellers: set<ClusterId>)
    requires Run(ws, steps) && (forall s | s in steps :: MeshStep(m, s)) && Shared(m, ws[0], tellers)
    ensures forall i | 0 <= i < |ws| :: Shared(m, ws[i], tellers)
  {
    forall n | 0 <= n < |steps| && Shared(m, ws[n], tellers)
      ensures Shared(m, ws[n + 1], tellers)
    {
      assert steps[n] in steps;
      SharedStep(m, ws[n], tellers, steps[n]);
    }
    forall i | 0 <= i < |ws|
      ensures Shared(m, ws[i], tellers)
    {
      Invariant(w => Shared(m, w, tellers), ws, 0, i);
    }
  }

  lemma RunTells(m: Mesh, ws: seq<World>, tellers: set<ClusterId>, rs: seq<Pair>)
    requires |ws| == |rs| + 1 && forall i | 0 <= i < |rs| :: ws[i + 1] == Effect(ws[i], ReadOf(m, rs[i]))
    requires forall i | 0 <= i < |ws| :: Shared(m, ws[i], tellers)
    requires AreReads(BoardOf(m, ws[0]), rs)
    ensures BoardOf(m, ws[|rs|]) == ToldAll(BoardOf(m, ws[0]), tellers, rs)
  {
    var bs := seq(|ws|, i requires 0 <= i < |ws| => BoardOf(m, ws[i]));
    forall i | 0 <= i < |rs| && IsRead(bs[i], rs[i])
      ensures bs[i + 1] == Told(bs[i], tellers, rs[i])
    {
      ReadTells(m, ws[i], tellers, rs[i]);
    }
    BoardsTold(bs, tellers, rs);
  }

  lemma AgreeMeansLevel(m: Mesh, w: World, tellers: set<ClusterId>)
    requires Shared(m, w, tellers) && StatusesAgree(m, w)
    ensures Level(BoardOf(m, w), tellers)
  {
    forall l, c | l in m.clusters && c in m.clusters && c in tellers && l != c
      ensures BoardOf(m, w)[l] == BoardOf(m, w)[c]
    {
      assert StatusAgrees(m, w, l, c);
    }
  }

  function Pairs(m: Mesh): set<Pair> {
    set l, c | l in m.clusters && c in m.clusters && l != c :: (l, c)
  }

  lemma AllPairsFair(m: Mesh, rs: seq<Pair>)
    requires forall r | r in Pairs(m) :: r in rs
    ensures Fair(m, ReadsOf(m, rs))
  {
    forall l, c | l in m.clusters && c in m.clusters && l != c
      ensures SyncStep(l, c, m.spec, m.src, false) in ReadsOf(m, rs)
    {
      assert (l, c) in Pairs(m);
      var i :| 0 <= i < |rs| && rs[i] == (l, c);
      assert ReadsOf(m, rs)[i] == ReadOf(m, (l, c));
    }
  }

  /** The run of a schedule, and the board it ends with. */
  lemma ScheduleRun(m: Mesh, w: World, tellers: set<ClusterId>, rs: seq<Pair>) returns (ws: seq<World>)
    requires Shared(m, w, tellers) && AreReads(BoardOf(m, w), rs)
    ensures MeshRun(m, ws, ReadsOf(m, rs)) && ws[0] == w && Shared(m, ws[|rs|], tellers)
    ensures BoardOf(m, ws[|rs|]) == ToldAll(BoardOf(m, w), tellers, rs)
  {
    ws := TraceOfReads(m, w, rs);
    RunShared(m, ws, ReadsOf(m, rs), tellers);
    RunTells(m, ws, tellers, rs);
  }

  lemma NotLevelDisagrees(m: Mesh, w: World, tellers: set<ClusterId>)
    requires Shared(m, w, tellers) && !Level(BoardOf(m, w), tellers)
    ensures !StatusesAgree(m, w)
  {
    if StatusesAgree(m, w) {
      AgreeMeansLevel(m, w, tellers);
    }
  }

  lemma NotAlways(m: Mesh, ws: seq<World>, steps: seq<Step>)
    requires MeshRun(m, ws, steps) && Fair(m, steps) && !StatusesAgree(m, ws[|steps|])
    ensures !AlwaysSettles(m, ws[0])
  {
  }

  lemma BadSchedule(m: Mesh, b: Board, tellers: set<ClusterId>, l: ClusterId, x: ClusterId, y: ClusterId)
    returns (rs: seq<Pair>)
    requires b.Keys == m.clusters && tellers <= m.clusters && l in b && x in tellers && y in tellers
    requires x != l && y != l && b[x] != b[y]
    ensures AreReads(b, rs) && Fair(m, ReadsOf(m, rs)) && !Level(ToldAll(b, tellers, rs), tellers)
  {
    rs := Unsettled(b, tellers, l, x, y, Pairs(m));
    AllPairsFair(m, rs);
  }

  lemma SharedUnsettled(
    m: Mesh, w: World, tellers: set<ClusterId>, l: ClusterId, a: ClusterId, b: ClusterId)
    requires Shared(m, w, tellers) && l in m.clusters && a in tellers && b in tellers && a != l && b != l
    requires StatusAt(w, a, m.src) != StatusAt(w, b, m.src)
    ensures !AlwaysSettles(m, w)
  {
    var rs := BadSchedule(m, BoardOf(m, w), tellers, l, a, b);
    var ws := ScheduleRun(m, w, tellers, rs);
    NotLevelDisagrees(m, ws[|rs|], tellers);
    NotAlways(m, ws, ReadsOf(m, rs));
  }

  /** If some cluster gossips, then all clusters hold the object. */
  lemma AllHold(m: Mesh, w: World, a: ClusterId, l: ClusterId)
    requires Ready(m, w) && Converged(m, w) && m.target == m.src && a in m.clusters && l in m.clusters
    requires w.Has(a, m.src)
    ensures w.Has(l, m.src)
  {
    assert GoodCopy(m, w, a) && GoodOwner(m, w, a, m.target);
    var c := if Native(w.At(a)[m.src]) then a else Owner(w.At(a)[m.src]);
    assert w.HasNative(c, m.src) && c in m.clusters;
  }

  lemma SharedBy(m: Mesh, w: World, a: ClusterId, b: ClusterId) returns (tellers: set<ClusterId>)
    requires Ready(m, w) && Converged(m, w) && m.target == m.src && a in m.clusters && b in m.clusters
    requires Gossips(m, w, a) && Gossips(m, w, b)
    ensures Shared(m, w, tellers) && a in tellers && b in tellers
  {
    tellers := set c | c in m.clusters && Gossips(m, w, c);
    forall c | c in m.clusters
      ensures w.Has(c, m.src)
    {
      AllHold(m, w, a, c);
    }
  }

  lemma KindKeptUnsettled(m: Mesh, w: World, l: ClusterId, a: ClusterId, b: ClusterId)
    requires Ready(m, w) && Converged(m, w) && m.target == m.src
    requires l in m.clusters && a in m.clusters && b in m.clusters && a != l && b != l
    requires Gossips(m, w, a) && Gossips(m, w, b) && StatusAt(w, a, m.src) != StatusAt(w, b, m.src)
    ensures !AlwaysSettles(m, w)
  {
    var tellers := SharedBy(m, w, a, b);
    SharedUnsettled(m, w, tellers, l, a, b);
  }

  /******* The same where the kind changes *******/

  /** What the clusters hold under the source key is not withdrawn: it is the target itself, or the
      delete path looks elsewhere, or the owners of the copies there hold the object. */
  ghost predicate Kept(m: Mesh, w: World) {
    || m.target == m.src || LocalKey(m.spec, m.src) != m.src
    || forall c | c in m.clusters && w.HasCopy(c, m.src) :: w.HasNative(Owner(w.At(c)[m.src]), m.src)
  }

  /** l is offered two different statuses. */
  ghost predicate Torn(m: Mesh, w: World, l: ClusterId, a: ClusterId, b: ClusterId) {
    && Ready(m, w) && Converged(m, w) && Kept(m, w) && m.target != m.src && {l, a, b} <= m.clusters && a != l && b != l
    && w.Has(l, m.target) && Gossips(m, w, a) && Gossips(m, w, b)
    && StatusAt(w, a, m.src) != StatusAt(w, b, m.src)
  }

  lemma SourceStays(m: Mesh, w: World, s: Step, c: ClusterId)
    requires Ready(m, w) && MeshStep(m, s) && Kept(m, w) && m.target != m.src && c in m.clusters && w.Has(c, m.src)
    ensures Effect(w, s).Has(c, m.src)
  {
    if c == s.at {
      PullEffect(Config(s.spec, s.from, s.at), w.At(s.at), w.At(s.from), s.key, ViewOf(w, s), m.src);
      assert GoodOwner(m, w, c, m.src) && GoodNative(m, w, s.from);
    }
  }

  lemma KeptStep(m: Mesh, w: World, s: Step)
    requires Ready(m, w) && Converged(m, w) && MeshStep(m, s) && Kept(m, w) && m.target != m.src
    ensures Kept(m, Effect(w, s))
  {
    NativesMoved(m, w, s);
    forall c | c in m.clusters && Effect(w, s).HasCopy(c, m.src)
      ensures w.HasCopy(c, m.src) && Owner(Effect(w, s).At(c)[m.src]) == Owner(w.At(c)[m.src])
      ensures Owner(w.At(c)[m.src]) in m.clusters
    {
      OwnAfter(m, w, s, c);
      assert GoodOwner(m, w, c, m.src);
    }
  }

  lemma TornStep(m: Mesh, w: World, s: Step, l: ClusterId, a: ClusterId, b: ClusterId)
    requires Torn(m, w, l, a, b) && MeshStep(m, s)
    ensures Torn(m, Effect(w, s), l, a, b)
  {
    ConvergedStep(m, w, s);
    KeptStep(m, w, s);
    HeldAfter(m, w, s, l);
    StillTells(m, w, s, a);
    StillTells(m, w, s, b);
  }

  lemma StillTells(m: Mesh, w: World, s: Step, c: ClusterId)
    requires Ready(m, w) && Converged(m, w) && MeshStep(m, s) && Kept(m, w) && m.target != m.src
    requires c in m.clusters && Gossips(m, w, c)
    ensures Gossips(m, Effect(w, s), c) && StatusAt(Effect(w, s), c, m.src) == StatusAt(w, c, m.src)
  {
    SourceStays(m, w, s, c);
    OwnAfter(m, w, s, c);
    GossipsSame(m, w, Effect(w, s), c);
  }

  lemma TornUnsettled(m: Mesh, w: World, l: ClusterId, a: ClusterId, b: ClusterId)
    requires Torn(m, w, l, a, b)
    ensures !AlwaysSettles(m, w)
  {
    var rs := Listed(Pairs(m));
    var ws := TraceOfReads(m, w, rs);
    TornRun(m, ws, ReadsOf(m, rs), l, a, b);
    AllPairsFair(m, rs);
    NotAlways(m, ws, ReadsOf(m, rs));
  }

  lemma TornRun(m: Mesh, ws: seq<World>, steps: seq<Step>, l: ClusterId, a: ClusterId, b: ClusterId)
    requires Run(ws, steps) && (forall s | s in steps :: MeshStep(m, s)) && Torn(m, ws[0], l, a, b)
    ensures !StatusesAgree(m, ws[|steps|])
  {
    forall n | 0 <= n < |steps| && Torn(m, ws[n], l, a, b)
      ensures Torn(m, ws[n + 1], l, a, b)
    {
      assert steps[n] in steps;
      TornStep(m, ws[n], steps[n], l, a, b);
    }
    Invariant(x => Torn(m, x, l, a, b), ws, 0, |steps|);
    TornDisagrees(m, ws[|steps|], l, a, b);
  }

  lemma TornDisagrees(m: Mesh, w: World, l: ClusterId, a: ClusterId, b: ClusterId)
    requires Torn(m, w, l, a, b)
    ensures !StatusesAgree(m, w)
  {
    assert !StatusAgrees(m, w, l, a) || !StatusAgrees(m, w, l, b);
  }

  lemma {:induction false} Listed<T>(s: set<T>) returns (xs: seq<T>)
    ensures forall x :: x in xs <==> x in s
    decreases s
  {
    xs := [];
    if s != {} {
      var x :| x in s;
      var rest := Listed(s - {x});
      xs := [x] + rest;
    }
  }

  /******* Exactly when statuses settle *******/

  /** Every fair run of a converged mesh brings the statuses into line if no holder of the object is
      offered two different ones by others; and only if so, unless copies under the source key are
      about to be withdrawn. */
  lemma StatusesSettleExactly(m: Mesh, w: World)
    requires Ready(m, w) && Converged(m, w)
    ensures OffersAgree(m, w) ==> AlwaysSettles(m, w)
    ensures Kept(m, w) ==> (AlwaysSettles(m, w) <==> OffersAgree(m, w))
  {
    if OffersAgree(m, w) {
      TameSettles(m, w);
    }
    if Kept(m, w) && AlwaysSettles(m, w) {
      SettlesMeansAgree(m, w);
    }
  }

  lemma SettlesMeansAgree(m: Mesh, w: World)
    requires Ready(m, w) && Converged(m, w) && Kept(m, w) && AlwaysSettles(m, w)
    ensures OffersAgree(m, w)
  {
    forall l, a, b | l in m.clusters && a in m.clusters && b in m.clusters && a != l && b != l
      ensures OffersAgreeAt(m, w, l, a, b)
    {
      AgreesIfSettles(m, w, l, a, b);
    }
  }

  lemma AgreesIfSettles(m: Mesh, w: World, l: ClusterId, a: ClusterId, b: ClusterId)
    requires Ready(m, w) && Converged(m, w) && Kept(m, w) && {l, a, b} <= m.clusters && a != l && b != l
    ensures AlwaysSettles(m, w) ==> OffersAgreeAt(m, w, l, a, b)
  {
    if !OffersAgreeAt(m, w, l, a, b) {
      UnsettledBy(m, w, l, a, b);
    }
  }

  lemma UnsettledBy(m: Mesh, w: World, l: ClusterId, a: ClusterId, b: ClusterId)
    requires Ready(m, w) && Converged(m, w) && Kept(m, w) && {l, a, b} <= m.clusters && a != l && b != l
    requires !OffersAgreeAt(m, w, l, a, b)
    ensures !AlwaysSettles(m, w)
  {
    if m.target == m.src {
      KindKeptUnsettled(m, w, l, a, b);
    } else {
      TornUnsettled(m, w, l, a, b);
    }
  }

  /** Where every cluster holds the object: the offered statuses all agree, or there are at most two
      clusters. */
  lemma OffersAgreeMeans(m: Mesh, w: World)
    requires forall l | l in m.clusters :: w.Has(l, m.target)
    ensures OffersAgree(m, w) <==>
            || |m.clusters| <= 2
            || forall a, b | a in m.clusters && b in m.clusters && Gossips(m, w, a) && Gossips(m, w, b) ::
                 StatusAt(w, a, m.src) == StatusAt(w, b, m.src)
  {
    if |m.clusters| <= 2 {
      forall l, a, b | l in m.clusters && a in m.clusters && b in m.clusters && a != l && b != l
        ensures a == b
      {
        OnlyTwo(m.clusters, l, a);
      }
    } else if OffersAgree(m, w) {
      forall a, b | a in m.clusters && b in m.clusters && Gossips(m, w, a) && Gossips(m, w, b)
        ensures StatusAt(w, a, m.src) == StatusAt(w, b, m.src)
      {
        var l := Third(m.clusters, a, b);
        assert OffersAgreeAt(m, w, l, a, b);
      }
    }
  }

  /** A single cluster that offers its status brings the others into line, however many they are. */
  lemma SoleTellerSettles(m: Mesh, w: World, a: ClusterId)
    requires Ready(m, w) && Converged(m, w) && forall c | c in m.clusters && Gossips(m, w, c) :: c == a
    ensures AlwaysSettles(m, w)
  {
    TameSettles(m, w);
  }
}
