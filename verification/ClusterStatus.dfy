/** The status of a Cluster resource: what the two reconcilers that write it report, what of that is
    stored, and what the stored status says after any history of passes. */
module ClusterStatus {
  import opened Objects
  import opened Conditions
  import Api = ClusterApi

  /** The stored status. Conditions are kept by type; a stored list has at most one of each. */
  datatype Stored = Stored(state: Api.ClusterState, isLocal: bool, message: string, conditions: ConditionMap)

  datatype System = System(stored: Stored, events: seq<Event>)

  /** Times and outcomes survive serialisation, the failure polarity does not. */
  function Serialised(m: ConditionMap): ConditionMap {
    map t | t in m :: m[t].(trueIsFailure := false)
  }

  function Reset(s: Stored): Stored {
    Stored(Api.Ready, false, "", s.conditions)
  }

  /******* The passes *******/

  /** How far the reconcile of the local cluster's resource got. */
  datatype LocalEnd =
    | ListFailed(error: string)
    | Conflicting
    | LocalMetadataFailed(error: string)
    | SetupFailed(error: string)
    | LocalDone

  /** How far the reconcile of a peer's resource got. */
  datatype PeerEnd =
    | NoAuthInfo
    | ConnectFailed(error: string, badAuthInfo: bool)
    | PeerDone

  /** How far the reconcile that runs against the peer itself got. */
  datatype RemoteEnd =
    | WrongId
    | RemoteMetadataFailed(error: string)
    | Checked(syncError: Option<string>)

  /** `getError` is the error of reading the resource. */
  datatype Pass =
    | ClusterPass(getError: Option<string>, disabled: bool, isLocal: bool, local: LocalEnd, peer: PeerEnd)
    | RemotePass(getError: Option<string>, remote: RemoteEnd)

  const CONFLICT_ERROR := "multiple local clusters are defined"
  const WRONG_ID_ERROR := "invalid cluster ID"

  function Report(kind: Type, error: Option<string>, good: (string, string), badReason: string): Condition {
    if error.None? then Condition(kind, True, 0, 0, good.0, good.1, false)
    else Condition(kind, False, 0, 0, badReason, error.value, false)
  }

  function LocalReport(isLocal: bool): Condition {
    if isLocal then Condition(LocalCluster, True, 0, 0, "ClusterIsLocal", "cluster is local", false)
    else Condition(LocalCluster, False, 0, 0, "ClusterIsNotLocal", "cluster is not local", false)
  }

  function ConflictReport(conflict: bool): Condition {
    if conflict then Condition(LocalConflict, True, 0, 0, "LocalClusterIsConflicting", CONFLICT_ERROR, true)
    else Condition(LocalConflict, False, 0, 0, "LocalClusterIsNotConflicting",
                   "only one local cluster is defined", true)
  }

  function MetadataReport(error: Option<string>): Condition {
    Report(ClusterMetadataSet, error, ("ClusterMetadataSet", "cluster metadata is set"), "ClusterMetadataIsNotSet")
  }

  function ReadyReport(error: Option<string>): Condition {
    Report(Ready, error, ("ClusterIsReady", "cluster is ready"), "ClusterIsNotReady")
  }

  function SyncedReport(error: Option<string>): Condition {
    Report(ClustersSynced, error, ("ClustersAreSynced", "all participating clusters are in sync"),
           "ClustersAreNotSynced")
  }

  function LocalError(e: LocalEnd): Option<string> {
    match e
    case ListFailed(error) => Some(error)
    case Conflicting => Some(CONFLICT_ERROR)
    case LocalMetadataFailed(error) => Some(error)
    case SetupFailed(error) => Some(error)
    case LocalDone => None
  }

  function PeerError(e: PeerEnd): Option<string> {
    if e.ConnectFailed? then Some(e.error) else None
  }

  function RemoteError(e: RemoteEnd): Option<string> {
    match e
    case WrongId => Some(WRONG_ID_ERROR)
    case RemoteMetadataFailed(error) => Some(error)
    case Checked(_) => None
  }

  /** The error of a pass that could read its resource. */
  function PassError(p: Pass): Option<string> {
    if p.RemotePass? then RemoteError(p.remote)
    else if p.disabled then None
    else if p.isLocal then LocalError(p.local)
    else PeerError(p.peer)
  }

  function LocalReports(e: LocalEnd): seq<Condition> {
    [LocalReport(true)]
    + match e
      case ListFailed(_) => []
      case Conflicting => [ConflictReport(true)]
      case LocalMetadataFailed(error) => [ConflictReport(false), MetadataReport(Some(error))]
      case SetupFailed(_) => [ConflictReport(false), MetadataReport(None)]
      case LocalDone => [ConflictReport(false), MetadataReport(None)]
  }

  function PeerReports(e: PeerEnd): seq<Condition> {
    [LocalReport(false)] + if e.ConnectFailed? then [SyncedReport(Some(e.error))] else []
  }

  /** What the inner reconcile against the peer sets; its error is reported once more behind it. */
  function RemoteChecks(e: RemoteEnd): seq<Condition> {
    match e
    case WrongId => []
    case RemoteMetadataFailed(error) => [MetadataReport(Some(error)), SyncedReport(Some(error))]
    case Checked(syncError) => [MetadataReport(None), SyncedReport(syncError)]
  }

  function RemoteReports(e: RemoteEnd): seq<Condition> {
    RemoteChecks(e) + if RemoteError(e).Some? then [SyncedReport(RemoteError(e))] else []
  }

  /** The conditions an effective pass sets, in order. The ready condition of a cluster pass is made
      from the error of reading the resource, not from the error of the pass. */
  function Reports(p: Pass): seq<Condition> {
    if p.RemotePass? then RemoteReports(p.remote)
    else (if p.isLocal then LocalReports(p.local) else PeerReports(p.peer)) + [ReadyReport(p.getError)]
  }

  /** The readings of the clock in a pass, one per report. */
  type Clock = nat -> Moment

  function SetAll(s: State, cs: seq<Condition>, now: Clock): State {
    if cs == [] then s else Set(SetAll(s, cs[..|cs| - 1], now), cs[|cs| - 1], now(|cs| - 1))
  }

  lemma SetNext(s: State, cs: seq<Condition>, c: Condition, now: Clock)
    ensures SetAll(s, cs + [c], now) == Set(SetAll(s, cs, now), c, now(|cs|))
  {
    assert (cs + [c])[..|cs|] == cs;
  }

  /** The state a pass has decided on before its error is looked at. */
  function DraftState(p: Pass): Api.ClusterState {
    if p.RemotePass? then Api.Ready
    else if p.disabled then Api.Disabled
    else if p.isLocal then Api.Ready
    else PeerState(p.peer)
  }

  function PeerState(e: PeerEnd): Api.ClusterState {
    match e
    case NoAuthInfo => Api.MissingAuthInfo
    case ConnectFailed(_, bad) => if bad then Api.InvalidAuthInfo else Api.Ready
    case PeerDone => Api.Ready
  }

  /** What is written: an error turns the ready state into the failed one. */
  function Updated(draft: Stored, conditions: ConditionMap, error: Option<string>): Stored {
    draft.(conditions := Serialised(Kept(conditions, draft.isLocal)),
           state := (if error.Some? && draft.state == Api.Ready then Api.Failed else draft.state),
           message := (if error.Some? then error.value else draft.message))
  }

  /** Whether the pass writes the status at all: a cluster pass over an enabled peer does so only
      after an error. */
  predicate Writes(p: Pass) {
    p.getError.None? && (p.RemotePass? || p.disabled || p.isLocal || PassError(p).Some?)
  }

  /** One pass by the clock `now`; `saved` is whether the API server takes the status. */
  datatype Entry = Entry(pass: Pass, now: Clock, saved: bool)

  predicate Stores(e: Entry) {
    e.saved && Writes(e.pass)
  }

  predicate Clears(e: Entry) {
    Stores(e) && e.pass.ClusterPass? && e.pass.disabled
  }

  function AfterPass(s: System, e: Entry): System {
    var p := e.pass;
    if p.getError.Some? then s
    else
      var draft := Reset(s.stored).(state := DraftState(p), isLocal := p.ClusterPass? && p.isLocal && !p.disabled);
      var set' := if p.ClusterPass? && p.disabled then State(map[], s.events)
                  else SetAll(State(s.stored.conditions, s.events), Reports(p), e.now);
      System(if Stores(e) then Updated(draft, set'.conditions, PassError(p)) else s.stored, set'.events)
  }

  function AfterAll(s: System, es: seq<Entry>): System {
    if es == [] then s else AfterPass(AfterAll(s, es[..|es| - 1]), es[|es| - 1])
  }

  lemma AfterRemotePass(s: System, end: RemoteEnd, now: Clock, saved: bool)
    ensures var set' := SetAll(State(s.stored.conditions, s.events), RemoteReports(end), now);
            AfterPass(s, Entry(RemotePass(None, end), now, saved)) ==
            System(if saved then Updated(Reset(s.stored), set'.conditions, RemoteError(end)) else s.stored, set'.events)
  {
    assert Reset(s.stored).(state := Api.Ready, isLocal := false) == Reset(s.stored);
  }

  /******* The reconcilers *******/

  class Reconcilers {
    var stored: Stored
    var events: seq<Event>

    constructor (stored: Stored)
      requires Keyed(stored.conditions)
      ensures Now() == System(stored, []) && Valid()
    {
      this.stored := stored;
      events := [];
    }

    function Now(): System
      reads this
    {
      System(stored, events)
    }

    predicate Valid()
      reads this
    {
      Keyed(stored.conditions)
    }

    /** Store the status of a pass. */
    method UpdateCluster(draft: Stored, conditions: ConditionMap, error: Option<string>, saved: bool)
      requires Keyed(conditions)
      modifies this`stored
      ensures stored == if saved then Updated(draft, conditions, error) else old(stored)
      ensures old(Valid()) ==> Valid()
    {
      var cs := ToList(conditions, draft.isLocal);
      var read := GetCurrentConditions(cs);
      var status := draft.(conditions := Serialised(read));
      if error.Some? {
        if status.state == Api.Ready {
          status := status.(state := Api.Failed);
        }
        status := status.(message := error.value);
      }
      if saved {
        stored := status;
      }
    }

    method SetCondition(s: State, c: Condition, now: Moment) returns (s': State)
      requires Keyed(s.conditions)
      ensures s' == Set(s, c, now) && Keyed(s'.conditions)
    {
      var tracker := new Tracker(s.conditions);
      tracker.SetCondition(c, now);
      s' := State(tracker.conditions, s.events + tracker.events);
    }

    method ReconcileLocalCluster(s: State, end: LocalEnd, now: Clock) returns (s': State, error: Option<string>)
      requires Keyed(s.conditions)
      ensures s' == SetAll(s, LocalReports(end), now) && error == LocalError(end) && Keyed(s'.conditions)
    {
      s' := SetCondition(s, LocalReport(true), now(0));
      SetNext(s, [], LocalReport(true), now);
      if end.ListFailed? {
        return s', Some(end.error);
      }
      if end.Conflicting? {
        s' := SetCondition(s', ConflictReport(true), now(1));
        SetNext(s, [LocalReport(true)], ConflictReport(true), now);
        return s', Some(CONFLICT_ERROR);
      }
      s' := SetCondition(s', ConflictReport(false), now(1));
      SetNext(s, [LocalReport(true)], ConflictReport(false), now);
      var metadata := MetadataReport(if end.LocalMetadataFailed? then Some(end.error) else None);
      s' := SetCondition(s', metadata, now(2));
      SetNext(s, [LocalReport(true), ConflictReport(false)], metadata, now);
      assert LocalReports(end) == [LocalReport(true), ConflictReport(false)] + [metadata];
      if end.LocalMetadataFailed? {
        return s', Some(end.error);
      }
      return s', if end.SetupFailed? then Some(end.error) else None;
    }

    /** Returns the state to show besides the conditions and the error. */
    method ReconcileRemoteCluster(s: State, end: PeerEnd, now: Clock)
      returns (s': State, error: Option<string>, state: Api.ClusterState)
      requires Keyed(s.conditions)
      ensures s' == SetAll(s, PeerReports(end), now) && error == PeerError(end) && Keyed(s'.conditions)
      ensures state == match end
                       case NoAuthInfo => Api.MissingAuthInfo
                       case ConnectFailed(_, true) => Api.InvalidAuthInfo
                       case _ => Api.Ready
    {
      state := Api.Ready;
      s' := SetCondition(s, LocalReport(false), now(0));
      SetNext(s, [], LocalReport(false), now);
      if end.NoAuthInfo? {
        return s', None, Api.MissingAuthInfo;
      }
      if end.ConnectFailed? {
        if end.badAuthInfo {
          state := Api.InvalidAuthInfo;
        }
        s' := SetCondition(s', SyncedReport(Some(end.error)), now(1));
        SetNext(s, [LocalReport(false)], SyncedReport(Some(end.error)), now);
        return s', Some(end.error), state;
      }
      return s', None, state;
    }

    /** The body of a pass over an enabled resource. */
    method ReconcileEnabled(s: State, err: Option<string>, isLocal: bool, local: LocalEnd, peer: PeerEnd, now: Clock)
      returns (s': State, error: Option<string>, state: Api.ClusterState)
      requires Keyed(s.conditions)
      ensures var p := ClusterPass(err, false, isLocal, local, peer);
              s' == SetAll(s, Reports(p), now) && error == PassError(p) && state == DraftState(p)
      ensures Keyed(s'.conditions)
    {
      state := Api.Ready;
      if isLocal {
        s', error := ReconcileLocalCluster(s, local, now);
      } else {
        s', error, state := ReconcileRemoteCluster(s, peer, now);
      }
      ghost var reports := if isLocal then LocalReports(local) else PeerReports(peer);
      var next := if isLocal then |LocalReports(local)| else |PeerReports(peer)|;
      s' := SetCondition(s', ReadyReport(err), now(next));
      SetNext(s, reports, ReadyReport(err), now);
    }

    /** One reconcile of a Cluster resource by the controller of the local cluster. */
    method Reconcile(getError: Option<string>, disabled: bool, isLocal: bool, local: LocalEnd, peer: PeerEnd,
                     now: Clock, saved: bool)
      requires Valid()
      modifies this
      ensures var p := ClusterPass(getError, disabled, isLocal, local, peer);
              Valid() && Now() == AfterPass(old(Now()), Entry(p, now, saved))
    {
      var err := getError;
      if err.Some? {
        return;
      }
      if disabled {
        UpdateCluster(Reset(stored).(state := Api.Disabled), map[], None, saved);
        return;
      }
      var current, reconcileError, state :=
        ReconcileEnabled(State(stored.conditions, events), err, isLocal, local, peer, now);
      events := current.events;
      if isLocal || reconcileError.Some? {
        UpdateCluster(Reset(stored).(isLocal := isLocal, state := state), current.conditions, reconcileError, saved);
      }
    }

    method CheckPeer(s: State, end: RemoteEnd, now: Clock) returns (s': State, error: Option<string>)
      requires Keyed(s.conditions)
      ensures s' == SetAll(s, RemoteChecks(end), now) && error == RemoteError(end) && Keyed(s'.conditions)
    {
      if end.WrongId? {
        return s, Some(WRONG_ID_ERROR);
      }
      var metadataError := if end.RemoteMetadataFailed? then Some(end.error) else None;
      var metadata := MetadataReport(metadataError);
      s' := SetCondition(s, metadata, now(0));
      SetNext(s, [], metadata, now);
      var synced := SyncedReport(if metadataError.Some? then metadataError else end.syncError);
      s' := SetCondition(s', synced, now(1));
      SetNext(s, [metadata], synced, now);
      return s', metadataError;
    }

    method CheckAndReport(s: State, end: RemoteEnd, now: Clock) returns (s': State, error: Option<string>)
      requires Keyed(s.conditions)
      ensures s' == SetAll(s, RemoteReports(end), now) && error == RemoteError(end) && Keyed(s'.conditions)
    {
      s', error := CheckPeer(s, end, now);
      if error.Some? {
        s' := SetCondition(s', SyncedReport(error), now(|RemoteChecks(end)|));
        SetNext(s, RemoteChecks(end), SyncedReport(error), now);
      } else {
        assert RemoteReports(end) == RemoteChecks(end);
      }
    }

    /** One reconcile of a Cluster resource by the controller that runs against the peer. */
    method ReconcileRemote(getError: Option<string>, end: RemoteEnd, now: Clock, saved: bool)
      requires Valid()
      modifies this
      ensures Valid() && Now() == AfterPass(old(Now()), Entry(RemotePass(getError, end), now, saved))
    {
      if getError.Some? {
        return;
      }
      AfterRemotePass(Now(), end, now, saved);
      var draft := Reset(stored);
      var current, error := CheckAndReport(State(stored.conditions, events), end, now);
      events := current.events;
      UpdateCluster(draft, current.conditions, error, saved);
    }
  }

  /******* What the stored status says *******/

  /** A type that no call is about keeps its condition. */
  lemma {:induction false} OthersKept(s: State, cs: seq<Condition>, now: Clock, t: Type)
    requires forall c | c in cs :: c.kind != t
    ensures t in SetAll(s, cs, now).conditions <==> t in s.conditions
    ensures t in s.conditions ==> SetAll(s, cs, now).conditions[t] == s.conditions[t]
  {
    if cs != [] {
      OthersKept(s, cs[..|cs| - 1], now, t);
    }
  }

  /******* What each pass leaves stored *******/

  predicate Shows(m: ConditionMap, t: Type, status: Status, reason: string, message: string) {
    t in m && m[t].status == status && m[t].reason == reason && m[t].message == message
  }

  /** The condition is as it was. */
  predicate Left(m: ConditionMap, before: ConditionMap, t: Type) {
    (t in m <==> t in before) && (t in m ==> m[t] == before[t].(trueIsFailure := false))
  }

  /** The last report about a type is what is then set for it. */
  lemma {:induction false} LastReport(s: State, cs: seq<Condition>, now: Clock, k: nat)
    requires k < |cs| && forall j | k < j < |cs| :: cs[j].kind != cs[k].kind
    ensures Shows(SetAll(s, cs, now).conditions, cs[k].kind, cs[k].status, cs[k].reason, cs[k].message)
  {
    if k < |cs| - 1 {
      LastReport(s, cs[..|cs| - 1], now, k);
    }
  }

  /** The conditions stored after a list of reports. */
  function Saved(s: State, cs: seq<Condition>, now: Clock, isLocal: bool): ConditionMap {
    Serialised(Kept(SetAll(s, cs, now).conditions, isLocal))
  }

  /** How a report list decides one type: by its report k, or not at all. */
  lemma Decided(s: State, cs: seq<Condition>, now: Clock, isLocal: bool, k: nat)
    requires k < |cs| && !(isLocal && cs[k].kind == ClustersSynced)
    requires forall j | k < j < |cs| :: cs[j].kind != cs[k].kind
    ensures Shows(Saved(s, cs, now, isLocal), cs[k].kind, cs[k].status, cs[k].reason, cs[k].message)
  {
    LastReport(s, cs, now, k);
  }

  lemma Undecided(s: State, cs: seq<Condition>, now: Clock, isLocal: bool, t: Type)
    requires (forall c | c in cs :: c.kind != t) && !(isLocal && t == ClustersSynced)
    ensures Left(Saved(s, cs, now, isLocal), s.conditions, t)
  {
    OthersKept(s, cs, now, t);
  }

  /** A pass against the peer shows how the sync check ended, or what kept it from running; whether
      metadata could be read, if that was tried; and nothing else. */
  predicate RemoteShown(m: ConditionMap, before: ConditionMap, end: RemoteEnd, t: Type) {
    match t
    case ClustersSynced =>
      (match end
       case WrongId => Shows(m, t, False, "ClustersAreNotSynced", "invalid cluster ID")
       case RemoteMetadataFailed(error) => Shows(m, t, False, "ClustersAreNotSynced", error)
       case Checked(Some(error)) => Shows(m, t, False, "ClustersAreNotSynced", error)
       case Checked(None) => Shows(m, t, True, "ClustersAreSynced", "all participating clusters are in sync"))
    case ClusterMetadataSet =>
      (match end
       case WrongId => Left(m, before, t)
       case RemoteMetadataFailed(error) => Shows(m, t, False, "ClusterMetadataIsNotSet", error)
       case Checked(_) => Shows(m, t, True, "ClusterMetadataSet", "cluster metadata is set"))
    case _ => Left(m, before, t)
  }

  lemma RemoteCondition(s: State, end: RemoteEnd, now: Clock, t: Type)
    ensures RemoteShown(Saved(s, RemoteReports(end), now, false), s.conditions, end, t)
  {
    var cs := RemoteReports(end);
    if t == ClustersSynced {
      Decided(s, cs, now, false, |cs| - 1);
    } else if t == ClusterMetadataSet && !end.WrongId? {
      Decided(s, cs, now, false, 0);
    } else {
      Undecided(s, cs, now, false, t);
    }
  }

  /** The sync condition is reported last; after failing metadata, for the second time. */
  lemma RemoteBeat(s: State, end: RemoteEnd, now: Clock)
    ensures var m := SetAll(s, RemoteReports(end), now).conditions;
            && ClustersSynced in m
            && m[ClustersSynced].heartbeat == now(if end.WrongId? then 0 else if end.Checked? then 1 else 2).beat
  {
    var cs := RemoteReports(end);
    assert |cs| == (if end.WrongId? then 1 else if end.Checked? then 2 else 3);
  }

  lemma RemotePassLeaves(s: System, end: RemoteEnd, now: Clock)
    ensures var stored := AfterPass(s, Entry(RemotePass(None, end), now, true)).stored;
            && !stored.isLocal && stored.state == (if end.Checked? then Api.Ready else Api.Failed)
            && (forall t :: RemoteShown(stored.conditions, s.stored.conditions, end, t))
            && ClustersSynced in stored.conditions
            && stored.conditions[ClustersSynced].heartbeat ==
               now(if end.WrongId? then 0 else if end.Checked? then 1 else 2).beat
            && stored.message == match end
                                 case WrongId => "invalid cluster ID"
                                 case RemoteMetadataFailed(error) => error
                                 case Checked(_) => ""
  {
    AfterRemotePass(s, end, now, true);
    RemoteBeat(State(s.stored.conditions, s.events), end, now);
    forall t
      ensures RemoteShown(AfterPass(s, Entry(RemotePass(None, end), now, true)).stored.conditions,
                          s.stored.conditions, end, t)
    {
      RemoteCondition(State(s.stored.conditions, s.events), end, now, t);
    }
  }

  /** A pass over the local cluster's resource shows that it is local, whether it has a rival, if that
      could be found out, and whether metadata could be read, if it got that far. It shows ready
      whatever failed, and no sync condition. */
  predicate LocalShown(m: ConditionMap, before: ConditionMap, end: LocalEnd, t: Type) {
    match t
    case LocalCluster => Shows(m, t, True, "ClusterIsLocal", "cluster is local")
    case LocalConflict =>
      (match end
       case ListFailed(_) => Left(m, before, t)
       case Conflicting => Shows(m, t, True, "LocalClusterIsConflicting", "multiple local clusters are defined")
       case _ => Shows(m, t, False, "LocalClusterIsNotConflicting", "only one local cluster is defined"))
    case ClusterMetadataSet =>
      (match end
       case ListFailed(_) => Left(m, before, t)
       case Conflicting => Left(m, before, t)
       case LocalMetadataFailed(error) => Shows(m, t, False, "ClusterMetadataIsNotSet", error)
       case _ => Shows(m, t, True, "ClusterMetadataSet", "cluster metadata is set"))
    case Ready => Shows(m, t, True, "ClusterIsReady", "cluster is ready")
    case ClustersSynced => t !in m
  }

  lemma LocalCondition(s: State, end: LocalEnd, now: Clock, t: Type)
    ensures LocalShown(Saved(s, LocalReports(end) + [ReadyReport(None)], now, true), s.conditions, end, t)
  {
    var cs := LocalReports(end) + [ReadyReport(None)];
    if t == LocalCluster {
      Decided(s, cs, now, true, 0);
    } else if t == Ready {
      Decided(s, cs, now, true, |cs| - 1);
    } else if t == LocalConflict && !end.ListFailed? {
      Decided(s, cs, now, true, 1);
    } else if t == ClusterMetadataSet && !end.ListFailed? && !end.Conflicting? {
      Decided(s, cs, now, true, 2);
    } else if t != ClustersSynced {
      Undecided(s, cs, now, true, t);
    }
  }

  lemma AfterClusterPass(s: System, isLocal: bool, local: LocalEnd, peer: PeerEnd, now: Clock)
    requires isLocal || PeerError(peer).Some?
    ensures var p := ClusterPass(None, false, isLocal, local, peer);
            AfterPass(s, Entry(p, now, true)).stored.conditions ==
            Saved(State(s.stored.conditions, s.events), Reports(p), now, isLocal)
  {
  }

  lemma LocalPassLeaves(s: System, end: LocalEnd, peer: PeerEnd, now: Clock)
    ensures var stored := AfterPass(s, Entry(ClusterPass(None, false, true, end, peer), now, true)).stored;
            && stored.isLocal && stored.state == (if end.LocalDone? then Api.Ready else Api.Failed)
            && (forall t :: LocalShown(stored.conditions, s.stored.conditions, end, t))
            && stored.message == match end
                                 case ListFailed(error) => error
                                 case Conflicting => "multiple local clusters are defined"
                                 case LocalMetadataFailed(error) => error
                                 case SetupFailed(error) => error
                                 case LocalDone => ""
  {
    AfterClusterPass(s, true, end, peer, now);
    forall t
      ensures LocalShown(AfterPass(s, Entry(ClusterPass(None, false, true, end, peer), now, true)).stored.conditions,
                         s.stored.conditions, end, t)
    {
      LocalCondition(State(s.stored.conditions, s.events), end, now, t);
    }
  }

  /** A pass that fails to connect to an enabled peer shows that the peer is not local and not in sync,
      with the error, and nevertheless ready. */
  predicate PeerShown(m: ConditionMap, before: ConditionMap, error: string, t: Type) {
    match t
    case LocalCluster => Shows(m, t, False, "ClusterIsNotLocal", "cluster is not local")
    case ClustersSynced => Shows(m, t, False, "ClustersAreNotSynced", error)
    case Ready => Shows(m, t, True, "ClusterIsReady", "cluster is ready")
    case _ => Left(m, before, t)
  }

  lemma PeerCondition(s: State, end: PeerEnd, now: Clock, t: Type)
    requires end.ConnectFailed?
    ensures PeerShown(Saved(s, PeerReports(end) + [ReadyReport(None)], now, false), s.conditions, end.error, t)
  {
    var cs := PeerReports(end) + [ReadyReport(None)];
    if t == LocalCluster {
      Decided(s, cs, now, false, 0);
    } else if t == ClustersSynced {
      Decided(s, cs, now, false, 1);
    } else if t == Ready {
      Decided(s, cs, now, false, 2);
    } else {
      Undecided(s, cs, now, false, t);
    }
  }

  /** A pass over an enabled peer stores nothing unless connecting failed. */
  lemma PeerPassLeaves(s: System, local: LocalEnd, end: PeerEnd, now: Clock)
    ensures var stored := AfterPass(s, Entry(ClusterPass(None, false, false, local, end), now, true)).stored;
            if !end.ConnectFailed? then stored == s.stored else
              && !stored.isLocal && stored.message == end.error
              && stored.state == (if end.badAuthInfo then Api.InvalidAuthInfo else Api.Failed)
              && (forall t :: PeerShown(stored.conditions, s.stored.conditions, end.error, t))
  {
    if end.ConnectFailed? {
      AfterClusterPass(s, false, local, end, now);
      forall t
        ensures PeerShown(AfterPass(s, Entry(ClusterPass(None, false, false, local, end), now, true)).stored.conditions,
                          s.stored.conditions, end.error, t)
      {
        PeerCondition(State(s.stored.conditions, s.events), end, now, t);
      }
    }
  }

  /** A pass over a disabled resource clears its status; one that cannot read its resource, or whose
      status is not saved, leaves it. */
  lemma OtherPassLeaves(s: System, e: Entry)
    ensures e.pass.getError.Some? || !e.saved ==> AfterPass(s, e).stored == s.stored
    ensures e.saved && e.pass.ClusterPass? && e.pass.getError == None && e.pass.disabled ==>
              AfterPass(s, e).stored == Stored(Api.Disabled, false, "", map[])
  {
  }

  /******* Warnings *******/

  /** A warning announces one of the five bad turns, and a normal event none of them. */
  predicate Apt(e: Event) {
    e.warning <==>
    e.reason in {"ClusterIsNotLocal", "LocalClusterIsConflicting", "ClusterMetadataIsNotSet", "ClustersAreNotSynced",
                 "ClusterIsNotReady"}
  }

  predicate AptReport(c: Condition) {
    Apt(Event(Failing(c), c.reason, c.message))
  }

  lemma AptEach(error: Option<string>, bad: bool)
    ensures AptReport(ConflictReport(bad)) && AptReport(LocalReport(bad))
    ensures AptReport(MetadataReport(error)) && AptReport(ReadyReport(error)) && AptReport(SyncedReport(error))
  {
    assert "ClustersAreSynced"[7] == 's' && "ClusterIsNotLocal"[7] == 'I' && "ClusterIsNotReady"[7] == 'I';
  }

  lemma AptLocal(e: LocalEnd)
    ensures forall c | c in LocalReports(e) :: AptReport(c)
  {
    AptEach(None, true);
    AptEach(LocalError(e), false);
  }

  lemma AptPeer(e: PeerEnd)
    ensures forall c | c in PeerReports(e) :: AptReport(c)
  {
    AptEach(PeerError(e), false);
  }

  lemma AptRemote(e: RemoteEnd)
    ensures forall c | c in RemoteReports(e) :: AptReport(c)
  {
    AptEach(None, true);
    AptEach(if e.Checked? then e.syncError else RemoteError(e), true);
  }

  lemma AptReports(p: Pass)
    ensures forall c | c in Reports(p) :: AptReport(c)
  {
    if p.RemotePass? {
      AptRemote(p.remote);
    } else {
      AptLocal(p.local);
      AptPeer(p.peer);
      AptEach(p.getError, true);
    }
  }

  lemma {:induction false} AptEvents(s: State, cs: seq<Condition>, now: Clock)
    requires (forall e | e in s.events :: Apt(e)) && forall c | c in cs :: AptReport(c)
    ensures forall e | e in SetAll(s, cs, now).events :: Apt(e)
  {
    if cs != [] {
      AptEvents(s, cs[..|cs| - 1], now);
      assert cs[|cs| - 1] in cs;
    }
  }

  /** Over any history the warnings are exactly the events of a bad turn. */
  lemma {:induction false} WarningsAreApt(s: System, es: seq<Entry>)
    requires forall e | e in s.events :: Apt(e)
    ensures forall e | e in AfterAll(s, es).events :: Apt(e)
  {
    if es != [] {
      var before, last := AfterAll(s, es[..|es| - 1]), es[|es| - 1];
      WarningsAreApt(s, es[..|es| - 1]);
      AptReports(last.pass);
      AptEvents(State(before.stored.conditions, before.events), Reports(last.pass), last.now);
    }
  }

  /** The last pass that stored the ready condition was not followed by one that cleared it. */
  ghost predicate ReadyShown(es: seq<Entry>) {
    exists i | 0 <= i < |es| ::
      && Stores(es[i]) && es[i].pass.ClusterPass? && !es[i].pass.disabled
      && forall j | i < j < |es| :: !Clears(es[j])
  }

  /** One pass and the ready condition. */
  lemma ReadyAfterPass(s: System, e: Entry)
    requires Ready in s.stored.conditions ==> s.stored.conditions[Ready].status == True
    ensures var s' := AfterPass(s, e).stored;
            && (Ready in s'.conditions ==> s'.conditions[Ready].status == True)
            && (Ready in s'.conditions <==>
                  if Stores(e) && e.pass.ClusterPass? then !e.pass.disabled else Ready in s.stored.conditions)
  {
    var p, st := e.pass, State(s.stored.conditions, s.events);
    if p.RemotePass? {
      OthersKept(st, Reports(p), e.now, Ready);
    }
  }

  lemma ReadyShownStep(es: seq<Entry>, e: Entry)
    ensures ReadyShown(es + [e]) <==>
            if Stores(e) && e.pass.ClusterPass? then !e.pass.disabled else ReadyShown(es)
  {
    var all := es + [e];
    assert all[|es|] == e && forall i | 0 <= i < |es| :: all[i] == es[i];
    if ReadyShown(es) && !Clears(e) {
      var i :| 0 <= i < |es| && Stores(es[i]) && es[i].pass.ClusterPass? && !es[i].pass.disabled
               && forall j | i < j < |es| :: !Clears(es[j]);
      assert forall j | i < j < |all| :: !Clears(all[j]);
      assert Stores(all[i]);
    }
    if ReadyShown(all) && !(Stores(e) && e.pass.ClusterPass?) {
      var i :| 0 <= i < |all| && Stores(all[i]) && all[i].pass.ClusterPass? && !all[i].pass.disabled
               && forall j | i < j < |all| :: !Clears(all[j]);
      assert Stores(es[i]) && forall j | i < j < |es| :: !Clears(all[j]);
    }
  }

  /** The ready condition after any history from a resource without one: it is shown exactly when
      some pass over the enabled resource wrote the status, which over a peer only a failing pass
      does, and the resource was not disabled since; and it is then true, whatever failed. */
  lemma {:induction false} ReadyHistory(s: System, es: seq<Entry>)
    requires Ready !in s.stored.conditions
    ensures Ready in AfterAll(s, es).stored.conditions <==> ReadyShown(es)
    ensures Ready in AfterAll(s, es).stored.conditions ==> AfterAll(s, es).stored.conditions[Ready].status == True
  {
    if es != [] {
      var init, last := es[..|es| - 1], es[|es| - 1];
      ReadyHistory(s, init);
      ReadyAfterPass(AfterAll(s, init), last);
      ReadyShownStep(init, last);
      assert init + [last] == es;
    }
  }

  predicate OverPeer(e: Entry) {
    e.pass.ClusterPass? ==> !e.pass.isLocal && !e.pass.disabled
  }

  predicate FailedOverPeer(e: Entry) {
    e.saved && e.pass.ClusterPass? && e.pass.getError.None? && e.pass.peer.ConnectFailed?
  }

  /** For an enabled peer: the ready condition is shown, and true, if and only if connecting to it
      ever failed. A peer that never failed shows none. */
  lemma PeerReadyMeansFailed(s: System, es: seq<Entry>)
    requires Ready !in s.stored.conditions && forall e | e in es :: OverPeer(e)
    ensures Ready in AfterAll(s, es).stored.conditions <==> exists e | e in es :: FailedOverPeer(e)
    ensures (exists e | e in es :: FailedOverPeer(e)) ==> AfterAll(s, es).stored.conditions[Ready].status == True
  {
    ReadyHistory(s, es);
    if e :| e in es && FailedOverPeer(e) {
      var i :| 0 <= i < |es| && es[i] == e;
      forall j | i < j < |es|
        ensures !Clears(es[j])
      {
        assert es[j] in es;
      }
      assert Stores(es[i]);
    }
    if ReadyShown(es) {
      var i :| 0 <= i < |es| && Stores(es[i]) && es[i].pass.ClusterPass? && !es[i].pass.disabled
               && forall j | i < j < |es| :: !Clears(es[j]);
      assert es[i] in es && FailedOverPeer(es[i]);
    }
  }

  /** The last pass that wrote the status. */
  ghost predicate LastStored(es: seq<Entry>, i: int) {
    0 <= i < |es| && Stores(es[i]) && forall j | i < j < |es| :: !Stores(es[j])
  }

  /** The state after any history is the verdict of the last pass that wrote it: failing passes show
      it, a peer that works again does not, and missing auth info is never shown. */
  lemma {:induction false} StateHistory(s: System, es: seq<Entry>, i: int)
    requires LastStored(es, i)
    ensures var p, state := es[i].pass, AfterAll(s, es).stored.state;
            && (state in {Api.Failed, Api.InvalidAuthInfo} <==> PassError(p).Some?)
            && (state == Api.InvalidAuthInfo <==>
                  p.ClusterPass? && !p.disabled && !p.isLocal && p.peer.ConnectFailed? && p.peer.badAuthInfo)
            && (state == Api.Disabled <==> p.ClusterPass? && p.disabled)
            && state != Api.MissingAuthInfo
  {
    if i < |es| - 1 {
      assert es[..|es| - 1][i] == es[i] && !Stores(es[|es| - 1]);
      StateHistory(s, es[..|es| - 1], i);
    }
  }

  /******* What the stored conditions and the events say *******/

  /** The reports of a pass as calls. */
  function CallsOf(cs: seq<Condition>, now: Clock): seq<Call> {
    seq(|cs|, i requires 0 <= i < |cs| => Call(cs[i], now(i)))
  }

  predicate Ticking(e: Entry, n: nat) {
    e.now(n).change > 0
  }

  /** The clock never shows the zero time. */
  ghost predicate Clocked(es: seq<Entry>) {
    forall e, n {:trigger Ticking(e, n)} | e in es :: Ticking(e, n)
  }

  /** The local cluster's own resource does not keep the sync condition. */
  predicate Drops(e: Entry, t: Type) {
    Clears(e) || (Stores(e) && t == ClustersSynced && e.pass.ClusterPass? && e.pass.isLocal)
  }

  /** The reports that count for type t: those of the passes that stored their status, since the last
      one that dropped the condition. */
  function Counted(es: seq<Entry>, t: Type): seq<Call> {
    if es == [] then [] else
      var calls, e := Counted(es[..|es| - 1], t), es[|es| - 1];
      if Drops(e, t) then []
      else if Stores(e) then calls + CallsOf(Reports(e.pass), e.now)
      else calls
  }

  lemma {:induction false} AllPlain(es: seq<Entry>, t: Type)
    requires Clocked(es)
    ensures forall c | c in Counted(es, t) :: Plain(c)
  {
    if es != [] {
      var init, e := es[..|es| - 1], es[|es| - 1];
      assert forall x | x in init :: x in es;
      AllPlain(init, t);
      assert e in es;
      PassPlain(e);
      assert forall c | c in Counted(init, t) + CallsOf(Reports(e.pass), e.now) ::
          c in Counted(init, t) || c in CallsOf(Reports(e.pass), e.now);
    }
  }

  lemma PassPlain(e: Entry)
    requires forall n {:trigger Ticking(e, n)} :: Ticking(e, n)
    ensures forall c | c in CallsOf(Reports(e.pass), e.now) :: Plain(c)
  {
    FreshReports(e.pass);
    forall i | 0 <= i < |Reports(e.pass)|
      ensures Plain(CallsOf(Reports(e.pass), e.now)[i])
    {
      assert Ticking(e, i);
    }
  }

  /** Reports are made without times. */
  lemma FreshReports(p: Pass)
    ensures forall c | c in Reports(p) :: c.transition == 0
  {
    if p.ClusterPass? {
      var own := if p.isLocal then LocalReports(p.local) else PeerReports(p.peer);
      assert forall c | c in own :: c.transition == 0;
    }
  }

  lemma {:induction false} PassRecorded(s: State, calls: seq<Call>, cs: seq<Condition>, now: Clock, t: Type)
    requires (forall c | c in calls :: Plain(c)) && (forall c | c in CallsOf(cs, now) :: Plain(c))
    requires Recorded(calls, t, s.conditions)
    ensures Recorded(calls + CallsOf(cs, now), t, SetAll(s, cs, now).conditions)
    decreases |cs|
  {
    if cs == [] {
      assert calls + CallsOf(cs, now) == calls;
    } else {
      var init, call := cs[..|cs| - 1], Call(cs[|cs| - 1], now(|cs| - 1));
      assert CallsOf(cs, now) == CallsOf(init, now) + [call];
      PassRecorded(s, calls, init, now, t);
      var before := calls + CallsOf(init, now);
      assert forall c | c in before :: c in calls || c in CallsOf(init, now);
      RecordedStep(before, call, t, SetAll(s, init, now));
      assert calls + CallsOf(cs, now) == before + [call];
    }
  }

  /** Storing keeps what is recorded, apart from the sync condition of a local cluster. */
  lemma RecordedStored(calls: seq<Call>, t: Type, m: ConditionMap, isLocal: bool)
    requires Recorded(calls, t, m) && !(isLocal && t == ClustersSynced)
    ensures Recorded(calls, t, Serialised(Kept(m, isLocal)))
  {
    if t in m {
      var i, last :| TellsBy(calls, t, m[t], i, last);
      assert TellsBy(calls, t, m[t].(trueIsFailure := false), i, last);
    }
  }

  lemma StoredStep(s: System, calls: seq<Call>, e: Entry, t: Type)
    requires (forall c | c in calls :: Plain(c)) && Recorded(calls, t, s.stored.conditions)
    requires forall n {:trigger Ticking(e, n)} :: Ticking(e, n)
    ensures var calls' := if Drops(e, t) then []
                          else if Stores(e) then calls + CallsOf(Reports(e.pass), e.now) else calls;
            Recorded(calls', t, AfterPass(s, e).stored.conditions)
  {
    if Stores(e) && !Drops(e, t) {
      var st := State(s.stored.conditions, s.events);
      PassPlain(e);
      PassRecorded(st, calls, Reports(e.pass), e.now, t);
      RecordedStored(calls + CallsOf(Reports(e.pass), e.now), t, SetAll(st, Reports(e.pass), e.now).conditions,
                     e.pass.ClusterPass? && e.pass.isLocal);
    }
  }

  /** After any history, with every pass starting from what the one before it stored: a condition is
      stored exactly when a report about it counts, and then it is what the counting reports tell:
      last status, reason, message and heartbeat, and the time its latest run of equal statuses
      began. */
  lemma {:induction false} StoredHistory(s: System, es: seq<Entry>, t: Type)
    requires s.stored.conditions == map[] && Clocked(es)
    ensures Recorded(Counted(es, t), t, AfterAll(s, es).stored.conditions)
  {
    if es != [] {
      var init, e := es[..|es| - 1], es[|es| - 1];
      assert (forall x | x in init :: x in es) && e in es;
      StoredHistory(s, init, t);
      AllPlain(init, t);
      StoredStep(AfterAll(s, init), Counted(init, t), e, t);
    }
  }

  /** The events of the first k reports of a pass after es: one per report that changes the status
      last counted for its type, a warning when the change is bad. */
  ghost function Announcements(es: seq<Entry>, cs: seq<Condition>, now: Clock, k: nat): seq<Event>
    requires k <= |cs|
  {
    if k == 0 then [] else
      var c, calls := cs[k - 1], Counted(es, cs[k - 1].kind) + CallsOf(cs[..k - 1], now);
      Announcements(es, cs, now, k - 1)
      + if Changes(calls + [Call(c, now(k - 1))], |calls|) then [Event(Bad(c), c.reason, c.message)] else []
  }

  lemma PrefixPlain(cs: seq<Condition>, now: Clock, k: nat)
    requires k <= |cs| && forall c | c in CallsOf(cs, now) :: Plain(c)
    ensures forall c | c in CallsOf(cs[..k], now) :: Plain(c)
  {
    forall i | 0 <= i < k
      ensures Plain(CallsOf(cs[..k], now)[i])
    {
      assert CallsOf(cs, now)[i] in CallsOf(cs, now);
    }
  }

  /** The conditions are what es has left of every type. */
  ghost predicate AllRecorded(es: seq<Entry>, m: ConditionMap) {
    forall t :: Recorded(Counted(es, t), t, m) && forall c | c in Counted(es, t) :: Plain(c)
  }

  lemma {:induction false} PassAnnounces(s: State, es: seq<Entry>, cs: seq<Condition>, now: Clock, k: nat)
    requires k <= |cs| && (forall c | c in CallsOf(cs, now) :: Plain(c)) && AllRecorded(es, s.conditions)
    ensures SetAll(s, cs[..k], now).events == s.events + Announcements(es, cs, now, k)
  {
    if k > 0 {
      PassAnnounces(s, es, cs, now, k - 1);
      assert cs[..k][..k - 1] == cs[..k - 1];
      ReportSeen(s, es, cs, now, k - 1);
    }
  }

  /** Report k is an event exactly when it is a change of what was counted and reported before it. */
  lemma ReportSeen(s: State, es: seq<Entry>, cs: seq<Condition>, now: Clock, k: nat)
    requires k < |cs| && (forall c | c in CallsOf(cs, now) :: Plain(c)) && AllRecorded(es, s.conditions)
    ensures var c, m := cs[k], SetAll(s, cs[..k], now).conditions;
            var calls := Counted(es, c.kind) + CallsOf(cs[..k], now);
            Changes(calls + [Call(c, now(k))], |calls|) <==> c.kind in m && m[c.kind].status != c.status
  {
    var t := cs[k].kind;
    PrefixPlain(cs, now, k);
    assert Recorded(Counted(es, t), t, s.conditions);
    PassRecorded(s, Counted(es, t), cs[..k], now, t);
    ChangeSeen(Counted(es, t) + CallsOf(cs[..k], now), Call(cs[k], now(k)), SetAll(s, cs[..k], now).conditions);
  }

  predicate Reporting(e: Entry) {
    e.pass.getError.None? && !(e.pass.ClusterPass? && e.pass.disabled)
  }

  /** The events of pass e after es. */
  ghost function PassEvents(es: seq<Entry>, e: Entry): seq<Event> {
    if Reporting(e) then Announcements(es, Reports(e.pass), e.now, |Reports(e.pass)|) else []
  }

  ghost function AllAnnouncements(es: seq<Entry>): seq<Event> {
    if es == [] then [] else AllAnnouncements(es[..|es| - 1]) + PassEvents(es[..|es| - 1], es[|es| - 1])
  }

  /** The events of any history: exactly the reported changes of what was last counted. A pass that
      does not store its status announces its changes, and the next one announces them again. */
  lemma {:induction false} StoredEvents(s: System, es: seq<Entry>)
    requires s.stored.conditions == map[] && Clocked(es)
    ensures AfterAll(s, es).events == s.events + AllAnnouncements(es)
  {
    if es != [] {
      ClockedParts(es);
      EventsNext(s, es);
      StoredEvents(s, es[..|es| - 1]);
      Joined(s.events, AllAnnouncements(es[..|es| - 1]), PassEvents(es[..|es| - 1], es[|es| - 1]));
    }
  }

  lemma Joined(a: seq<Event>, b: seq<Event>, c: seq<Event>)
    ensures a + b + c == a + (b + c)
  {
  }

  lemma ClockedParts(es: seq<Entry>)
    requires es != [] && Clocked(es)
    ensures Clocked(es[..|es| - 1]) && forall n {:trigger Ticking(es[|es| - 1], n)} :: Ticking(es[|es| - 1], n)
  {
    assert forall x | x in es[..|es| - 1] :: x in es;
  }

  lemma EventsNext(s: System, es: seq<Entry>)
    requires s.stored.conditions == map[] && es != [] && Clocked(es)
    ensures var init, e := es[..|es| - 1], es[|es| - 1];
            AfterAll(s, es).events == AfterAll(s, init).events + PassEvents(init, e)
  {
    var init, e := es[..|es| - 1], es[|es| - 1];
    ClockedParts(es);
    RecordedAfter(s, init);
    EventsOfPass(AfterAll(s, init), init, e);
  }

  lemma RecordedAfter(s: System, es: seq<Entry>)
    requires s.stored.conditions == map[] && Clocked(es)
    ensures AllRecorded(es, AfterAll(s, es).stored.conditions)
  {
    forall t
      ensures Recorded(Counted(es, t), t, AfterAll(s, es).stored.conditions)
      ensures forall c | c in Counted(es, t) :: Plain(c)
    {
      StoredHistory(s, es, t);
      AllPlain(es, t);
    }
  }

  lemma EventsOfPass(s: System, es: seq<Entry>, e: Entry)
    requires AllRecorded(es, s.stored.conditions) && forall n {:trigger Ticking(e, n)} :: Ticking(e, n)
    ensures AfterPass(s, e).events == s.events + PassEvents(es, e)
  {
    var cs := Reports(e.pass);
    PassPlain(e);
    PassAnnounces(State(s.stored.conditions, s.events), es, cs, e.now, |cs|);
    assert cs[..|cs|] == cs;
  }
}
