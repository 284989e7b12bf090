/** The conditions of a Cluster resource: how they are updated, stored and read back. */
module Conditions {
  import opened Objects

  datatype Type = LocalCluster | LocalConflict | ClusterMetadataSet | Ready | ClustersSynced

  datatype Status = True | False | Unknown

  /** Times count from 1; 0 is the zero time. */
  type Time = nat

  /** The readings of the clock in one call: for a transition, and for the heartbeat. */
  datatype Moment = Moment(change: Time, beat: Time)

  /** `trueIsFailure` is not stored with the resource. */
  datatype Condition = Condition(
    kind: Type,
    status: Status,
    heartbeat: Time,
    transition: Time,
    reason: string,
    message: string,
    trueIsFailure: bool)

  type ConditionMap = map<Type, Condition>

  datatype Event = Event(warning: bool, reason: string, message: string)

  datatype State = State(conditions: ConditionMap, events: seq<Event>)

  predicate Failing(c: Condition) {
    if c.trueIsFailure then c.status == True else c.status == False
  }

  /** SetCondition at `now`. */
  function Set(s: State, c: Condition, now: Moment): State {
    if c.kind !in s.conditions then
      State(s.conditions[c.kind :=
              c.(heartbeat := now.beat, transition := if c.transition == 0 then now.change else c.transition)],
            s.events)
    else
      var cur := s.conditions[c.kind];
      var changed := cur.status != c.status;
      var transition := if changed || cur.transition == 0 then now.change else cur.transition;
      State(s.conditions[c.kind := cur.(status := c.status, reason := c.reason, message := c.message,
                                        transition := transition, heartbeat := now.beat)],
            if changed then s.events + [Event(Failing(c), c.reason, c.message)] else s.events)
  }

  class Tracker {
    var conditions: ConditionMap
    var events: seq<Event>

    constructor (conditions: ConditionMap)
      ensures Now() == State(conditions, [])
    {
      this.conditions := conditions;
      events := [];
    }

    function Now(): State
      reads this
    {
      State(conditions, events)
    }

    method SetCondition(c: Condition, now: Moment)
      modifies this
      ensures Now() == Set(old(Now()), c, now)
    {
      var current := c;
      if c.kind in conditions {
        current := conditions[c.kind];
        if current.status != c.status {
          current := current.(transition := now.change);
          var warning := false;
          if (c.trueIsFailure && c.status == True) || (!c.trueIsFailure && c.status == False) {
            warning := true;
          }
          events := events + [Event(warning, c.reason, c.message)];
        }
        current := current.(message := c.message);
        current := current.(reason := c.reason);
        current := current.(status := c.status);
      }
      if current.transition == 0 {
        current := current.(transition := now.change);
      }
      current := current.(heartbeat := now.beat);
      conditions := conditions[c.kind := current];
    }
  }

  /** A condition that was set has a transition time: the time of this call if its status changed,
      the time it had if not, and the time it came with if it is new. */
  lemma TransitionTime(s: State, c: Condition, now: Moment)
    requires now.change > 0
    ensures c.kind in Set(s, c, now).conditions
    ensures var time := Set(s, c, now).conditions[c.kind].transition;
            var had := if c.kind !in s.conditions then c.transition
                       else if s.conditions[c.kind].status == c.status then s.conditions[c.kind].transition
                       else now.change;
            time > 0 && time in {had, now.change} && (had > 0 ==> time == had)
  {
  }

  /******* Histories *******/

  datatype Call = Call(condition: Condition, now: Moment)

  /** Conditions are built without times, and the clock never shows the zero time. */
  predicate Plain(c: Call) {
    c.condition.transition == 0 && c.now.change > 0
  }

  function After(calls: seq<Call>): State {
    if calls == [] then State(map[], []) else
      Set(After(calls[..|calls| - 1]), calls[|calls| - 1].condition, calls[|calls| - 1].now)
  }

  /** The last call about t. */
  ghost predicate LastCall(calls: seq<Call>, t: Type, last: int) {
    && 0 <= last < |calls| && calls[last].condition.kind == t
    && forall j | last < j < |calls| :: calls[j].condition.kind != t
  }

  /** p is the call about t next before i. */
  ghost predicate Previous(calls: seq<Call>, t: Type, p: int, i: int) {
    && 0 <= p < i <= |calls| && calls[p].condition.kind == t
    && forall j | p < j < i :: calls[j].condition.kind != t
  }

  /** i starts the latest run of calls about t that agree with the last one on the status. */
  ghost predicate RunStart(calls: seq<Call>, t: Type, i: int, last: int) {
    && 0 <= i <= last < |calls| && calls[i].condition.kind == t
    && (forall j | i <= j <= last && calls[j].condition.kind == t ::
          calls[j].condition.status == calls[last].condition.status)
    && (forall p | Previous(calls, t, p, i) :: calls[p].condition.status != calls[last].condition.status)
  }

  ghost predicate TellsBy(calls: seq<Call>, t: Type, c: Condition, i: int, last: int) {
    && LastCall(calls, t, last) && RunStart(calls, t, i, last)
    && c.kind == t
    && c.status == calls[last].condition.status
    && c.reason == calls[last].condition.reason && c.message == calls[last].condition.message
    && c.heartbeat == calls[last].now.beat
    && c.transition == calls[i].now.change
  }

  /** The calls tell everything about the condition of type t. */
  ghost predicate Tells(calls: seq<Call>, t: Type, c: Condition) {
    exists i, last :: TellsBy(calls, t, c, i, last)
  }

  lemma RunStartExtends(calls: seq<Call>, call: Call, t: Type, i: int, last: int)
    requires RunStart(calls, t, i, last)
    ensures RunStart(calls + [call], t, i, last)
  {
    var all := calls + [call];
    assert forall j | 0 <= j < |calls| :: all[j] == calls[j];
    forall p | Previous(all, t, p, i)
      ensures all[p].condition.status != all[last].condition.status
    {
      assert Previous(calls, t, p, i);
    }
  }

  /** A call about another type changes nothing. */
  lemma TellsExtend(calls: seq<Call>, call: Call, t: Type, c: Condition)
    requires Tells(calls, t, c) && call.condition.kind != t
    ensures Tells(calls + [call], t, c)
  {
    var all := calls + [call];
    var i, last :| TellsBy(calls, t, c, i, last);
    RunStartExtends(calls, call, t, i, last);
    assert forall j | 0 <= j < |calls| :: all[j] == calls[j];
    assert TellsBy(all, t, c, i, last);
  }

  lemma TellsRepeat(calls: seq<Call>, call: Call, t: Type, c: Condition)
    requires Tells(calls, t, c) && call.condition.kind == t
    ensures var d := call.condition;
            Tells(calls + [call], t,
                  c.(status := d.status, reason := d.reason, message := d.message, heartbeat := call.now.beat,
                     transition := if c.status != d.status then call.now.change else c.transition))
  {
    var all, n, d := calls + [call], |calls|, call.condition;
    var c' := c.(status := d.status, reason := d.reason, message := d.message, heartbeat := call.now.beat,
                 transition := if c.status != d.status then call.now.change else c.transition);
    var i, last :| TellsBy(calls, t, c, i, last);
    RunStartExtends(calls, call, t, i, last);
    assert forall j | 0 <= j < n :: all[j] == calls[j];
    if c.status == d.status {
      assert forall j | i <= j <= n && all[j].condition.kind == t :: j <= last || j == n;
      assert TellsBy(all, t, c', i, n);
    } else {
      assert forall p | Previous(all, t, p, n) :: p == last;
      assert TellsBy(all, t, c', n, n);
    }
  }

  lemma TellsFirst(calls: seq<Call>, call: Call)
    requires forall j | 0 <= j < |calls| :: calls[j].condition.kind != call.condition.kind
    ensures Tells(calls + [call], call.condition.kind,
                  call.condition.(heartbeat := call.now.beat, transition := call.now.change))
  {
    var all, n := calls + [call], |calls|;
    assert forall j | 0 <= j < n :: all[j] == calls[j];
    var c := call.condition.(heartbeat := call.now.beat, transition := call.now.change);
    assert TellsBy(all, call.condition.kind, c, n, n);
  }

  /** The conditions have one of type t exactly when a call was about t, and it is what they tell. */
  ghost predicate Recorded(calls: seq<Call>, t: Type, m: ConditionMap) {
    && (t in m <==> exists c | c in calls :: c.condition.kind == t)
    && (t in m ==> Tells(calls, t, m[t]))
  }

  /** The condition that one more call leaves is the one the longer history tells. */
  lemma RecordedStep(calls: seq<Call>, call: Call, t: Type, s: State)
    requires (forall c | c in calls :: Plain(c)) && Plain(call) && Recorded(calls, t, s.conditions)
    ensures Recorded(calls + [call], t, Set(s, call.condition, call.now).conditions)
  {
    assert call in calls + [call];
    assert forall c | c in calls + [call] :: c in calls || c == call;
    if call.condition.kind != t {
      if t in s.conditions {
        TellsExtend(calls, call, t, s.conditions[t]);
      }
    } else if t in s.conditions {
      Positive(calls, t, s.conditions[t]);
      TellsRepeat(calls, call, t, s.conditions[t]);
    } else {
      assert forall j | 0 <= j < |calls| :: calls[j] in calls;
      TellsFirst(calls, call);
    }
  }

  /** After any calls from an empty start, a condition is there exactly when it was set; its status,
      reason and message are those of its last call, its heartbeat is the time of that call, and
      its transition time is that of the first call in its latest run of equal statuses. */
  lemma {:induction false} ConditionHistory(calls: seq<Call>, t: Type)
    requires forall c | c in calls :: Plain(c)
    ensures Recorded(calls, t, After(calls).conditions)
  {
    if calls != [] {
      var init, call := calls[..|calls| - 1], calls[|calls| - 1];
      assert calls == init + [call];
      ConditionHistory(init, t);
      RecordedStep(init, call, t, After(init));
    }
  }

  /** Recorded times are never zero. */
  lemma Positive(calls: seq<Call>, t: Type, c: Condition)
    requires (forall x | x in calls :: Plain(x)) && Tells(calls, t, c)
    ensures c.transition > 0
  {
    var i, last :| TellsBy(calls, t, c, i, last);
    assert calls[i] in calls;
  }

  /******* Events *******/

  /** Call i changes the status that an earlier call about the same type set. */
  ghost predicate Changes(calls: seq<Call>, i: nat) {
    && i < |calls|
    && exists p | Previous(calls, calls[i].condition.kind, p, i) ::
         calls[p].condition.status != calls[i].condition.status
  }

  /** The status a condition should not have: true where that means a failure, false elsewhere. */
  predicate Bad(c: Condition) {
    c.status == if c.trueIsFailure then True else False
  }

  /** The events the calls ask for: one per change, in order, a warning when the change is bad. */
  ghost function Announced(calls: seq<Call>, n: nat): seq<Event>
    requires n <= |calls|
  {
    if n == 0 then [] else
      var c := calls[n - 1].condition;
      Announced(calls, n - 1) + (if Changes(calls, n - 1) then [Event(Bad(c), c.reason, c.message)] else [])
  }

  lemma {:induction false} AnnouncedPrefix(calls: seq<Call>, call: Call, n: nat)
    requires n <= |calls|
    ensures Announced(calls + [call], n) == Announced(calls, n)
  {
    if n > 0 {
      AnnouncedPrefix(calls, call, n - 1);
      var all, i, t := calls + [call], n - 1, calls[n - 1].condition.kind;
      assert forall j | 0 <= j < n :: all[j] == calls[j];
      assert forall p :: Previous(all, t, p, i) <==> Previous(calls, t, p, i);
    }
  }

  /** A call changes the status exactly when the recorded condition differs. */
  lemma ChangeSeen(calls: seq<Call>, call: Call, m: ConditionMap)
    requires Recorded(calls, call.condition.kind, m)
    ensures Changes(calls + [call], |calls|) <==>
            call.condition.kind in m && m[call.condition.kind].status != call.condition.status
  {
    var t, all, n := call.condition.kind, calls + [call], |calls|;
    assert forall j | 0 <= j < n :: all[j] == calls[j];
    if t in m {
      var i, last :| TellsBy(calls, t, m[t], i, last);
      assert Previous(all, t, last, n);
      assert forall p | Previous(all, t, p, n) :: p == last;
    } else {
      assert forall j | 0 <= j < n :: calls[j] in calls;
    }
  }

  /** One more call adds the event of its change, if it is one. */
  lemma EventStep(calls: seq<Call>, call: Call)
    requires (forall c | c in calls :: Plain(c)) && Plain(call)
    ensures var c, events := call.condition, After(calls).events;
            After(calls + [call]).events
            == events + if Changes(calls + [call], |calls|) then [Event(Bad(c), c.reason, c.message)] else []
  {
    assert (calls + [call])[..|calls|] == calls;
    ConditionHistory(calls, call.condition.kind);
    ChangeSeen(calls, call, After(calls).conditions);
  }

  /** Events are exactly the status changes, in order. */
  lemma {:induction false} EventHistory(calls: seq<Call>)
    requires forall c | c in calls :: Plain(c)
    ensures After(calls).events == Announced(calls, |calls|)
  {
    if calls != [] {
      var init, call := calls[..|calls| - 1], calls[|calls| - 1];
      assert calls == init + [call];
      EventHistory(init);
      EventStep(init, call);
      AnnouncedPrefix(init, call, |init|);
    }
  }

  /******* Storing and reading back *******/

  /** What is read back from a condition list: a later entry of a type replaces an earlier one. */
  function FromList(cs: seq<Condition>): ConditionMap {
    if cs == [] then map[] else FromList(cs[..|cs| - 1])[cs[|cs| - 1].kind := cs[|cs| - 1]]
  }

  method GetCurrentConditions(cs: seq<Condition>) returns (m: ConditionMap)
    ensures m == FromList(cs)
  {
    m := map[];
    for i := 0 to |cs|
      invariant m == FromList(cs[..i])
    {
      assert cs[..i + 1][..i] == cs[..i];
      m := m[cs[i].kind := cs[i]];
    }
    assert cs[..|cs|] == cs;
  }

  /** The first entry of a type; None is the zero condition. */
  method GetCurrentCondition(cs: seq<Condition>, t: Type) returns (c: Option<Condition>)
    ensures c.Some? <==> exists i | 0 <= i < |cs| :: cs[i].kind == t
    ensures c.Some? ==>
              exists i | 0 <= i < |cs| ::
                cs[i] == c.value && c.value.kind == t && forall j | 0 <= j < i :: cs[j].kind != t
  {
    for i := 0 to |cs|
      invariant forall j | 0 <= j < i :: cs[j].kind != t
    {
      if cs[i].kind == t {
        return Some(cs[i]);
      }
    }
    return None;
  }

  predicate Keyed(m: ConditionMap) {
    forall t | t in m :: m[t].kind == t
  }

  predicate Distinct(cs: seq<Condition>) {
    forall i, j | 0 <= i < j < |cs| :: cs[i].kind != cs[j].kind
  }

  /** A local cluster does not keep the sync condition. */
  function Kept(m: ConditionMap, isLocal: bool): ConditionMap {
    if isLocal then m - {ClustersSynced} else m
  }

  lemma Appended(cs: seq<Condition>, c: Condition)
    requires Distinct(cs) && forall i | 0 <= i < |cs| :: cs[i].kind != c.kind
    ensures Distinct(cs + [c]) && FromList(cs + [c]) == FromList(cs)[c.kind := c]
  {
    assert (cs + [c])[..|cs|] == cs;
  }

  lemma OneMore(kept: ConditionMap, todo: set<Type>, t: Type)
    requires t in todo
    ensures kept - (todo - {t}) == if t in kept then (kept - todo)[t := kept[t]] else kept - todo
  {
  }

  /** The list that is stored, in whatever order the map is visited. */
  method ToList(m: ConditionMap, isLocal: bool) returns (cs: seq<Condition>)
    requires Keyed(m)
    ensures Distinct(cs) && FromList(cs) == if isLocal then m - {ClustersSynced} else m
  {
    cs := [];
    ghost var kept := Kept(m, isLocal);
    var todo := m.Keys;
    while todo != {}
      invariant todo <= m.Keys && Distinct(cs)
      invariant FromList(cs) == kept - todo
      invariant forall i | 0 <= i < |cs| :: cs[i].kind !in todo
      decreases todo
    {
      var t :| t in todo;
      OneMore(kept, todo, t);
      if !(isLocal && m[t].kind == ClustersSynced) {
        Appended(cs, m[t]);
        cs := cs + [m[t]];
      }
      todo := todo - {t};
    }
    assert kept - {} == kept;
  }

  /** On a list without duplicates, looking up the first entry and rebuilding the map agree. */
  lemma {:induction false} LookupAgrees(cs: seq<Condition>, i: nat)
    requires Distinct(cs) && i < |cs|
    ensures cs[i].kind in FromList(cs) && FromList(cs)[cs[i].kind] == cs[i]
  {
    if i < |cs| - 1 {
      LookupAgrees(cs[..|cs| - 1], i);
    }
  }
}
