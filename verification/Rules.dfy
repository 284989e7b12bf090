/** Sync rules: which objects a rule selects, and how the mutations of the selected rules merge. */
module Rules {
  import opened Objects

  /******* Selectors *******/

  datatype Operator = In | NotIn | Exists | DoesNotExist | Unsupported(text: string)

  datatype Requirement = Requirement(key: MetaKey, op: Operator, values: seq<string>)

  datatype Selector = Selector(matchLabels: Labels, matchExpressions: seq<Requirement>)

  /** What conversion to a label selector checks about operators and their value lists. */
  predicate ValidRequirement(r: Requirement) {
    match r.op
    case In | NotIn => r.values != []
    case Exists | DoesNotExist => r.values == []
    case Unsupported(_) => false
  }

  predicate Valid(s: Selector) {
    forall r | r in s.matchExpressions :: ValidRequirement(r)
  }

  predicate Holds(r: Requirement, labels: Labels) {
    match r.op
    case In => r.key in labels && labels[r.key] in r.values
    case NotIn => r.key in labels ==> labels[r.key] !in r.values
    case Exists => r.key in labels
    case DoesNotExist => r.key !in labels
    case Unsupported(_) => false
  }

  predicate Selects(s: Selector, labels: Labels) {
    && (forall k | k in s.matchLabels :: k in labels && labels[k] == s.matchLabels[k])
    && (forall r | r in s.matchExpressions :: Holds(r, labels))
  }

  /** In and NotIn, and Exists and DoesNotExist, decide oppositely on every label map. */
  lemma OperatorMeaning(key: MetaKey, values: seq<string>, labels: Labels)
    ensures Holds(Requirement(key, NotIn, values), labels) != Holds(Requirement(key, In, values), labels)
    ensures Holds(Requirement(key, DoesNotExist, []), labels) != Holds(Requirement(key, Exists, []), labels)
    ensures Holds(Requirement(key, Exists, []), labels) <==>
            exists v :: Holds(Requirement(key, In, [v]), labels)
  {
    if key in labels {
      assert Holds(Requirement(key, In, [labels[key]]), labels);
    }
  }

  /** A wanted label is a requirement with one value; a requirement is valid exactly when its operator
      is known and it has values just where the operator compares them. */
  lemma SelectorMeaning(s: Selector, labels: Labels)
    ensures Selects(s, labels) <==>
            && (forall k | k in s.matchLabels :: Holds(Requirement(k, In, [s.matchLabels[k]]), labels))
            && (forall r | r in s.matchExpressions :: Holds(r, labels))
    ensures Valid(s) <==>
            forall r | r in s.matchExpressions ::
              !r.op.Unsupported? && (r.values == [] <==> r.op in {Exists, DoesNotExist})
  {
    forall k | k in s.matchLabels
      ensures Holds(Requirement(k, In, [s.matchLabels[k]]), labels) <==> k in labels && labels[k] == s.matchLabels[k]
    {
    }
  }

  /******* Rules *******/

  /** Mutations of one metadata map: entries to add, then keys to remove. */
  datatype MetaMutation = MetaMutation(add: Labels, remove: seq<MetaKey>)

  const NO_META := MetaMutation(map[], [])

  /** `gvk` with empty fields leaves those fields alone; overrides are overlay patches. */
  datatype Mutations = Mutations(
    annotations: MetaMutation,
    labels: MetaMutation,
    gvk: GVK,
    overrides: seq<string>,
    syncStatus: bool)

  const NO_GVK := GVK("", "", "")

  datatype SyncRuleMatch = SyncRuleMatch(
    objectName: string,
    objectNamespace: string,
    namespaces: seq<string>,
    labels: seq<Selector>,
    annotations: seq<Selector>)

  datatype SyncRule = SyncRule(matches: seq<SyncRuleMatch>, mutations: Mutations)

  datatype FeatureMatch = FeatureMatch(featureName: string, selector: Selector)

  datatype RuleSpec = RuleSpec(clusterFeatureMatches: seq<FeatureMatch>, gvk: GVK, rules: seq<SyncRule>)

  /** A boolean answer or an error. */
  datatype Verdict = Matched | Unmatched | Failed

  /******* Matching *******/

  /** Object key and namespace list; the namespace list is not applied to cluster-scoped objects. */
  predicate KeyFits(m: SyncRuleMatch, o: Object) {
    && (m.objectName == "" || m.objectName == o.name)
    && (m.objectNamespace == "" || m.objectNamespace == o.namespace)
    && (m.namespaces == [] || o.namespace == "" || o.namespace in m.namespaces)
  }

  /** A list of label selectors: the first one that is invalid or selects decides. */
  function FirstSelected(sels: seq<Selector>, labels: Labels): Verdict {
    if sels == [] then Unmatched
    else if !Valid(sels[0]) then Failed
    else if Selects(sels[0], labels) then Matched
    else FirstSelected(sels[1..], labels)
  }

  /** A list of annotation selectors: every one is converted, even behind a match. */
  function AnySelected(sels: seq<Selector>, annotations: Labels): Verdict {
    if exists s | s in sels :: !Valid(s) then Failed
    else if exists s | s in sels :: Selects(s, annotations) then Matched
    else Unmatched
  }

  function MatchVerdict(m: SyncRuleMatch, o: Object): Verdict {
    if !KeyFits(m, o) then Unmatched else
      var byLabels := if m.labels == [] then Matched else FirstSelected(m.labels, o.labels);
      if byLabels != Matched || m.annotations == [] then byLabels
      else AnySelected(m.annotations, o.annotations)
  }

  function FirstMatch(ms: seq<SyncRuleMatch>, o: Object): Verdict {
    if ms == [] then Unmatched
    else if MatchVerdict(ms[0], o) != Unmatched then MatchVerdict(ms[0], o)
    else FirstMatch(ms[1..], o)
  }

  function RuleVerdict(r: SyncRule, o: Object): Verdict {
    if r.matches == [] then Matched else FirstMatch(r.matches, o)
  }

  function Selected(rules: seq<SyncRule>, o: Object): (rs: seq<SyncRule>)
    ensures forall r :: r in rs <==> r in rules && RuleVerdict(r, o) == Matched
  {
    if rules == [] then [] else
      Selected(rules[..|rules| - 1], o)
      + (if RuleVerdict(rules[|rules| - 1], o) == Matched then [rules[|rules| - 1]] else [])
  }

  predicate SomeFails(rules: seq<SyncRule>, o: Object) {
    exists r | r in rules :: RuleVerdict(r, o) == Failed
  }

  /** The rules that apply to o, in rule order, or None on a matching error. */
  function MatchedRules(spec: RuleSpec, o: Object): (rs: Option<seq<SyncRule>>)
    ensures rs.Some? ==> forall r | r in rs.value :: r in spec.rules
  {
    if o.gvk != spec.gvk then Some([])
    else if SomeFails(spec.rules, o) then None
    else Some(Selected(spec.rules, o))
  }

  method MatchOne(m: SyncRuleMatch, o: Object) returns (v: Verdict)
    ensures v == MatchVerdict(m, o)
  {
    if m.objectName != "" && m.objectName != o.name {
      return Unmatched;
    }
    if m.objectNamespace != "" && m.objectNamespace != o.namespace {
      return Unmatched;
    }
    if m.namespaces != [] && o.namespace != "" {
      var found := false;
      for i := 0 to |m.namespaces|
        invariant found <==> o.namespace in m.namespaces[..i]
      {
        if o.namespace == m.namespaces[i] {
          found := true;
        }
      }
      if !found {
        return Unmatched;
      }
    }
    if m.labels != [] {
      var found := false;
      var i := 0;
      while i < |m.labels| && !found
        invariant 0 <= i <= |m.labels|
        invariant FirstSelected(m.labels, o.labels)
               == if found then Matched else FirstSelected(m.labels[i..], o.labels)
      {
        if !Valid(m.labels[i]) {
          return Failed;
        }
        found := Selects(m.labels[i], o.labels);
        i := i + 1;
      }
      if !found {
        return Unmatched;
      }
    }
    if m.annotations != [] {
      var found := false;
      for i := 0 to |m.annotations|
        invariant forall s | s in m.annotations[..i] :: Valid(s)
        invariant found <==> exists s | s in m.annotations[..i] :: Selects(s, o.annotations)
      {
        if !Valid(m.annotations[i]) {
          return Failed;
        }
        if Selects(m.annotations[i], o.annotations) {
          found := true;
        }
      }
      if !found {
        return Unmatched;
      }
    }
    return Matched;
  }

  method MatchSpec(spec: RuleSpec, o: Object) returns (rs: Option<seq<SyncRule>>)
    ensures rs == MatchedRules(spec, o)
  {
    var matched := [];
    if o.gvk != spec.gvk {
      return Some(matched);
    }
    for i := 0 to |spec.rules|
      invariant !SomeFails(spec.rules[..i], o)
      invariant matched == Selected(spec.rules[..i], o)
    {
      assert spec.rules[..i + 1][..i] == spec.rules[..i];
      var v := MatchRule(spec.rules[i], o);
      if v == Failed {
        return None;
      }
      if v == Matched {
        matched := matched + [spec.rules[i]];
      }
    }
    assert spec.rules[..|spec.rules|] == spec.rules;
    return Some(matched);
  }

  method MatchRule(r: SyncRule, o: Object) returns (v: Verdict)
    ensures v == RuleVerdict(r, o)
  {
    if r.matches == [] {
      return Matched;
    }
    for i := 0 to |r.matches|
      invariant FirstMatch(r.matches, o) == FirstMatch(r.matches[i..], o)
    {
      v := MatchOne(r.matches[i], o);
      if v != Unmatched {
        return;
      }
    }
    return Unmatched;
  }

  /** A label selector list is decided by its first selector that is invalid or selects: an
      invalid one in front of a match is an error, one behind it is never looked at. */
  lemma {:induction false} FirstSelectedMeaning(sels: seq<Selector>, labels: Labels, i: nat)
    requires i <= |sels|
    requires forall j | 0 <= j < i :: Valid(sels[j]) && !Selects(sels[j], labels)
    requires i < |sels| ==> !Valid(sels[i]) || Selects(sels[i], labels)
    ensures FirstSelected(sels, labels)
         == if i == |sels| then Unmatched else if Valid(sels[i]) then Matched else Failed
  {
    if i > 0 {
      FirstSelectedMeaning(sels[1..], labels, i - 1);
    }
  }

  /** Selector i is the first of the list that is invalid or selects. */
  ghost predicate Decides(sels: seq<Selector>, labels: Labels, i: int) {
    && 0 <= i < |sels| && (!Valid(sels[i]) || Selects(sels[i], labels))
    && forall j | 0 <= j < i :: Valid(sels[j]) && !Selects(sels[j], labels)
  }

  lemma {:induction false} SomeDecides(sels: seq<Selector>, labels: Labels, n: nat) returns (i: nat)
    requires n <= |sels| && forall j | 0 <= j < n :: Valid(sels[j]) && !Selects(sels[j], labels)
    ensures i <= |sels| && (i < |sels| ==> Decides(sels, labels, i))
    ensures forall j | 0 <= j < i :: Valid(sels[j]) && !Selects(sels[j], labels)
    decreases |sels| - n
  {
    i := n;
    if n < |sels| && Valid(sels[n]) && !Selects(sels[n], labels) {
      i := SomeDecides(sels, labels, n + 1);
    }
  }

  /** A list of label selectors by its first deciding one. */
  lemma LabelListMeaning(sels: seq<Selector>, labels: Labels)
    ensures FirstSelected(sels, labels) == Matched <==> exists i :: Decides(sels, labels, i) && Valid(sels[i])
    ensures FirstSelected(sels, labels) == Failed <==> exists i :: Decides(sels, labels, i) && !Valid(sels[i])
  {
    var i := SomeDecides(sels, labels, 0);
    FirstSelectedMeaning(sels, labels, i);
    forall j | Decides(sels, labels, j)
      ensures j == i
    {
    }
  }

  /** The name, the namespace and the list of namespaces of a match entry allow the object. */
  predicate Allows(m: SyncRuleMatch, name: string, namespace: string) {
    && m.objectName in {"", name} && m.objectNamespace in {"", namespace}
    && (m.namespaces != [] && namespace != "" ==> namespace in m.namespaces)
  }

  /** The verdict of a match entry. It matches exactly when name and namespaces allow the object, the
      labels are free or chosen by a valid selector in front of which all are valid and choose
      nothing, and the annotations are free or some selector among valid ones chooses them. It
      fails exactly when an invalid selector is reached. */
  lemma EntryMeaning(m: SyncRuleMatch, o: Object)
    ensures MatchVerdict(m, o) == Matched <==>
            && Allows(m, o.name, o.namespace)
            && (m.labels == [] || exists i :: Decides(m.labels, o.labels, i) && Valid(m.labels[i]))
            && (m.annotations == [] || ((forall s | s in m.annotations :: Valid(s))
                                        && exists s | s in m.annotations :: Selects(s, o.annotations)))
    ensures MatchVerdict(m, o) == Failed <==>
            && Allows(m, o.name, o.namespace)
            && (|| (exists i :: Decides(m.labels, o.labels, i) && !Valid(m.labels[i]))
                || (&& (m.labels == [] || exists i :: Decides(m.labels, o.labels, i) && Valid(m.labels[i]))
                    && exists s | s in m.annotations :: !Valid(s)))
  {
    LabelListMeaning(m.labels, o.labels);
    if m.labels == [] {
      assert forall i :: !Decides(m.labels, o.labels, i);
    }
  }

  /** A rule without entries matches; otherwise its first entry that matches or fails decides. */
  lemma {:induction false} RuleMeaning(ms: seq<SyncRuleMatch>, o: Object, v: Verdict)
    requires v != Unmatched
    ensures FirstMatch(ms, o) == v <==>
            exists i | 0 <= i < |ms| ::
              MatchVerdict(ms[i], o) == v && forall j | 0 <= j < i :: MatchVerdict(ms[j], o) == Unmatched
  {
    if ms != [] {
      RuleMeaning(ms[1..], o, v);
      if MatchVerdict(ms[0], o) == Unmatched {
        if i :| 0 <= i < |ms| && MatchVerdict(ms[i], o) == v
                && forall j | 0 <= j < i :: MatchVerdict(ms[j], o) == Unmatched {
          assert ms[1..][i - 1] == ms[i] && forall j | 0 <= j < i - 1 :: ms[1..][j] == ms[j + 1];
        }
        if i :| 0 <= i < |ms[1..]| && MatchVerdict(ms[1..][i], o) == v
                && forall j | 0 <= j < i :: MatchVerdict(ms[1..][j], o) == Unmatched {
          assert ms[i + 1] == ms[1..][i] && forall j | 0 <= j < i + 1 :: j == 0 || ms[j] == ms[1..][j - 1];
        }
      }
    }
  }

  /** The entries of a rule that decides v are none, or the first deciding one says v. */
  ghost predicate RuleSays(r: SyncRule, o: Object, v: Verdict) {
    if r.matches == [] then v == Matched else
      exists i | 0 <= i < |r.matches| ::
        MatchVerdict(r.matches[i], o) == v && forall j | 0 <= j < i :: MatchVerdict(r.matches[j], o) == Unmatched
  }

  /** The rules that apply: an error if a rule of the object's kind fails; otherwise the rules of the
      object's kind that match, and none for another kind. */
  lemma SpecMeaning(spec: RuleSpec, o: Object)
    ensures MatchedRules(spec, o).None? <==> o.gvk == spec.gvk && exists r | r in spec.rules :: RuleSays(r, o, Failed)
    ensures MatchedRules(spec, o).Some? ==>
              forall r :: r in MatchedRules(spec, o).value <==>
                          o.gvk == spec.gvk && r in spec.rules && RuleSays(r, o, Matched)
  {
    forall r: SyncRule
      ensures RuleSays(r, o, Matched) <==> RuleVerdict(r, o) == Matched
      ensures RuleSays(r, o, Failed) <==> RuleVerdict(r, o) == Failed
    {
      RuleMeaning(r.matches, o, Matched);
      RuleMeaning(r.matches, o, Failed);
    }
  }

  /******* Kind mutations *******/

  function Overlay(m: GVK, g: GVK): GVK {
    GVK(if m.group != "" then m.group else g.group,
        if m.version != "" then m.version else g.version,
        if m.kind != "" then m.kind else g.kind)
  }

  function MutateGvk(rules: seq<SyncRule>, g: GVK): GVK {
    if rules == [] then g
    else Overlay(rules[|rules| - 1].mutations.gvk, MutateGvk(rules[..|rules| - 1], g))
  }

  predicate MutatesGvk(rules: seq<SyncRule>) {
    exists r | r in rules :: r.mutations.gvk != NO_GVK
  }

  method GetMutatedGvk(rules: seq<SyncRule>, gvk: GVK) returns (mutated: bool, g: GVK)
    ensures mutated <==> exists r | r in rules :: r.mutations.gvk != GVK("", "", "")
    ensures g == MutateGvk(rules, gvk)
  {
    mutated, g := false, gvk;
    for i := 0 to |rules|
      invariant mutated == MutatesGvk(rules[..i])
      invariant g == MutateGvk(rules[..i], gvk)
    {
      assert rules[..i + 1][..i] == rules[..i];
      var m := rules[i].mutations.gvk;
      if m != NO_GVK {
        mutated := true;
        if m.group != "" {
          g := g.(group := m.group);
        }
        if m.kind != "" {
          g := g.(kind := m.kind);
        }
        if m.version != "" {
          g := g.(version := m.version);
        }
      }
    }
    assert rules[..|rules|] == rules;
  }

  /** Mutating by a concatenation is mutating by one list, then by the other. */
  lemma {:induction false} GvkCompose(a: seq<SyncRule>, b: seq<SyncRule>, g: GVK)
    ensures MutateGvk(a + b, g) == MutateGvk(b, MutateGvk(a, g))
  {
    if b == [] {
      assert a + b == a;
    } else {
      assert (a + b)[..|a + b| - 1] == a + b[..|b| - 1];
      GvkCompose(a, b[..|b| - 1], g);
    }
  }

  function GvkRules(rules: seq<SyncRule>): seq<SyncRule> {
    if rules == [] then [] else
      GvkRules(rules[..|rules| - 1])
      + (if rules[|rules| - 1].mutations.gvk != NO_GVK then [rules[|rules| - 1]] else [])
  }

  /** Rules without a kind mutation can be dropped anywhere in the list. */
  lemma {:induction false} GvkDrop(rules: seq<SyncRule>, g: GVK)
    ensures MutateGvk(rules, g) == MutateGvk(GvkRules(rules), g)
  {
    if rules != [] {
      var init, last := rules[..|rules| - 1], rules[|rules| - 1];
      GvkDrop(init, g);
      if last.mutations.gvk != NO_GVK {
        assert GvkRules(rules)[..|GvkRules(rules)| - 1] == GvkRules(init);
      } else {
        assert GvkRules(rules) == GvkRules(init);
      }
    }
  }

  lemma {:induction false} GvkRulesOfSelected(rules: seq<SyncRule>, o: Object)
    requires forall r | r in rules && r.mutations.gvk != NO_GVK :: RuleVerdict(r, o) == Matched
    ensures GvkRules(Selected(rules, o)) == GvkRules(rules)
  {
    if rules != [] {
      var init, last := rules[..|rules| - 1], rules[|rules| - 1];
      GvkRulesOfSelected(init, o);
      if RuleVerdict(last, o) == Matched {
        assert Selected(rules, o)[..|Selected(rules, o)| - 1] == Selected(init, o);
      } else {
        assert Selected(rules, o) == Selected(init, o);
        assert GvkRules(rules) == GvkRules(init);
      }
    }
  }

  /** The kind the delete path looks up, computed from all rules, is the kind that was written,
      computed from the matched rules, whenever every rule that mutates the kind matched. */
  lemma DeleteTargetsWrittenKind(rules: seq<SyncRule>, o: Object, g: GVK)
    requires forall r | r in rules && r.mutations.gvk != NO_GVK :: RuleVerdict(r, o) == Matched
    ensures MutateGvk(Selected(rules, o), g) == MutateGvk(rules, g)
  {
    GvkDrop(rules, g);
    GvkDrop(Selected(rules, o), g);
    GvkRulesOfSelected(rules, o);
  }

  /** The last non-empty entry, or the default when there is none. */
  ghost predicate LastNonEmpty(field: GVK -> string, rules: seq<SyncRule>, default: string, value: string) {
    || (value == default && forall i | 0 <= i < |rules| :: field(rules[i].mutations.gvk) == "")
    || (exists i | 0 <= i < |rules| :: LastAt(field, rules, i, value))
  }

  ghost predicate LastAt(field: GVK -> string, rules: seq<SyncRule>, i: nat, value: string)
    requires i < |rules|
  {
    field(rules[i].mutations.gvk) == value != "" && forall j | i < j < |rules| :: field(rules[j].mutations.gvk) == ""
  }

  lemma LastNonEmptyStep(field: GVK -> string, rules: seq<SyncRule>, default: string, value: string)
    requires rules != []
    requires LastNonEmpty(field, rules[..|rules| - 1], default, value)
    ensures var f := field(rules[|rules| - 1].mutations.gvk);
            LastNonEmpty(field, rules, default, if f != "" then f else value)
  {
    var n := |rules| - 1;
    var init, f := rules[..n], field(rules[n].mutations.gvk);
    assert forall i | 0 <= i < n :: init[i] == rules[i];
    if f != "" {
      assert LastAt(field, rules, n, f);
    } else if i :| 0 <= i < n && LastAt(field, init, i, value) {
      assert LastAt(field, rules, i, value);
    }
  }

  /** Field by field, the mutated kind is what the last rule that names the field says. */
  lemma {:induction false} MutatedGvkFields(rules: seq<SyncRule>, g: GVK)
    ensures LastNonEmpty((x: GVK) => x.group, rules, g.group, MutateGvk(rules, g).group)
    ensures LastNonEmpty((x: GVK) => x.version, rules, g.version, MutateGvk(rules, g).version)
    ensures LastNonEmpty((x: GVK) => x.kind, rules, g.kind, MutateGvk(rules, g).kind)
  {
    if rules != [] {
      var init := rules[..|rules| - 1];
      MutatedGvkFields(init, g);
      LastNonEmptyStep((x: GVK) => x.group, rules, g.group, MutateGvk(init, g).group);
      LastNonEmptyStep((x: GVK) => x.version, rules, g.version, MutateGvk(init, g).version);
      LastNonEmptyStep((x: GVK) => x.kind, rules, g.kind, MutateGvk(init, g).kind);
    }
  }

  function LocalGvk(spec: RuleSpec): GVK {
    MutateGvk(spec.rules, spec.gvk)
  }

  lemma {:induction false} SameOverlay(rules: seq<SyncRule>, m: GVK, g: GVK)
    requires rules != [] && forall r | r in rules :: r.mutations.gvk == m
    ensures MutateGvk(rules, g) == Overlay(m, g)
  {
    if |rules| > 1 {
      SameOverlay(rules[..|rules| - 1], m, g);
    }
  }

  /******* Metadata mutations *******/

  function MergedAdd(ms: seq<MetaMutation>): Labels {
    if ms == [] then map[] else MergedAdd(ms[..|ms| - 1]) + ms[|ms| - 1].add
  }

  function MergedRemove(ms: seq<MetaMutation>): (ks: seq<MetaKey>)
    ensures forall k :: k in ks <==> exists m | m in ms :: k in m.remove
  {
    if ms == [] then [] else MergedRemove(ms[..|ms| - 1]) + ms[|ms| - 1].remove
  }

  method MergeMutations(ms: seq<MetaMutation>) returns (m: MetaMutation)
    ensures m == MetaMutation(MergedAdd(ms), MergedRemove(ms))
  {
    m := NO_META;
    for i := 0 to |ms|
      invariant m == MetaMutation(MergedAdd(ms[..i]), MergedRemove(ms[..i]))
    {
      assert ms[..i + 1][..i] == ms[..i];
      var todo := ms[i].add.Keys;
      ghost var before := m.add;
      while todo != {}
        invariant todo <= ms[i].add.Keys
        invariant m.remove == MergedRemove(ms[..i])
        invariant m.add == before + (ms[i].add - todo)
        decreases todo
      {
        var k :| k in todo;
        m := m.(add := m.add[k := ms[i].add[k]]);
        todo := todo - {k};
      }
      m := m.(remove := m.remove + ms[i].remove);
    }
    assert ms[..|ms|] == ms;
  }

  function KeySet(ks: seq<MetaKey>): set<MetaKey> {
    set k | k in ks
  }

  function ApplyMeta(ms: seq<MetaMutation>, source: Labels): Labels {
    (source + MergedAdd(ms)) - KeySet(MergedRemove(ms))
  }

  /** Value the last mutation of the list that adds k gives it. */
  ghost predicate LastAdded(ms: seq<MetaMutation>, k: MetaKey, v: string) {
    exists i | 0 <= i < |ms| ::
      && k in ms[i].add && ms[i].add[k] == v
      && forall j | i < j < |ms| :: k !in ms[j].add
  }

  lemma {:induction false} MergedAddMeaning(ms: seq<MetaMutation>, k: MetaKey)
    ensures k in MergedAdd(ms) <==> exists m | m in ms :: k in m.add
    ensures k in MergedAdd(ms) ==> LastAdded(ms, k, MergedAdd(ms)[k])
  {
    if ms != [] {
      var init, last := ms[..|ms| - 1], ms[|ms| - 1];
      MergedAddMeaning(init, k);
      assert forall m :: m in ms <==> m in init || m == last;
      if k in last.add {
        assert k in ms[|ms| - 1].add;
      } else if k in MergedAdd(init) {
        LastAddedStays(ms, k, MergedAdd(init)[k]);
      }
    }
  }

  lemma LastAddedStays(ms: seq<MetaMutation>, k: MetaKey, v: string)
    requires ms != [] && LastAdded(ms[..|ms| - 1], k, v) && k !in ms[|ms| - 1].add
    ensures LastAdded(ms, k, v)
  {
    var init := ms[..|ms| - 1];
    var i :| 0 <= i < |init| && k in init[i].add && init[i].add[k] == v
             && forall j | i < j < |init| :: k !in init[j].add;
    assert k in ms[i].add && forall j | i < j < |ms| :: j == |ms| - 1 || ms[j] == init[j];
  }

  /** Merged metadata, key by key: a key survives exactly when no rule removes it and the source
      has it or some rule adds it; its value is the last added one, else the source's. Removal
      wins over addition wherever the two rules stand. */
  lemma MergedMetadata(ms: seq<MetaMutation>, source: Labels, k: MetaKey)
    ensures k in ApplyMeta(ms, source) <==>
            && (forall m | m in ms :: k !in m.remove)
            && (k in source || exists m | m in ms :: k in m.add)
    ensures k in ApplyMeta(ms, source) ==>
            var v := ApplyMeta(ms, source)[k];
            || LastAdded(ms, k, v)
            || (k in source && v == source[k] && forall m | m in ms :: k !in m.add)
  {
    MergedAddMeaning(ms, k);
  }

  lemma UntouchedKey(ms: seq<MetaMutation>, source: Labels, k: MetaKey)
    requires forall m | m in ms :: k !in m.add && k !in m.remove
    ensures k in ApplyMeta(ms, source) <==> k in source
    ensures k in source ==> ApplyMeta(ms, source)[k] == source[k]
  {
    MergedMetadata(ms, source, k);
  }
}
