/** createHardAffinitiesAppending after its JSON decode: every decoded
    extended term becomes a standard pod-affinity term to append to the pod.

    As written the function computes the requirements its label keys
    resolve to but never stores them into the term it returns, and the nil
    test that guards the re-initialisation of the selector's expressions is
    inverted. `MaterializedTerm` is that behaviour; `IntendedTerm` is the
    evidently intended one. */
module Materializer {
  import opened Wrappers
  import opened Kube
  import opened Resolver

  /** The expression slice declared on the term's own selector, nil when the
      selector or the slice is nil. */
  function DeclaredExpressions(kep: KEP3633PodAffinityTerm): Option<seq<LabelSelectorRequirement>>
  {
    match kep.podAffinityTerm.labelSelector
    case None => None
    case Some(s) => s.matchExpressions
  }

  /** The requirements the two key loops append to the local `matchExp`:
      the match-derived ones, then the mismatch-derived ones. */
  function TermRequirements(kep: KEP3633PodAffinityTerm, labels: map<string, string>): seq<LabelSelectorRequirement>
  {
    ResolveKeys(Match, kep.matchLabelKeys, labels) + ResolveKeys(Mismatch, kep.mismatchLabelKeys, labels)
  }

  /** The requirement sequence has one entry per present key and comes in two parts: first an `In` requirement on
      each present match key, in `matchLabelKeys` order, then a `NotIn`
      requirement on each present mismatch key, in `mismatchLabelKeys`
      order; each carries the pod's own value. A key the pod does not carry
      yields no requirement. */
  lemma TermRequirementsOrder(kep: KEP3633PodAffinityTerm, labels: map<string, string>)
    ensures var rs, m, n := TermRequirements(kep, labels), PresentKeys(kep.matchLabelKeys, labels), PresentKeys(kep.mismatchLabelKeys, labels);
      && |rs| == |m| + |n|
      && (forall i :: 0 <= i < |m| ==> rs[i] == LabelSelectorRequirement(m[i], In, [labels[m[i]]]))
      && (forall i :: 0 <= i < |n| ==> rs[|m| + i] == LabelSelectorRequirement(n[i], NotIn, [labels[n[i]]]))
    ensures forall k :: k !in labels ==> forall r :: r in TermRequirements(kep, labels) ==> r.key != k
  {
    var ms, ns := ResolveKeys(Match, kep.matchLabelKeys, labels), ResolveKeys(Mismatch, kep.mismatchLabelKeys, labels);
    assert TermRequirements(kep, labels) == ms + ns;
    ResolveKeysFollowsPresentKeys(Match, kep.matchLabelKeys, labels);
    ResolveKeysFollowsPresentKeys(Mismatch, kep.mismatchLabelKeys, labels);
    assert forall i :: 0 <= i < |ms| ==> (ms + ns)[i] == ms[i];
    assert forall i :: 0 <= i < |ns| ==> (ms + ns)[|ms| + i] == ns[i];
    ResolveKeysEntries(Match, kep.matchLabelKeys, labels);
    ResolveKeysEntries(Mismatch, kep.mismatchLabelKeys, labels);
    assert forall r :: r in ms + ns ==> r.key in labels;
  }

  /** One of the two key loops: it grows the local requirement slice by the
      requirement each present key resolves to, in key order. */
  method AppendResolved(p: Polarity, matchExp: seq<LabelSelectorRequirement>, keys: seq<string>, labels: map<string, string>)
    returns (grown: seq<LabelSelectorRequirement>)
    ensures grown == matchExp + ResolveKeys(p, keys, labels)
  {
    grown := matchExp;
    for i := 0 to |keys|
      invariant grown == matchExp + ResolveKeys(p, keys[..i], labels)
    {
      ResolveKeysSnoc(p, keys, i, labels);
      var requirement := if p == Match then MatchLabelKeyToRequirement(keys[i], labels)
                         else MismatchLabelKeyToRequirement(keys[i], labels);
      assert requirement == Resolve(p, keys[i], labels);
      if requirement.Some? {
        assert matchExp + ResolveKeys(p, keys[..i], labels) + [requirement.value]
            == matchExp + (ResolveKeys(p, keys[..i], labels) + [requirement.value]);
        grown := grown + [requirement.value];
      }
    }
    assert keys[..|keys|] == keys;
  }

  /** The loops over `matchLabelKeys` and then `mismatchLabelKeys`: together
      they grow the local requirement slice by the term's requirements. */
  method AppendRequirements(matchExp: seq<LabelSelectorRequirement>, kep3633term: KEP3633PodAffinityTerm, labels: map<string, string>)
    returns (grown: seq<LabelSelectorRequirement>)
    ensures grown == matchExp + TermRequirements(kep3633term, labels)
  {
    grown := AppendResolved(Match, matchExp, kep3633term.matchLabelKeys, labels);
    grown := AppendResolved(Mismatch, grown, kep3633term.mismatchLabelKeys, labels);
  }

  /** The term the source appends for one decoded term: a copy of the
      embedded standard term whose selector is never nil; the selector's
      expression slice is empty when the declared one was non-nil and nil
      when it was nil. Nothing else of the term changes, and the pod's
      labels play no part. */
  function MaterializedTerm(kep: KEP3633PodAffinityTerm): (t: PodAffinityTerm)
    ensures t.labelSelector.Some?
    ensures t.namespaces == kep.podAffinityTerm.namespaces
    ensures t.topologyKey == kep.podAffinityTerm.topologyKey
    ensures t.namespaceSelector == kep.podAffinityTerm.namespaceSelector
    ensures t.labelSelector.value.matchLabels == kep.podAffinityTerm.labelSelector.GetOr(EmptySelector).matchLabels
    ensures t.labelSelector.value.matchExpressions == if DeclaredExpressions(kep).Some? then Some([]) else None
  {
    var selector := kep.podAffinityTerm.labelSelector.GetOr(EmptySelector);
    var reset := if selector.matchExpressions.Some? then selector.(matchExpressions := Some([])) else selector;
    kep.podAffinityTerm.(labelSelector := Some(reset))
  }

  /** createHardAffinitiesAppending from the decoded terms on: one output
      term per decoded term, in the same order. */
  method CreateHardAffinitiesAppending(hardAntiAffinities: seq<KEP3633PodAffinityTerm>, labels: map<string, string>)
    returns (hardAntiAffinitiesAppending: seq<PodAffinityTerm>)
    ensures |hardAntiAffinitiesAppending| == |hardAntiAffinities|
    ensures forall i :: 0 <= i < |hardAntiAffinities| ==>
      hardAntiAffinitiesAppending[i] == MaterializedTerm(hardAntiAffinities[i])
  {
    hardAntiAffinitiesAppending := [];
    for i := 0 to |hardAntiAffinities|
      invariant |hardAntiAffinitiesAppending| == i
      invariant forall j :: 0 <= j < i ==> hardAntiAffinitiesAppending[j] == MaterializedTerm(hardAntiAffinities[j])
    {
      var kep3633term := hardAntiAffinities[i];
      // the deep copy is a value copy
      var term := kep3633term.podAffinityTerm;
      var labelSelector: LabelSelector;
      if term.labelSelector.None? {
        labelSelector := EmptySelector;
      } else {
        labelSelector := term.labelSelector.value;
      }
      var matchExp := labelSelector.matchExpressions;
      // the source re-initialises the slice when it is NOT nil
      if matchExp.Some? {
        matchExp := Some([]);
        labelSelector := labelSelector.(matchExpressions := matchExp);
      }
      // term.LabelSelector and labelSelector are one object in the source
      term := term.(labelSelector := Some(labelSelector));
      // the appends grow only the local slice; the term never sees them
      var grown := AppendRequirements(matchExp.GetOr([]), kep3633term, labels);
      hardAntiAffinitiesAppending := hardAntiAffinitiesAppending + [term];
    }
  }

  /** The term the materializer is evidently meant to produce: the declared
      expressions (if any), then the resolved requirements. */
  function IntendedTerm(kep: KEP3633PodAffinityTerm, labels: map<string, string>): (t: PodAffinityTerm)
    ensures t.labelSelector.Some?
    ensures t.namespaces == kep.podAffinityTerm.namespaces
    ensures t.topologyKey == kep.podAffinityTerm.topologyKey
    ensures t.namespaceSelector == kep.podAffinityTerm.namespaceSelector
    ensures t.labelSelector.value.matchLabels == kep.podAffinityTerm.labelSelector.GetOr(EmptySelector).matchLabels
  {
    var selector := kep.podAffinityTerm.labelSelector.GetOr(EmptySelector);
    var expressions := DeclaredExpressions(kep).GetOr([]) + TermRequirements(kep, labels);
    kep.podAffinityTerm.(labelSelector := Some(selector.(matchExpressions := Some(expressions))))
  }

  /** The intended term keeps the declared expressions in front, follows
      them with the resolved requirements (ordered as `TermRequirementsOrder`
      states), and its
      expressions select exactly the pods that satisfy them, share the
      admitted pod's value of every present match key and do not share its
      value of any present mismatch key. */
  lemma IntendedTermSelects(kep: KEP3633PodAffinityTerm, labels: map<string, string>, other: map<string, string>)
    ensures var e := IntendedTerm(kep, labels).labelSelector.value.matchExpressions;
      && e.Some?
      && e.value[..|DeclaredExpressions(kep).GetOr([])|] == DeclaredExpressions(kep).GetOr([])
      && e.value[|DeclaredExpressions(kep).GetOr([])|..] == TermRequirements(kep, labels)
      && (SatisfiesAll(e.value, other) <==>
            && SatisfiesAll(DeclaredExpressions(kep).GetOr([]), other)
            && KeysAgree(Match, kep.matchLabelKeys, labels, other)
            && KeysAgree(Mismatch, kep.mismatchLabelKeys, labels, other))
  {
    var declared := DeclaredExpressions(kep).GetOr([]);
    var ms := ResolveKeys(Match, kep.matchLabelKeys, labels);
    var ns := ResolveKeys(Mismatch, kep.mismatchLabelKeys, labels);
    assert IntendedTerm(kep, labels).labelSelector.value.matchExpressions.value == declared + (ms + ns);
    SatisfiesAllAppend(declared, ms + ns, other);
    SatisfiesAllAppend(ms, ns, other);
    ResolveKeysSelects(Match, kep.matchLabelKeys, labels, other);
    ResolveKeysSelects(Mismatch, kep.mismatchLabelKeys, labels, other);
  }

  /** As written, a term declaring expressions loses them: the output slice
      is empty where the intended one starts with the declared requirement. */
  lemma DeclaredExpressionsDiscarded()
    ensures var declared := LabelSelectorRequirement("app", In, ["nginx"]);
      var kep := KEP3633PodAffinityTerm(
        PodAffinityTerm(Some(LabelSelector(map[], Some([declared]))), [], "kubernetes.io/hostname", None), [], []);
      && MaterializedTerm(kep).labelSelector.value.matchExpressions == Some([])
      && IntendedTerm(kep, map[]).labelSelector.value.matchExpressions == Some([declared])
  {
    var declared := LabelSelectorRequirement("app", In, ["nginx"]);
    var kep := KEP3633PodAffinityTerm(
      PodAffinityTerm(Some(LabelSelector(map[], Some([declared]))), [], "kubernetes.io/hostname", None), [], []);
    assert TermRequirements(kep, map[]) == [];
    assert DeclaredExpressions(kep).GetOr([]) == [declared];
    assert [declared] + [] == [declared];
  }

  /** As written, a resolved requirement never reaches the output: with the
      label `app=nginx` and `matchLabelKeys: ["app"]` the loop builds
      `{app, In, [nginx]}` but the output selector's slice stays nil. */
  lemma ResolvedRequirementDropped()
    ensures var labels := map["app" := "nginx"];
      var kep := KEP3633PodAffinityTerm(PodAffinityTerm(None, [], "topology.kubernetes.io/zone", None), ["app"], []);
      var r := LabelSelectorRequirement("app", In, ["nginx"]);
      && TermRequirements(kep, labels) == [r]
      && MaterializedTerm(kep).labelSelector.value.matchExpressions == None
      && IntendedTerm(kep, labels).labelSelector.value.matchExpressions == Some([r])
  {
    var labels := map["app" := "nginx"];
    var keys := ["app"];
    assert keys[..0] == [];
    assert ResolveKeys(Match, keys, labels) == [LabelSelectorRequirement("app", In, ["nginx"])];
  }
}
