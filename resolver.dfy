/** The label-key resolvers: a key named in a term's `matchLabelKeys` or
    `mismatchLabelKeys` becomes an `In` or `NotIn` requirement on the value
    the admitted pod itself carries for that key. A key the pod does not
    carry contributes nothing. */
module Resolver {
  import opened Wrappers
  import opened Kube

  /** matchLabelKeyToRequirement: `{k, In, [labels[k]]}` when `k` is a label
      key (an empty value counts), nothing otherwise. */
  function MatchLabelKeyToRequirement(key: string, labels: map<string, string>): (r: Option<LabelSelectorRequirement>)
    ensures r.Some? <==> key in labels
    ensures r.Some? ==> r.value.key == key && r.value.operator == In && r.value.values == [labels[key]]
  {
    if key in labels then
      Some(LabelSelectorRequirement(key, In, [labels[key]]))
    else
      None
  }

  /** mismatchLabelKeyToRequirement: `{k, NotIn, [labels[k]]}` when `k` is a
      label key, nothing otherwise. */
  function MismatchLabelKeyToRequirement(key: string, labels: map<string, string>): (r: Option<LabelSelectorRequirement>)
    ensures r.Some? <==> key in labels
    ensures r.Some? ==> r.value.key == key && r.value.operator == NotIn && r.value.values == [labels[key]]
  {
    if key in labels then
      Some(LabelSelectorRequirement(key, NotIn, [labels[key]]))
    else
      None
  }

  /** Which of the two key lists a key came from. */
  datatype Polarity = Match | Mismatch

  function OperatorOf(p: Polarity): Operator
  {
    match p
    case Match => In
    case Mismatch => NotIn
  }

  /** The resolver the source applies to a key of the given list. */
  function Resolve(p: Polarity, key: string, labels: map<string, string>): Option<LabelSelectorRequirement>
  {
    match p
    case Match => MatchLabelKeyToRequirement(key, labels)
    case Mismatch => MismatchLabelKeyToRequirement(key, labels)
  }

  /** The requirements resolved from `keys`, in key order, absent keys skipped:
      what the source's loop over one key list appends. */
  function ResolveKeys(p: Polarity, keys: seq<string>, labels: map<string, string>): seq<LabelSelectorRequirement>
  {
    if |keys| == 0 then []
    else
      ResolveKeys(p, keys[..|keys| - 1], labels) + Contribution(p, keys[|keys| - 1], labels)
  }

  /** What a key loop appends has no more entries than keys, and each entry
      is on a key the pod carries, with the loop's operator and the pod's own value. */
  lemma {:induction false} ResolveKeysEntries(p: Polarity, keys: seq<string>, labels: map<string, string>)
    ensures |ResolveKeys(p, keys, labels)| <= |keys|
    ensures forall r :: r in ResolveKeys(p, keys, labels) ==>
      r.key in labels && r.operator == OperatorOf(p) && r.values == [labels[r.key]]
  {
    if |keys| > 0 {
      ResolveKeysEntries(p, keys[..|keys| - 1], labels);
    }
  }

  /** What one key adds: its requirement, or nothing for an absent key. */
  function Contribution(p: Polarity, key: string, labels: map<string, string>): seq<LabelSelectorRequirement>
  {
    match Resolve(p, key, labels)
    case Some(r) => [r]
    case None => []
  }

  /** Resolving one more key extends the resolved prefix by that key's contribution. */
  lemma ResolveKeysSnoc(p: Polarity, keys: seq<string>, i: nat, labels: map<string, string>)
    requires i < |keys|
    ensures ResolveKeys(p, keys[..i + 1], labels) == ResolveKeys(p, keys[..i], labels) + Contribution(p, keys[i], labels)
  {
    assert keys[..i + 1][..i] == keys[..i];
  }

  /** The keys of `keys` that are labels of the pod, in order. */
  function PresentKeys(keys: seq<string>, labels: map<string, string>): (present: seq<string>)
    ensures |present| <= |keys|
    ensures forall k :: k in present <==> k in keys && k in labels
  {
    if |keys| == 0 then []
    else
      var front := PresentKeys(keys[..|keys| - 1], labels);
      assert keys == keys[..|keys| - 1] + [keys[|keys| - 1]];
      if keys[|keys| - 1] in labels then front + [keys[|keys| - 1]] else front
  }

  /** A listed key that is a label is kept as often as it is listed, and an
      absent key is dropped however often it is listed. */
  lemma {:induction false} PresentKeysMultiplicity(keys: seq<string>, labels: map<string, string>, k: string)
    ensures multiset(PresentKeys(keys, labels))[k] == if k in labels then multiset(keys)[k] else 0
  {
    if |keys| > 0 {
      PresentKeysMultiplicity(keys[..|keys| - 1], labels, k);
      assert keys == keys[..|keys| - 1] + [keys[|keys| - 1]];
    }
  }

  /** One requirement per present key, in key order: the i-th requirement is
      about the i-th present key. */
  lemma {:induction false} ResolveKeysFollowsPresentKeys(p: Polarity, keys: seq<string>, labels: map<string, string>)
    ensures |ResolveKeys(p, keys, labels)| == |PresentKeys(keys, labels)|
    ensures forall i :: 0 <= i < |PresentKeys(keys, labels)| ==>
      ResolveKeys(p, keys, labels)[i] ==
        LabelSelectorRequirement(PresentKeys(keys, labels)[i], OperatorOf(p), [labels[PresentKeys(keys, labels)[i]]])
  {
    if |keys| > 0 {
      ResolveKeysFollowsPresentKeys(p, keys[..|keys| - 1], labels);
    }
  }

  /** A key the pod does not carry yields no requirement; a key it carries yields one. */
  lemma ResolveKeysCoversPresentKeys(p: Polarity, keys: seq<string>, labels: map<string, string>, k: string)
    ensures k !in labels ==> forall r :: r in ResolveKeys(p, keys, labels) ==> r.key != k
    ensures k in labels && k in keys ==> LabelSelectorRequirement(k, OperatorOf(p), [labels[k]]) in ResolveKeys(p, keys, labels)
  {
    ResolveKeysFollowsPresentKeys(p, keys, labels);
  }


  // ---------------------------------------------------------------------
  // What a requirement selects (the label-selector semantics of the
  // Kubernetes API, used as the reference the resolvers are judged by).
  // ---------------------------------------------------------------------

  /** Whether a pod with labels `other` satisfies requirement `r`. */
  predicate Satisfies(r: LabelSelectorRequirement, other: map<string, string>)
  {
    match r.operator
    case In => r.key in other && other[r.key] in r.values
    case NotIn => !(r.key in other && other[r.key] in r.values)
    case Exists => r.key in other
    case DoesNotExist => r.key !in other
  }

  /** Whether `other` carries the same value as `labels` for `key`. */
  predicate SameValue(key: string, labels: map<string, string>, other: map<string, string>)
    requires key in labels
  {
    key in other && other[key] == labels[key]
  }

  /** A match requirement selects exactly the pods sharing the admitted pod's
      value for the key; the mismatch requirement selects exactly the others.
      In particular the pod selects itself with the first and not the second. */
  lemma ResolversSelect(key: string, labels: map<string, string>, other: map<string, string>)
    requires key in labels
    ensures Satisfies(MatchLabelKeyToRequirement(key, labels).value, other) <==> SameValue(key, labels, other)
    ensures Satisfies(MismatchLabelKeyToRequirement(key, labels).value, other) <==> !SameValue(key, labels, other)
    ensures Satisfies(MatchLabelKeyToRequirement(key, labels).value, labels)
    ensures !Satisfies(MismatchLabelKeyToRequirement(key, labels).value, labels)
  {
  }

  /** Whether `other` satisfies every requirement of `rs`. */
  predicate SatisfiesAll(rs: seq<LabelSelectorRequirement>, other: map<string, string>)
  {
    forall i :: 0 <= i < |rs| ==> Satisfies(rs[i], other)
  }

  /** The requirements resolved from a key list admit a pod `other` exactly
      when, for every key the admitted pod carries, `other` shares (match) or
      does not share (mismatch) its value; keys the admitted pod lacks impose
      nothing. */
  lemma {:induction false} ResolveKeysSelects(p: Polarity, keys: seq<string>, labels: map<string, string>, other: map<string, string>)
    ensures SatisfiesAll(ResolveKeys(p, keys, labels), other) <==> KeysAgree(p, keys, labels, other)
  {
    if |keys| > 0 {
      var init, last := keys[..|keys| - 1], keys[|keys| - 1];
      ResolveKeysSelects(p, init, labels, other);
      var front := ResolveKeys(p, init, labels);
      assert KeysAgree(p, keys, labels, other) <==>
        KeysAgree(p, init, labels, other) && (last in labels ==> (SameValue(last, labels, other) <==> p == Match)) by {
        assert forall i :: 0 <= i < |init| ==> keys[i] == init[i];
      }
      if last in labels {
        ResolversSelect(last, labels, other);
        var r := Resolve(p, last, labels).value;
        assert ResolveKeys(p, keys, labels) == front + [r];
        assert Satisfies(r, other) <==> (SameValue(last, labels, other) <==> p == Match);
        SatisfiesAllAppend(front, [r], other);
        assert SatisfiesAll([r], other) <==> Satisfies(r, other) by {
          assert [r][0] == r;
        }
      } else {
        assert ResolveKeys(p, keys, labels) == front;
      }
    }
  }

  /** A pod satisfies a concatenation of requirement lists when it satisfies each. */
  lemma SatisfiesAllAppend(a: seq<LabelSelectorRequirement>, b: seq<LabelSelectorRequirement>, other: map<string, string>)
    ensures SatisfiesAll(a + b, other) <==> SatisfiesAll(a, other) && SatisfiesAll(b, other)
  {
    assert forall i :: 0 <= i < |a| ==> (a + b)[i] == a[i];
    assert forall i :: 0 <= i < |b| ==> (a + b)[|a| + i] == b[i];
  }

  /** For every key of `keys` that the admitted pod carries, `other` shares
      its value exactly when the keys are match keys. */
  predicate KeysAgree(p: Polarity, keys: seq<string>, labels: map<string, string>, other: map<string, string>)
  {
    forall i :: 0 <= i < |keys| && keys[i] in labels ==>
      (SameValue(keys[i], labels, other) <==> p == Match)
  }
}
