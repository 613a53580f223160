/** The Kubernetes object shapes the webhook reads and builds, reduced to the
    fields that the patch construction looks at or copies.

    A Go pointer or slice that can be nil is an `Option`: the difference
    between a nil slice and an empty one decides which patch is emitted and
    what a materialized selector holds. */
module Kube {
  import opened Wrappers

  /** The 32-bit signed integer of the Go API types. */
  newtype int32 = x: int | -0x8000_0000 <= x < 0x8000_0000

  /** metav1.LabelSelectorOperator. */
  datatype Operator = In | NotIn | Exists | DoesNotExist

  /** metav1.LabelSelectorRequirement. */
  datatype LabelSelectorRequirement = LabelSelectorRequirement(
    key: string,
    operator: Operator,
    values: seq<string>)

  /** metav1.LabelSelector; `matchExpressions` is nil or a (possibly empty) slice. */
  datatype LabelSelector = LabelSelector(
    matchLabels: map<string, string>,
    matchExpressions: Option<seq<LabelSelectorRequirement>>)

  /** The value of `&metav1.LabelSelector{}`: no labels and a nil expression slice. */
  const EmptySelector := LabelSelector(map[], None)

  /** corev1.PodAffinityTerm. */
  datatype PodAffinityTerm = PodAffinityTerm(
    labelSelector: Option<LabelSelector>,
    namespaces: seq<string>,
    topologyKey: string,
    namespaceSelector: Option<LabelSelector>)

  /** corev1.WeightedPodAffinityTerm. */
  datatype WeightedPodAffinityTerm = WeightedPodAffinityTerm(
    weight: int32,
    podAffinityTerm: PodAffinityTerm)

  /** corev1.PodAntiAffinity: the hard (required) and soft (preferred) lists. */
  datatype PodAntiAffinity = PodAntiAffinity(
    requiredDuringSchedulingIgnoredDuringExecution: Option<seq<PodAffinityTerm>>,
    preferredDuringSchedulingIgnoredDuringExecution: Option<seq<WeightedPodAffinityTerm>>)

  /** corev1.PodAffinity, with the same two lists. */
  datatype PodAffinity = PodAffinity(
    requiredDuringSchedulingIgnoredDuringExecution: Option<seq<PodAffinityTerm>>,
    preferredDuringSchedulingIgnoredDuringExecution: Option<seq<WeightedPodAffinityTerm>>)

  /** corev1.Affinity (node affinity is not part of this model). */
  datatype Affinity = Affinity(
    podAffinity: Option<PodAffinity>,
    podAntiAffinity: Option<PodAntiAffinity>)

  /** The parts of corev1.PodSpec and of the pod's metadata the webhook reads. */
  datatype Pod = Pod(
    labels: map<string, string>,
    annotations: map<string, string>,
    affinity: Option<Affinity>)

  /** The pod's existing hard pod-anti-affinity list, nil at the first nil link. */
  function HardAntiAffinityOf(pod: Pod): (existing: Option<seq<PodAffinityTerm>>)
    ensures existing.Some? <==>
      pod.affinity.Some? && pod.affinity.value.podAntiAffinity.Some? &&
      pod.affinity.value.podAntiAffinity.value.requiredDuringSchedulingIgnoredDuringExecution.Some?
    ensures existing.Some? ==>
      existing.value == pod.affinity.value.podAntiAffinity.value.requiredDuringSchedulingIgnoredDuringExecution.value
  {
    match pod.affinity
    case None => None
    case Some(a) =>
      match a.podAntiAffinity
      case None => None
      case Some(anti) => anti.requiredDuringSchedulingIgnoredDuringExecution
  }

  /** KEP3633PodAffinityTerm: a standard term extended with the label keys
      whose values are looked up in the admitted pod's own labels. */
  datatype KEP3633PodAffinityTerm = KEP3633PodAffinityTerm(
    podAffinityTerm: PodAffinityTerm,
    matchLabelKeys: seq<string>,
    mismatchLabelKeys: seq<string>)

  /** KEP3633WeightedPodAffinityTerm: a weight and an extended term (the
      extended term shadows the embedded standard one). */
  datatype KEP3633WeightedPodAffinityTerm = KEP3633WeightedPodAffinityTerm(
    weight: int32,
    podAffinityTerm: KEP3633PodAffinityTerm)
}
