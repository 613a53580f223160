/** The block of `mutate` that turns the materialized hard pod-anti-affinity
    terms into the patch.

    As written, the variable meant to hold the pod's affinity is declared
    but never assigned, so the existing hard anti-affinity list always reads
    as nil and only the "whole list" branch of the leaf builder can run.
    `MutatePatch` is that behaviour; `MutatePatchFixed` reads the list from
    the pod. */
module Webhook {
  import opened Wrappers
  import opened Kube
  import opened Patch

  /** The patch as the source builds it: for a non-empty list one "add" of
      the whole list at the hard anti-affinity pointer, whatever the pod
      already holds there; nothing for an empty list. */
  method MutatePatch(hardAntiAffinitiesAppending: seq<PodAffinityTerm>) returns (patch: seq<PatchOp<PodAffinityTerm>>)
    ensures patch == LeafPatch(None, hardAntiAffinitiesAppending, HardAntiAffinityPointer)
    ensures |hardAntiAffinitiesAppending| == 0 ==> patch == []
    ensures |hardAntiAffinitiesAppending| > 0 ==>
      patch == [PatchOp(Add, HardAntiAffinityPointer, Whole(hardAntiAffinitiesAppending))]
  {
    patch := [];
    // declared for the pod's affinity and never assigned
    var affinityField: Option<Affinity> := None;
    var podAntiAffinityField: Option<PodAntiAffinity> := None;
    var podHardAntiAffinityField: Option<seq<PodAffinityTerm>> := None;
    match affinityField {
      case Some(affinity) => podAntiAffinityField := affinity.podAntiAffinity;
      case None =>
    }
    match podAntiAffinityField {
      case Some(podAntiAffinity) =>
        podHardAntiAffinityField := podAntiAffinity.requiredDuringSchedulingIgnoredDuringExecution;
      case None =>
    }
    patch := AppendLeafPatch(patch, podHardAntiAffinityField, hardAntiAffinitiesAppending, HardAntiAffinityPointer);
  }

  /** The same block reading the existing list from the pod. */
  method MutatePatchFixed(pod: Pod, hardAntiAffinitiesAppending: seq<PodAffinityTerm>) returns (patch: seq<PatchOp<PodAffinityTerm>>)
    ensures patch == LeafPatch(HardAntiAffinityOf(pod), hardAntiAffinitiesAppending, HardAntiAffinityPointer)
  {
    patch := [];
    var affinityField := pod.affinity;
    var podAntiAffinityField: Option<PodAntiAffinity> := None;
    var podHardAntiAffinityField: Option<seq<PodAffinityTerm>> := None;
    match affinityField {
      case Some(affinity) => podAntiAffinityField := affinity.podAntiAffinity;
      case None =>
    }
    match podAntiAffinityField {
      case Some(podAntiAffinity) =>
        podHardAntiAffinityField := podAntiAffinity.requiredDuringSchedulingIgnoredDuringExecution;
      case None =>
    }
    patch := AppendLeafPatch(patch, podHardAntiAffinityField, hardAntiAffinitiesAppending, HardAntiAffinityPointer);
  }

  /** As written, a pod that already has `b > 0` hard anti-affinity terms
      ends up with only the appended ones: the "add" replaces the array, so
      its length is the appended length, not `b` plus it. */
  lemma MutatePatchOverwrites(doc: Document<PodAffinityTerm>, appending: seq<PodAffinityTerm>)
    requires HardAntiAffinityPointer in doc.arrays && |doc.arrays[HardAntiAffinityPointer]| > 0
    requires |appending| > 0
    ensures var r := Apply(doc, LeafPatch(None, appending, HardAntiAffinityPointer));
      && r.Success?
      && Existing(r.value, HardAntiAffinityPointer) == Some(appending)
      && Existing(r.value, HardAntiAffinityPointer) != Some(doc.arrays[HardAntiAffinityPointer] + appending)
  {
    TargetPointers();
    var ops := LeafPatch(None, appending, HardAntiAffinityPointer);
    assert ops == [PatchOp(Add, HardAntiAffinityPointer, Whole(appending))];
    assert Apply(doc, ops) == Apply(doc.(arrays := doc.arrays[HardAntiAffinityPointer := appending]), ops[1..]);
  }

  /** As written, no operation creates `/spec/affinity/podAntiAffinity`: on
      a pod without that object the patch cannot be applied. */
  lemma MutatePatchNeedsParent(doc: Document<PodAffinityTerm>, appending: seq<PodAffinityTerm>)
    requires PodAntiAffinityPointer !in doc.objects && HardAntiAffinityPointer !in doc.arrays
    requires |appending| > 0
    ensures Apply(doc, LeafPatch(None, appending, HardAntiAffinityPointer)) == Failure(MissingParent)
  {
    TargetPointers();
  }

  /** With the list read from the pod (whose document `doc` holds that list
      at the pointer, and whose anti-affinity object exists), applying the
      patch keeps the pod's terms and appends the new ones after them. */
  lemma MutatePatchFixedAppends(pod: Pod, doc: Document<PodAffinityTerm>, appending: seq<PodAffinityTerm>)
    requires Existing(doc, HardAntiAffinityPointer) == HardAntiAffinityOf(pod)
    requires HardAntiAffinityPointer in doc.arrays || PodAntiAffinityPointer in doc.objects
    ensures var before := HardAntiAffinityOf(pod).GetOr([]);
      var r := Apply(doc, LeafPatch(HardAntiAffinityOf(pod), appending, HardAntiAffinityPointer));
      && r.Success?
      && (|appending| > 0 ==> Existing(r.value, HardAntiAffinityPointer) == Some(before + appending))
      && (|appending| == 0 ==> r.value == doc)
  {
    TargetPointers();
    ApplyLeafPatch(doc, appending, HardAntiAffinityPointer);
  }
}
