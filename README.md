# kep-3633-alt patch construction, modelled in Dafny

The system is a Kubernetes mutating admission webhook. A pod declares
pod-anti-affinity terms in the annotation
`kep-3633-alt.10h.in/podAntiAffinity.requiredDuringSchedulingIgnoredDuringExecution`.
These terms are extended with `matchLabelKeys` and `mismatchLabelKeys`: label
keys whose values are taken from the admitted pod's own labels. The webhook
answers with a JSON-Patch (RFC 6902) that appends the terms to the pod's
`spec.affinity`.

This project models the patch-construction core of `main.go`:

- `Resolver`: the two label-key resolvers, and the requirement sequence that
  a list of keys resolves to. It also holds the Kubernetes label-selector
  semantics (`Satisfies`), used as the reference the resolvers are judged by.
- `Materializer`: `createHardAffinitiesAppending` from the decoded terms on.
  It is a method with loops, specified by `MaterializedTerm` and
  `TermRequirements`.
- `Patch`: the leaf patch builder. It is a spec function (`LeafPatch`), a
  method that builds the patch in a loop, and an abstract semantics of the
  RFC 6902 "add" operation on a document (`Apply`). With these the
  append-length invariant the tests check is proved.
  The builder is generic in the element type and in the JSON pointer. So it
  also covers the other affinity lists and the topology spread constraints.
- `Webhook`: the block of `mutate` that builds the patch.
- `Kube`: the Go API shapes (`PodAffinityTerm`, `LabelSelector`,
  `KEP3633PodAffinityTerm`, `KEP3633WeightedPodAffinityTerm`, ...).
  A Go pointer or slice that can be nil is an `Option`.
- `Wrappers`: `Option` and `Result`.

Behaviour of the source kept as it is:

- At main.go:205 the nil test is inverted. A declared, non-nil `matchExpressions`
  is reset to an empty slice, and a nil one stays nil.
- The resolved requirements are appended only to the local `matchExp` slice
  (main.go:212, 218). They never reach the returned term. So an output
  selector's `matchExpressions` is empty or nil.
- `affinityField` is never assigned (main.go:126-136). Inside `mutate` the
  existing array therefore always reads as nil, and only the "add the whole
  list" branch runs.
- No operation creates `/spec/affinity` or `/spec/affinity/podAntiAffinity`.
  The patch applies only when those objects already exist.
- An operation record uses the member names `"op"`, `"key"` and `"values"`
  (main.go:149-151, 156-158). Section 4 of RFC 6902 names them `"path"` and
  `"value"`. The model keeps the source's names, and its `Apply` reads `key`
  as the pointer.

The code itself shows what it evidently means to do. It declares
`affinityField` (main.go:126) and reads the existing hard anti-affinity
list through it under nil tests (main.go:133-144), but nothing assigns it
from the admitted pod. The tests at main_test.go:193-232 expect each
patched list to have as many elements as the old and the appended lists
together. KEP-3633, which the project is named after,
has the resolved requirements join the term's label selector. The model
follows the code as written. The code's behaviour and the intended one
are compared under "## Findings".

## Model

| member | source | states |
|---|---|---|
| Resolver.MatchLabelKeyToRequirement | main.go:226-243 | A requirement exists exactly when the key is a label of the pod, an empty value included; it is `{key, In, [labels[key]]}` |
| Resolver.MismatchLabelKeyToRequirement | main.go:245-262 | A requirement exists exactly when the key is a label of the pod; it is `{key, NotIn, [labels[key]]}` |
| Resolver.ResolversSelect | main.go:226-262 | The match requirement admits exactly the pods that share the admitted pod's value for the key, and the mismatch requirement admits exactly the others; the pod admits itself under the first and not under the second |
| Resolver.ResolveKeysEntries | main.go:209-220 | What a key loop appends has no more entries than keys, and each entry is on a present key, with the loop's operator and the pod's own value |
| Resolver.PresentKeys | main.go:211 | The present keys are exactly the listed keys that are labels of the pod |
| Resolver.PresentKeysMultiplicity | main.go:209-220 | A listed key that is a label is kept as many times as it is listed, and an absent key not at all, so duplicated keys yield duplicated requirements |
| Resolver.ResolveKeysFollowsPresentKeys | main.go:209-220 | A key loop yields one requirement per present key, in key order: the i-th requirement is on the i-th present key |
| Resolver.ResolveKeysCoversPresentKeys | main.go:227-242 | An absent key yields no requirement; every present listed key yields its requirement |
| Resolver.ResolveKeysSelects | main.go:209-220 | A pod satisfies all resolved requirements iff, for each key the admitted pod carries, it shares the value (match list) or does not share it (mismatch list) |
| Materializer.TermRequirementsOrder | main.go:209-220 | The requirement sequence of a term has one entry per present key: first the `In` ones on the present match keys in order, then the `NotIn` ones on the present mismatch keys in order; absent keys contribute nothing |
| Materializer.AppendResolved | main.go:209-214 | One key loop grows the local slice by exactly the resolved requirements of its keys, in order |
| Materializer.AppendRequirements | main.go:209-220 | The two key loops together grow the local slice by the term's match requirements followed by its mismatch requirements |
| Materializer.MaterializedTerm | main.go:198-208 | The output term has a non-nil selector, and the other fields of the decoded term; its `matchExpressions` is empty when a non-nil slice was declared and nil otherwise, whatever the labels |
| Materializer.CreateHardAffinitiesAppending | main.go:196-223 | One output term per decoded term, in the same order, each the materialized copy of its decoded term |
| Materializer.IntendedTerm | main.go:204-220 | Corrected materialization: non-nil selector, with namespaces, topology key, namespace selector and match labels kept from the declared term (what its expressions hold is stated by `Materializer.IntendedTermSelects`) |
| Materializer.IntendedTermSelects | main.go:204-220 | The corrected expressions are the declared ones followed by exactly `TermRequirements` (In requirements on the present match keys in key order, then NotIn requirements on the present mismatch keys), and admit a pod iff it satisfies those and agrees with the present match keys and disagrees on the present mismatch keys |
| Materializer.DeclaredExpressionsDiscarded | main.go:204-207 | As written, a declared requirement is dropped (output `[]`) where the corrected term keeps it |
| Materializer.ResolvedRequirementDropped | main.go:209-220 | As written, with `app=nginx` and `matchLabelKeys: ["app"]` the loop builds `{app, In, [nginx]}`, but the output slice stays nil; the corrected term carries it |
| Patch.LeafPatch | main.go:146-162 | Every operation is an "add"; none for an empty list; for a nil array exactly one record with key `path` and the whole list as value; for an existing array one record per element, the i-th with key `path/-` and the i-th appended element as value |
| Patch.AppendLeafPatch | main.go:146-162 | The patch block extends the patch by exactly the leaf operations, building the per-element ones in a loop |
| Patch.ApplyAppendOps | main.go:154-160 | Element-wise "add" at `<path>/-` on an existing array appends the elements after the old ones, and nothing else changes |
| Patch.ApplyLeafPatch | main.go:146-162 | Applied to the document it was built from, the leaf patch succeeds, leaves the array as old elements then appended ones, and changes no other array and no object |
| Patch.AppendLengthInvariant | main_test.go:193-232 | After the patch, the array exists when `b + n > 0`; it has `b + n` elements, the `b` old ones first and the `n` appended ones after |
| Patch.AffinityListsAppendLength | main_test.go:193-232 | For each of the four affinity list pointers, the patch applies and the list ends with `b + n` elements: the `b` old ones first, then the `n` appended ones in order |
| Patch.TopologySpreadAppendLength | main_test.go:290-299 | At `/spec/topologySpreadConstraints` the patch applies and the list ends with `b + n` elements: the `b` old ones first, then the `n` appended ones in order |
| Patch.DisjointLeafPatches | main_test.go:186-232 | Two leaf patches for different arrays, neither below the other, concatenated, append to both arrays and leave the rest alone |
| Patch.TargetPointers | main.go:150-157 | The five target pointers are not end-of-array pointers, and their parents are the objects their names say |
| Webhook.MutatePatch | main.go:124-162 | As written: no operations for an empty list, otherwise exactly one "add" of the whole list at the hard anti-affinity pointer |
| Webhook.MutatePatchOverwrites | main.go:126-152 | As written, on a pod that already has hard anti-affinity terms the patch replaces them, so the array holds only the new terms and not the old terms followed by the new ones |
| Webhook.MutatePatchNeedsParent | main.go:146-152 | As written, on a pod without `podAntiAffinity` the patch fails to apply (missing parent) |
| Webhook.MutatePatchFixed | main.go:126-144 | Corrected block: its patch is the leaf patch built from the pod's own hard anti-affinity list |
| Webhook.MutatePatchFixedAppends | main.go:126-162 | With the corrected block, the pod's terms are kept and the new ones come after them |
| Kube.HardAntiAffinityOf | main.go:133-144 | The pod's hard anti-affinity list is present exactly when affinity, podAntiAffinity and the list are all non-nil, and then it is the pod's `podAntiAffinity.requiredDuringSchedulingIgnoredDuringExecution` |

## Left out

- HTTP handling in `mutate` is not modelled: the method check, body read, AdmissionReview decoding, CREATE/pods/subresource check, response encoding and write (main.go:63-105, 164-187). It is envelope I/O.
- The annotation lookup and the decode-error return (main.go:107-122) are not modelled. The decoded terms and the labels are inputs.
- `handleClientError`, `handleServerError` and `errorBody` (main.go:264-312) are not modelled. They format HTTP error responses.
- `main`, flag parsing, `serverWrapper` and TLS serving (main.go:37-61, 314-326) are not modelled. They are network setup.
- `json.Unmarshal` (main.go:192) is not modelled; decoding is a library call. The struct tags that contain `:omitempty` inside the key name (main.go:330, 335-336) are a decoding matter too.
- `DeepCopy` (main.go:198) is modelled as a value copy.
- Logging (main.go:119, 186) is not modelled.
- Go slice aliasing is not modelled. Line 207 shares a backing array between the output selector and the local `matchExp`, but the output slice has length 0, so the aliasing is not observable.
- Capacity hints of `make` are not modelled.
- A nil append list is modelled as the empty sequence. The source's test `!= nil && len(...) > 0` treats the two alike.
- `createAffinityJSONPatch` and `createTopologySpreadConstraintsJSONPatch` are called by main_test.go, but main.go does not define them. Their bodies are not part of this model. Only their leaf step is covered, through the generic builder. The scaffold operations that such functions would emit are not modelled.
- The test harness is not modelled: `applyPatch` over the json-patch library, and the bit-mask case generation (main_test.go:30-145, 242-275). `Patch.Apply` is an abstract "add" semantics written in Dafny. It covers an "add" of a whole list at a member and an "add" of one element at `<path>/-`. Other RFC 6902 operations and value shapes fail with an error.
- `Patch.Apply`: reads the source's `key` member as the pointer. A conforming RFC 6902 applier looks for `path`, and would reject these records.
- `Patch.DisjointLeafPatches`: requires that neither pointer lies below the other, because the document model is flat: it does not record that a whole-list add at `/a` turns `/a` into an array, so members below it would still look writable. It is stated for two lists of one element type. The four-list patch follows by applying it repeatedly. The Go soft lists have another element type, which the generic lemma does not mix in one document.

## Findings

| source | as written | input that shows it | evidently intended | confidence | as-written member | corrected member |
|---|---|---|---|---|---|---|
| main.go:205-207 | `if matchExp != nil` resets a declared expression slice to empty | a term whose selector declares `[{app, In, [nginx]}]` and no label keys | test `== nil`: create an empty slice only when none was declared, and keep declared expressions | not executed; high | Materializer.DeclaredExpressionsDiscarded | Materializer.IntendedTerm |
| main.go:209-220 | requirements are appended to the local `matchExp` only; the selector never sees them | labels `app=nginx`, a term with `matchLabelKeys: ["app"]` and no selector | the output selector's expressions end with the resolved requirements | not executed; high | Materializer.ResolvedRequirementDropped | Materializer.IntendedTermSelects |
| main.go:126-136 | `affinityField` is never assigned, so an existing list is replaced by a whole-list "add" | a pod with one hard anti-affinity term, and one term to append | read the list from the pod and append with `/-`, keeping the old terms | not executed; high | Webhook.MutatePatchOverwrites | Webhook.MutatePatchFixedAppends |
