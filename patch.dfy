/** The leaf patch builder: the JSON-Patch (RFC 6902) operations that append
    a list of constraint terms to one array of the pod, addressed by a JSON
    pointer (RFC 6901), together with an abstract semantics of the "add"
    operation (section 4.1 of RFC 6902) to state what the operations do.

    The builder is generic in the element type and in the pointer, so one
    definition serves the four affinity lists and the topology spread
    constraints. Operation records carry the member names the source writes:
    "op", "key" and "values". */
module Patch {
  import opened Wrappers

  /** The value of an operation: the whole list, or one element of it. */
  datatype PatchValue<T> = Whole(items: seq<T>) | Element(item: T)

  /** One operation record. */
  datatype PatchOp<T> = PatchOp(op: string, key: string, values: PatchValue<T>)

  const Add := "add"

  /** The pointer to the position past the last element of the array at
      `path`: the "-" token of section 4 of RFC 6901. */
  function AppendPointer(path: string): string
  {
    path + "/-"
  }

  /** Whether a pointer ends in the "-" token. */
  predicate IsAppendPointer(key: string)
  {
    |key| >= 2 && key[|key| - 2..] == "/-"
  }

  /** The pointer of the object holding the member `key` points to. */
  function ParentOf(key: string): string
  {
    if |key| == 0 then ""
    else if key[|key| - 1] == '/' then key[..|key| - 1]
    else ParentOf(key[..|key| - 1])
  }

  // Pointers of the arrays the webhook appends to.
  const Spec := "/spec"
  const AffinityPointer := Spec + "/affinity"
  const PodAffinityPointer := AffinityPointer + "/podAffinity"
  const PodAntiAffinityPointer := AffinityPointer + "/podAntiAffinity"
  // The list names are spelled in pieces to keep reasoning about them cheap.
  const Required := "required" + "DuringScheduling" + "IgnoredDuringExecution"
  const Preferred := "preferred" + "DuringScheduling" + "IgnoredDuringExecution"
  const HardAffinityPointer := PodAffinityPointer + "/" + Required
  const SoftAffinityPointer := PodAffinityPointer + "/" + Preferred
  const HardAntiAffinityPointer := PodAntiAffinityPointer + "/" + Required
  const SoftAntiAffinityPointer := PodAntiAffinityPointer + "/" + Preferred
  const TopologySpreadConstraints := "topologySpreadConstraints"
  const TopologySpreadConstraintsPointer := Spec + "/" + TopologySpreadConstraints

  /** One "add" at the end of the array per element, in order. */
  function AppendOps<T>(appending: seq<T>, path: string): seq<PatchOp<T>>
  {
    seq(|appending|, i requires 0 <= i < |appending| => PatchOp(Add, AppendPointer(path), Element(appending[i])))
  }

  /** The operations appending `appending` to the array at `path`, whose
      current value is `existing` (None for a nil array): nothing for an
      empty list, one "add" of the whole list for a nil array, one "add" at
      the end per element otherwise. Every operation is an "add". */
  function LeafPatch<T>(existing: Option<seq<T>>, appending: seq<T>, path: string): (ops: seq<PatchOp<T>>)
    ensures forall i :: 0 <= i < |ops| ==> ops[i].op == Add
    ensures |ops| == if |appending| == 0 then 0 else if existing.None? then 1 else |appending|
    ensures |appending| > 0 && existing.None? ==> ops == [PatchOp(Add, path, Whole(appending))]
    ensures existing.Some? ==> forall i :: 0 <= i < |ops| ==> ops[i] == PatchOp(Add, AppendPointer(path), Element(appending[i]))
  {
    if |appending| == 0 then []
    else if existing.None? then [PatchOp(Add, path, Whole(appending))]
    else AppendOps(appending, path)
  }

  lemma AppendOpsSnoc<T>(appending: seq<T>, path: string, i: nat)
    requires i < |appending|
    ensures AppendOps(appending[..i + 1], path) ==
      AppendOps(appending[..i], path) + [PatchOp(Add, AppendPointer(path), Element(appending[i]))]
  {
  }

  /** The patch block: appends to `patch` the records for one leaf list,
      looping over the elements when the array exists. */
  method AppendLeafPatch<T>(patch: seq<PatchOp<T>>, existing: Option<seq<T>>, appending: seq<T>, path: string)
    returns (extended: seq<PatchOp<T>>)
    ensures extended == patch + LeafPatch(existing, appending, path)
  {
    extended := patch;
    if |appending| > 0 {
      if existing.None? {
        extended := extended + [PatchOp(Add, path, Whole(appending))];
      } else {
        for i := 0 to |appending|
          invariant extended == patch + AppendOps(appending[..i], path)
        {
          AppendOpsSnoc(appending, path, i);
          extended := extended + [PatchOp(Add, AppendPointer(path), Element(appending[i]))];
        }
        assert appending[..|appending|] == appending;
      }
    }
  }

  // ---------------------------------------------------------------------
  // What the operations do.
  // ---------------------------------------------------------------------

  /** The part of a JSON document an operation can reach: the pointers of
      the objects that exist and the arrays that exist, by pointer. */
  datatype Document<T> = Document(objects: set<string>, arrays: map<string, seq<T>>)

  datatype ApplyError = UnsupportedOp | MissingParent | MissingArray | UnsupportedValue

  /** The array at `path`, None when there is none. */
  function Existing<T>(doc: Document<T>, path: string): Option<seq<T>>
  {
    if path in doc.arrays then Some(doc.arrays[path]) else None
  }

  /** An "add" (reading "key" as the pointer): at an end-of-array pointer it
      appends an element to an existing array; elsewhere it sets the member
      to the whole list, which requires the parent object to exist and
      replaces any array already there. */
  function ApplyOp<T>(doc: Document<T>, op: PatchOp<T>): Result<Document<T>, ApplyError>
  {
    if op.op != Add then Failure(UnsupportedOp)
    else if IsAppendPointer(op.key) then
      var target := op.key[..|op.key| - 2];
      match op.values
      case Element(x) =>
        if target in doc.arrays then Success(doc.(arrays := doc.arrays[target := doc.arrays[target] + [x]]))
        else Failure(MissingArray)
      case Whole(_) => Failure(UnsupportedValue)
    else
      match op.values
      case Whole(xs) =>
        if ParentOf(op.key) in doc.objects || op.key in doc.arrays then Success(doc.(arrays := doc.arrays[op.key := xs]))
        else Failure(MissingParent)
      case Element(_) => Failure(UnsupportedValue)
  }

  /** The operations applied in order; the first failure stops the patch. */
  function Apply<T>(doc: Document<T>, ops: seq<PatchOp<T>>): Result<Document<T>, ApplyError>
    decreases |ops|
  {
    if |ops| == 0 then Success(doc)
    else
      match ApplyOp(doc, ops[0])
      case Success(next) => Apply(next, ops[1..])
      case Failure(e) => Failure(e)
  }

  /** Applying a concatenation applies the first part, then the second. */
  lemma {:induction false} ApplyConcat<T>(doc: Document<T>, a: seq<PatchOp<T>>, b: seq<PatchOp<T>>)
    ensures Apply(doc, a + b) == match Apply(doc, a) { case Success(next) => Apply(next, b) case Failure(e) => Failure(e) }
    decreases |a|
  {
    if |a| == 0 {
      assert a + b == b;
    } else {
      assert (a + b)[0] == a[0] && (a + b)[1..] == a[1..] + b;
      match ApplyOp(doc, a[0])
      case Success(next) => ApplyConcat(next, a[1..], b);
      case Failure(_) =>
    }
  }

  /** Appending element by element to an existing array yields the array
      followed by the elements, and touches nothing else. */
  lemma {:induction false} ApplyAppendOps<T>(doc: Document<T>, appending: seq<T>, path: string)
    requires path in doc.arrays
    ensures Apply(doc, AppendOps(appending, path)) == Success(doc.(arrays := doc.arrays[path := doc.arrays[path] + appending]))
    decreases |appending|
  {
    var ops := AppendOps(appending, path);
    if |appending| == 0 {
      assert doc.arrays[path] + appending == doc.arrays[path];
      assert doc.arrays[path := doc.arrays[path] + appending] == doc.arrays;
    } else {
      var key := AppendPointer(path);
      assert IsAppendPointer(key) && key[..|key| - 2] == path;
      var next := doc.(arrays := doc.arrays[path := doc.arrays[path] + [appending[0]]]);
      assert ApplyOp(doc, ops[0]) == Success(next);
      assert ops[1..] == AppendOps(appending[1..], path);
      ApplyAppendOps(next, appending[1..], path);
      assert next.arrays[path] + appending[1..] == doc.arrays[path] + appending;
      assert next.arrays[path := next.arrays[path] + appending[1..]] == doc.arrays[path := doc.arrays[path] + appending];
    }
  }

  /** Applying the leaf patch built from a document's own array at `path`
      (whose parent exists) succeeds; afterwards the array holds its former
      elements followed by the appended ones, and every other array and
      every object is as before. An empty list leaves the document alone. */
  lemma ApplyLeafPatch<T>(doc: Document<T>, appending: seq<T>, path: string)
    requires !IsAppendPointer(path)
    requires path in doc.arrays || ParentOf(path) in doc.objects
    ensures var r := Apply(doc, LeafPatch(Existing(doc, path), appending, path));
      && r.Success?
      && r.value.objects == doc.objects
      && (forall q :: q != path ==> Existing(r.value, q) == Existing(doc, q))
      && (|appending| > 0 ==> Existing(r.value, path) == Some(Existing(doc, path).GetOr([]) + appending))
      && (|appending| == 0 ==> r.value == doc)
  {
    if |appending| > 0 {
      if path in doc.arrays {
        ApplyAppendOps(doc, appending, path);
      } else {
        var ops := LeafPatch(Existing(doc, path), appending, path);
        assert ops == [PatchOp(Add, path, Whole(appending))];
        assert Apply(doc, ops) == Apply(doc.(arrays := doc.arrays[path := appending]), ops[1..]);
        assert [] + appending == appending;
      }
    }
  }

  /** The length invariant the tests check per list: with `b` elements
      before, the patched array exists when `b + |appending| > 0`, has
      `b + |appending|` elements, the former ones first, in order. */
  lemma AppendLengthInvariant<T>(doc: Document<T>, appending: seq<T>, path: string)
    requires !IsAppendPointer(path)
    requires path in doc.arrays || ParentOf(path) in doc.objects
    ensures var before := Existing(doc, path).GetOr([]);
      var r := Apply(doc, LeafPatch(Existing(doc, path), appending, path));
      && r.Success?
      && (|before| + |appending| > 0 ==>
            && path in r.value.arrays
            && |r.value.arrays[path]| == |before| + |appending|
            && r.value.arrays[path][..|before|] == before
            && r.value.arrays[path][|before|..] == appending)
  {
    ApplyLeafPatch(doc, appending, path);
  }

  /** Two leaf patches for different arrays, each built from the original
      document and applied one after the other, append to both arrays: the
      combined affinity patch is this, four times over. */
  lemma DisjointLeafPatches<T>(doc: Document<T>, p: string, a: seq<T>, q: string, b: seq<T>)
    requires p != q && !IsAppendPointer(p) && !IsAppendPointer(q)
    requires !(p + "/" <= q) && !(q + "/" <= p)
    requires p in doc.arrays || ParentOf(p) in doc.objects
    requires q in doc.arrays || ParentOf(q) in doc.objects
    ensures var r := Apply(doc, LeafPatch(Existing(doc, p), a, p) + LeafPatch(Existing(doc, q), b, q));
      && r.Success?
      && (|a| > 0 ==> Existing(r.value, p) == Some(Existing(doc, p).GetOr([]) + a))
      && (|b| > 0 ==> Existing(r.value, q) == Some(Existing(doc, q).GetOr([]) + b))
      && (forall k :: k != p && k != q ==> Existing(r.value, k) == Existing(doc, k))
  {
    var first := LeafPatch(Existing(doc, p), a, p);
    ApplyConcat(doc, first, LeafPatch(Existing(doc, q), b, q));
    ApplyLeafPatch(doc, a, p);
    var next := Apply(doc, first).value;
    assert Existing(next, q) == Existing(doc, q);
    assert q in next.arrays || ParentOf(q) in next.objects;
    ApplyLeafPatch(next, b, q);
  }

  /** The parent of a child pointer is the pointer it was built from. */
  lemma {:induction false} ParentOfChild(parent: string, member: string)
    requires '/' !in member
    ensures ParentOf(parent + "/" + member) == parent
  {
    var key := parent + "/" + member;
    if |member| == 0 {
      assert key[..|key| - 1] == parent;
    } else {
      assert key[..|key| - 1] == parent + "/" + member[..|member| - 1];
      assert key[|key| - 1] == member[|member| - 1] != '/';
      assert forall c :: c in member[..|member| - 1] ==> c in member;
      ParentOfChild(parent, member[..|member| - 1]);
    }
  }

  /** A pointer to a named member (not "-") is no end-of-array pointer. */
  lemma ChildPointer(parent: string, member: string)
    requires '/' !in member && |member| > 0 && member != "-"
    ensures !IsAppendPointer(parent + "/" + member)
    ensures ParentOf(parent + "/" + member) == parent
  {
    var key := parent + "/" + member;
    var tail := key[|key| - 2..];
    if |member| == 1 {
      assert member == [member[0]];
      assert tail[1] == member[0] != '-';
    } else {
      assert tail[0] == member[|member| - 2];
      assert member[|member| - 2] in member;
    }
    assert tail != "/-";
    ParentOfChild(parent, member);
  }

  /** The five target pointers are not end-of-array pointers and have the
      parents their names say. */
  lemma TargetPointers()
    ensures !IsAppendPointer(HardAffinityPointer) && ParentOf(HardAffinityPointer) == PodAffinityPointer
    ensures !IsAppendPointer(SoftAffinityPointer) && ParentOf(SoftAffinityPointer) == PodAffinityPointer
    ensures !IsAppendPointer(HardAntiAffinityPointer) && ParentOf(HardAntiAffinityPointer) == PodAntiAffinityPointer
    ensures !IsAppendPointer(SoftAntiAffinityPointer) && ParentOf(SoftAntiAffinityPointer) == PodAntiAffinityPointer
    ensures !IsAppendPointer(TopologySpreadConstraintsPointer) && ParentOf(TopologySpreadConstraintsPointer) == Spec
  {
    ChildPointer(PodAffinityPointer, Required);
    ChildPointer(PodAffinityPointer, Preferred);
    ChildPointer(PodAntiAffinityPointer, Required);
    ChildPointer(PodAntiAffinityPointer, Preferred);
    ChildPointer(Spec, TopologySpreadConstraints);
  }

  /** The length invariant for each of the four affinity lists, on a pod
      whose parent object of that list exists: `b` terms before, `b` plus the
      appended number after, the former first. */
  lemma AffinityListsAppendLength<T>(doc: Document<T>, appending: seq<T>, path: string)
    requires path in {HardAffinityPointer, SoftAffinityPointer, HardAntiAffinityPointer, SoftAntiAffinityPointer}
    requires path in doc.arrays || ParentOf(path) in doc.objects
    ensures var before := Existing(doc, path).GetOr([]);
      var r := Apply(doc, LeafPatch(Existing(doc, path), appending, path));
      && r.Success?
      && (|before| + |appending| > 0 ==>
            && path in r.value.arrays
            && |r.value.arrays[path]| == |before| + |appending|
            && r.value.arrays[path][..|before|] == before
            && r.value.arrays[path][|before|..] == appending)
  {
    TargetPointers();
    AppendLengthInvariant(doc, appending, path);
  }

  /** The same for the topology spread constraints, which hang off the
      always-present `/spec`. */
  lemma TopologySpreadAppendLength<T>(doc: Document<T>, appending: seq<T>)
    requires Spec in doc.objects
    ensures var before := Existing(doc, TopologySpreadConstraintsPointer).GetOr([]);
      var r := Apply(doc, LeafPatch(Existing(doc, TopologySpreadConstraintsPointer), appending, TopologySpreadConstraintsPointer));
      && r.Success?
      && (|before| + |appending| > 0 ==>
            && TopologySpreadConstraintsPointer in r.value.arrays
            && |r.value.arrays[TopologySpreadConstraintsPointer]| == |before| + |appending|
            && r.value.arrays[TopologySpreadConstraintsPointer][..|before|] == before
            && r.value.arrays[TopologySpreadConstraintsPointer][|before|..] == appending)
  {
    TargetPointers();
    AppendLengthInvariant(doc, appending, TopologySpreadConstraintsPointer);
  }
}
