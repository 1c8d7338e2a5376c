/** The autoscaler annotations of a node pool, and the patches that repair them. */
module Autoscaling {
  import opened Wrappers
  import opened Text
  import opened JsonPointer
  import opened JsonPatch
  import opened JsonDecoding
  import opened StringMaps

  /** The names of the two annotations, which the API extension library defines. */
  datatype KeyPair = KeyPair(minSize: string, maxSize: string)

  type Keys = k: KeyPair | k.minSize != k.maxSize witness KeyPair("min-size", "max-size")

  type Int32 = n: int | -MAX_INT32 - 1 <= n <= MAX_INT32

  const DEFAULT_REPLICAS: Int32 := 1

  type Annotations = StringMap

  function AnnotationPath(key: string): string {
    "/metadata/annotations/" + Escape(key)
  }

  function ClusterReplicas(replicas: Option<Int32>): Int32 {
    if replicas.Some? then replicas.value else DEFAULT_REPLICAS
  }

  function AsInt32(a: Annotations, key: string): Result<int, NumError> {
    ParseInt(Lookup(a, key), MAX_INT32)
  }

  /** The minimum is present, an int32, and not negative. */
  predicate HasValidMin(keys: Keys, a: Annotations) {
    AsInt32(a, keys.minSize).Success? && AsInt32(a, keys.minSize).value >= 0
  }

  function EffectiveMin(keys: Keys, replicas: Option<Int32>, a: Annotations): int {
    if HasValidMin(keys, a) then AsInt32(a, keys.minSize).value else ClusterReplicas(replicas)
  }

  predicate HasValidMax(keys: Keys, a: Annotations, min: int) {
    AsInt32(a, keys.maxSize).Success? && AsInt32(a, keys.maxSize).value >= min
  }

  /** An add for an annotation that is missing or empty, a replacement for any other. */
  function SetAnnotation(a: Annotations, key: string, n: int): PatchOperation {
    if Lookup(a, key) == "" then PatchAdd(AnnotationPath(key), Str(PrintInt(n)))
    else PatchReplace(AnnotationPath(key), Str(PrintInt(n)))
  }

  function MinPatches(keys: Keys, replicas: Option<Int32>, a: Annotations): seq<PatchOperation> {
    if HasValidMin(keys, a) then [] else [SetAnnotation(a, keys.minSize, ClusterReplicas(replicas))]
  }

  function MaxPatches(keys: Keys, a: Annotations, min: int): seq<PatchOperation> {
    if HasValidMax(keys, a, min) then [] else [SetAnnotation(a, keys.maxSize, min)]
  }

  function RepairPatches(keys: Keys, replicas: Option<Int32>, a: Annotations): seq<PatchOperation> {
    MinPatches(keys, replicas, a) + MaxPatches(keys, a, EffectiveMin(keys, replicas, a))
  }

  method EnsureAutoscalingAnnotations(
      keys: Keys, replicas: Option<Int32>, annotations: Annotations)
    returns (patches: seq<PatchOperation>)
    ensures patches == RepairPatches(keys, replicas, annotations)
  {
    patches := [];
    var clusterReplicas := DEFAULT_REPLICAS;
    if replicas.Some? {
      clusterReplicas := replicas.value;
    }
    var currentMin := clusterReplicas;
    if Lookup(annotations, keys.minSize) == "" {
      patches := patches + [PatchAdd(AnnotationPath(keys.minSize), Str(PrintInt(clusterReplicas)))];
    } else {
      var min := ParseInt(Lookup(annotations, keys.minSize), MAX_INT32);
      if min.Failure? || min.value < 0 {
        patches := patches + [PatchReplace(AnnotationPath(keys.minSize), Str(PrintInt(clusterReplicas)))];
        currentMin := clusterReplicas;
      } else {
        currentMin := min.value;
      }
    }
    ghost var first := MinPatches(keys, replicas, annotations);
    assert patches == first && currentMin == EffectiveMin(keys, replicas, annotations);
    if Lookup(annotations, keys.maxSize) == "" {
      patches := patches + [PatchAdd(AnnotationPath(keys.maxSize), Str(PrintInt(currentMin)))];
    } else {
      var max := ParseInt(Lookup(annotations, keys.maxSize), MAX_INT32);
      if max.Failure? || max.value < currentMin {
        patches := patches + [PatchReplace(AnnotationPath(keys.maxSize), Str(PrintInt(currentMin)))];
      }
    }
    assert patches == first + MaxPatches(keys, annotations, currentMin);
  }

  const ANNOTATIONS := ["metadata", "annotations"]

  predicate HasAnnotations(doc: Json, a: Annotations) {
    HoldsMap(doc, ANNOTATIONS, a)
  }

  function WithMin(keys: Keys, replicas: Option<Int32>, a: Annotations): Annotations {
    if HasValidMin(keys, a) then a else a[keys.minSize := PrintInt(ClusterReplicas(replicas))]
  }

  /** The annotations after the repair. */
  function Repaired(keys: Keys, replicas: Option<Int32>, a: Annotations): Annotations {
    var min := EffectiveMin(keys, replicas, a);
    if HasValidMax(keys, a, min) then WithMin(keys, replicas, a)
    else WithMin(keys, replicas, a)[keys.maxSize := PrintInt(min)]
  }

  lemma AnnotationTokens(key: string)
    ensures Tokens(AnnotationPath(key)) == Some(ANNOTATIONS + [key])
  {
    MemberPointer("/metadata/annotations/", "metadata", "annotations", key);
    assert ["metadata", "annotations", key] == ANNOTATIONS + [key];
  }

  lemma SetAnnotationSets(doc: Json, a: Annotations, key: string, n: int, p: PatchOperation)
    requires HasAnnotations(doc, a)
    requires p == PatchAdd(AnnotationPath(key), Str(PrintInt(n)))
             || (key in a && p == PatchReplace(AnnotationPath(key), Str(PrintInt(n))))
    ensures Apply(p, doc).Some? && HasAnnotations(Apply(p, doc).value, a[key := PrintInt(n)])
  {
    AnnotationTokens(key);
    AddToMap(doc, ANNOTATIONS, a, key, PrintInt(n));
    if p.operation == REPLACE {
      AtChild(doc, ANNOTATIONS, key);
      ReplaceSucceeds(doc, ANNOTATIONS + [key], p.value);
    }
  }

  lemma {:induction false} AtChild(doc: Json, parent: seq<string>, key: string)
    requires IsObjectAt(doc, parent)
    ensures At(doc, parent + [key]) == Member(At(doc, parent).value.members, key)
  {
    if |parent| == 0 {
      assert (parent + [key])[1..] == [];
    } else {
      AtChild(doc.members[parent[0]], parent[1..], key);
      assert (parent + [key])[1..] == parent[1..] + [key];
    }
  }

  lemma ApplySingle(p: PatchOperation, doc: Json)
    ensures ApplyAll([p], doc) == Apply(p, doc)
  {
  }

  lemma MinApplies(keys: Keys, doc: Json, replicas: Option<Int32>, a: Annotations)
    requires HasAnnotations(doc, a)
    ensures ApplyAll(MinPatches(keys, replicas, a), doc).Some?
    ensures HasAnnotations(ApplyAll(MinPatches(keys, replicas, a), doc).value, WithMin(keys, replicas, a))
  {
    if !HasValidMin(keys, a) {
      var p := SetAnnotation(a, keys.minSize, ClusterReplicas(replicas));
      SetAnnotationSets(doc, a, keys.minSize, ClusterReplicas(replicas), p);
      ApplySingle(p, doc);
    }
  }

  lemma MaxApplies(keys: Keys, doc: Json, b: Annotations, a: Annotations, min: int)
    requires HasAnnotations(doc, b) && (keys.maxSize in a ==> keys.maxSize in b)
    ensures ApplyAll(MaxPatches(keys, a, min), doc).Some?
    ensures HasAnnotations(ApplyAll(MaxPatches(keys, a, min), doc).value,
                           if HasValidMax(keys, a, min) then b else b[keys.maxSize := PrintInt(min)])
  {
    if !HasValidMax(keys, a, min) {
      var p := SetAnnotation(a, keys.maxSize, min);
      SetAnnotationSets(doc, b, keys.maxSize, min, p);
      ApplySingle(p, doc);
    }
  }

  /** Where there is an annotations object the patches apply, and make exactly the repaired annotations. */
  lemma RepairApplies(keys: Keys, doc: Json, replicas: Option<Int32>, a: Annotations)
    requires HasAnnotations(doc, a)
    ensures ApplyAll(RepairPatches(keys, replicas, a), doc).Some?
    ensures HasAnnotations(ApplyAll(RepairPatches(keys, replicas, a), doc).value, Repaired(keys, replicas, a))
  {
    var min := EffectiveMin(keys, replicas, a);
    MinApplies(keys, doc, replicas, a);
    var between := ApplyAll(MinPatches(keys, replicas, a), doc).value;
    MaxApplies(keys, between, WithMin(keys, replicas, a), a, min);
    ApplyConcat(MinPatches(keys, replicas, a), MaxPatches(keys, a, min), doc);
  }

  lemma RepairPaths(keys: Keys, replicas: Option<Int32>, a: Annotations, other: seq<string>)
    requires Apart(ANNOTATIONS + [keys.minSize], other) && Apart(ANNOTATIONS + [keys.maxSize], other)
    ensures AllApart(RepairPatches(keys, replicas, a), other)
  {
    AnnotationTokens(keys.minSize);
    AnnotationTokens(keys.maxSize);
    forall p | p in RepairPatches(keys, replicas, a)
      ensures p.path == AnnotationPath(keys.minSize) || p.path == AnnotationPath(keys.maxSize)
    {
    }
  }

  /** Everything but the two annotations stays as it was. */
  lemma RepairFrame(keys: Keys, doc: Json, replicas: Option<Int32>, a: Annotations, other: seq<string>)
    requires HasAnnotations(doc, a)
    requires Apart(ANNOTATIONS + [keys.minSize], other) && Apart(ANNOTATIONS + [keys.maxSize], other)
    ensures ApplyAll(RepairPatches(keys, replicas, a), doc).Some?
    ensures At(ApplyAll(RepairPatches(keys, replicas, a), doc).value, other) == At(doc, other)
  {
    RepairApplies(keys, doc, replicas, a);
    RepairPaths(keys, replicas, a, other);
    ApplyFrame(RepairPatches(keys, replicas, a), doc, other);
  }

  /** Both annotations are int32 numbers, the minimum is not negative, and the maximum not below it. */
  predicate AreSound(keys: Keys, a: Annotations) {
    HasValidMin(keys, a) && HasValidMax(keys, a, AsInt32(a, keys.minSize).value)
  }

  /** The repair works unless it has to fall back on a negative number of replicas. */
  predicate IsRepairable(keys: Keys, replicas: Option<Int32>, a: Annotations) {
    ClusterReplicas(replicas) >= 0 || HasValidMin(keys, a)
  }

  lemma RepairedNumbers(keys: Keys, replicas: Option<Int32>, a: Annotations)
    ensures AsInt32(Repaired(keys, replicas, a), keys.minSize) == Success(EffectiveMin(keys, replicas, a))
    ensures HasValidMax(keys, Repaired(keys, replicas, a), EffectiveMin(keys, replicas, a))
  {
    ParsePrint(ClusterReplicas(replicas), MAX_INT32);
    ParsePrint(EffectiveMin(keys, replicas, a), MAX_INT32);
  }

  /** The repaired annotations are sound exactly when the pool is repairable. */
  lemma RepairSucceedsExactly(keys: Keys, replicas: Option<Int32>, a: Annotations)
    ensures AreSound(keys, Repaired(keys, replicas, a)) <==> IsRepairable(keys, replicas, a)
  {
    RepairedNumbers(keys, replicas, a);
  }

  /** A second run emits nothing, exactly when the pool is repairable. */
  lemma RepairIsIdempotent(keys: Keys, replicas: Option<Int32>, a: Annotations)
    ensures RepairPatches(keys, replicas, Repaired(keys, replicas, a)) == [] <==> IsRepairable(keys, replicas, a)
  {
    RepairedNumbers(keys, replicas, a);
  }

  /** A pool with a negative number of replicas and no annotations gets unsound ones, again and again. */
  lemma RepairMayFail(keys: Keys)
    ensures !AreSound(keys, Repaired(keys, Some(-1), map[]))
    ensures RepairPatches(keys, Some(-1), Repaired(keys, Some(-1), map[])) != []
  {
    RepairSucceedsExactly(keys, Some(-1), map[]);
    RepairIsIdempotent(keys, Some(-1), map[]);
    assert Lookup(map[], keys.minSize) == "";
  }

  /** Annotations that are sound already are left alone, each on its own account. */
  lemma ValidValuesStay(keys: Keys, replicas: Option<Int32>, a: Annotations)
    ensures HasValidMin(keys, a) ==> Lookup(Repaired(keys, replicas, a), keys.minSize) == a[keys.minSize]
    ensures HasValidMax(keys, a, EffectiveMin(keys, replicas, a)) ==>
              Lookup(Repaired(keys, replicas, a), keys.maxSize) == a[keys.maxSize]
    ensures AreSound(keys, a) <==> RepairPatches(keys, replicas, a) == []
    ensures forall key | key in a && key != keys.minSize && key != keys.maxSize ::
              Lookup(Repaired(keys, replicas, a), key) == a[key]
  {
  }

  /** Sound annotations, in the terms of their texts. */
  lemma SoundExactly(keys: Keys, a: Annotations)
    ensures AreSound(keys, a) <==>
              && keys.minSize in a && ParseInt(a[keys.minSize], 2147483647).Success?
              && keys.maxSize in a && ParseInt(a[keys.maxSize], 2147483647).Success?
              && 0 <= ParseInt(a[keys.minSize], 2147483647).value <= ParseInt(a[keys.maxSize], 2147483647).value
  {
  }

  /** What a new pool gets: its number of replicas twice, or one twice when it names none. */
  lemma NewPoolExactly(keys: Keys, replicas: Option<Int32>)
    ensures var n := if replicas.Some? then replicas.value else 1;
            Repaired(keys, replicas, map[]) == map[keys.minSize := PrintInt(n), keys.maxSize := PrintInt(n)]
  {
    assert Lookup(map[], keys.minSize) == Lookup(map[], keys.maxSize) == "";
  }

  /** Annotations that are missing or empty are added, others that are wrong replaced, the minimum first. */
  lemma EmittedExactly(keys: Keys, replicas: Option<Int32>, a: Annotations, i: nat)
    requires i < |RepairPatches(keys, replicas, a)|
    ensures var p := RepairPatches(keys, replicas, a)[i];
            var key := if i == 0 && !HasValidMin(keys, a) then keys.minSize else keys.maxSize;
            && p.path == "/metadata/annotations/" + Escape(key)
            && p.operation == (if key in a && a[key] != "" then "replace" else "add")
            && p.value == Str(Repaired(keys, replicas, a)[key])
  {
  }

  /** Without an annotations object (no annotations at all) the patches always fail. */
  lemma RepairNeedsAnnotations(keys: Keys, doc: Json, replicas: Option<Int32>)
    requires !IsObjectAt(doc, ANNOTATIONS)
    ensures ApplyAll(RepairPatches(keys, replicas, map[]), doc).None?
  {
    var patches := RepairPatches(keys, replicas, map[]);
    var n := ClusterReplicas(replicas);
    var p, q := SetAnnotation(map[], keys.minSize, n), SetAnnotation(map[], keys.maxSize, n);
    assert patches == [p] + [q];
    AnnotationTokens(keys.minSize);
    AddSucceeds(doc, ANNOTATIONS + [keys.minSize], p.value);
    assert (ANNOTATIONS + [keys.minSize])[..2] == ANNOTATIONS;
    ApplyPush([], p, doc);
    ApplyPush([p], q, doc);
    assert [] + [p] == [p];
  }
}
