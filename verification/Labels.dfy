/** Labels that are copied from the AzureCluster of the same cluster when an object lacks them. */
module Labels {
  import opened Wrappers
  import opened JsonPointer
  import opened JsonPatch
  import opened JsonDecoding
  import opened FieldPatches
  import opened StringMaps

  type LabelMap = StringMap

  datatype Error = ClusterLabelNotFound | ClusterNotFound | RequestFailed | LabelNotFound

  /** The reply to the request for an AzureCluster. */
  datatype Reply = Found(labels: LabelMap) | NotFound | Failed

  /** The label of the AzureCluster named by the object's own cluster label; `get` stands for the client. */
  function FromAzureCluster(
      labels: LabelMap, clusterLabel: string, get: string -> Reply, name: string): Result<string, Error> {
    var clusterID := Lookup(labels, clusterLabel);
    if clusterID == "" then Failure(ClusterLabelNotFound)
    else match get(clusterID)
      case NotFound => Failure(ClusterNotFound)
      case Failed => Failure(RequestFailed)
      case Found(owned) => Success(Lookup(owned, name))
  }

  function LabelPath(name: string): string {
    "/metadata/labels/" + Escape(name)
  }

  /** The patch that adds a missing label, if one is needed. */
  function EnsureLabel(labels: LabelMap, clusterLabel: string, get: string -> Reply, name: string)
    : Result<Option<PatchOperation>, Error>
  {
    if Lookup(labels, name) != "" then Success(None)
    else match FromAzureCluster(labels, clusterLabel, get, name)
      case Failure(e) => Failure(e)
      case Success(value) =>
        if value == "" then Failure(LabelNotFound)
        else Success(Some(PatchAdd(LabelPath(name), Str(value))))
  }

  /** What is emitted and what goes wrong, in the terms of the two label maps. */
  lemma EnsureLabelExactly(labels: LabelMap, clusterLabel: string, get: string -> Reply, name: string)
    ensures match EnsureLabel(labels, clusterLabel, get, name)
      case Success(None) => name in labels && labels[name] != ""
      case Success(Some(p)) =>
        && IsUnset(labels, name) && !IsUnset(labels, clusterLabel)
        && get(labels[clusterLabel]).Found? && !IsUnset(get(labels[clusterLabel]).labels, name)
        && p == PatchOperation("add", "/metadata/labels/" + Escape(name), Str(get(labels[clusterLabel]).labels[name]))
      case Failure(ClusterLabelNotFound) => IsUnset(labels, name) && IsUnset(labels, clusterLabel)
      case Failure(ClusterNotFound) =>
        IsUnset(labels, name) && !IsUnset(labels, clusterLabel) && get(labels[clusterLabel]) == NotFound
      case Failure(RequestFailed) =>
        IsUnset(labels, name) && !IsUnset(labels, clusterLabel) && get(labels[clusterLabel]) == Failed
      case Failure(LabelNotFound) =>
        && IsUnset(labels, name) && !IsUnset(labels, clusterLabel)
        && get(labels[clusterLabel]).Found? && IsUnset(get(labels[clusterLabel]).labels, name)
  {
  }

  /** Go reads a missing label as an empty one. */
  predicate IsUnset(labels: LabelMap, name: string) {
    name in labels ==> labels[name] == ""
  }

  const LABELS := ["metadata", "labels"]

  lemma LabelTokens(name: string)
    ensures Tokens(LabelPath(name)) == Some(LABELS + [name])
  {
    MemberPointer("/metadata/labels/", "metadata", "labels", name);
    assert ["metadata", "labels", name] == LABELS + [name];
  }

  lemma LabelPointer(name: string, tokens: seq<string>)
    requires tokens == LABELS + [name]
    ensures Pointer(tokens) == LabelPath(name)
  {
    LabelTokens(name);
    PointerOfTokens(LabelPath(name));
  }

  /**
   * The emitted patch hits the label itself, whatever characters its name has: applied to an object with
   * a labels object it sets that label, to the value in the AzureCluster, and nothing is left to do.
   */
  lemma EnsuredLabelIsSet(
      doc: Json, labels: LabelMap, clusterLabel: string, get: string -> Reply, name: string, p: PatchOperation)
    requires HoldsMap(doc, LABELS, labels)
    requires EnsureLabel(labels, clusterLabel, get, name) == Success(Some(p))
    ensures Apply(p, doc).Some? && p.value.Str? && p.value.s != ""
    ensures get(Lookup(labels, clusterLabel)).Found?
            && Lookup(get(Lookup(labels, clusterLabel)).labels, name) == p.value.s
    ensures HoldsMap(Apply(p, doc).value, LABELS, labels[name := p.value.s])
    ensures EnsureLabel(labels[name := p.value.s], clusterLabel, get, name) == Success(None)
  {
    LabelTokens(name);
    AddToMap(doc, LABELS, labels, name, p.value.s);
  }

  /** Without a labels object the patch cannot be applied. */
  lemma EnsureLabelNeedsLabels(
      doc: Json, labels: LabelMap, clusterLabel: string, get: string -> Reply, name: string, p: PatchOperation)
    requires EnsureLabel(labels, clusterLabel, get, name) == Success(Some(p))
    ensures Apply(p, doc).Some? <==> IsObjectAt(doc, LABELS)
  {
    LabelTokens(name);
    AddSucceeds(doc, LABELS + [name], p.value);
    assert (LABELS + [name])[..2] == LABELS;
  }

  /** The optional patch as a fill of the label's place. */
  function LabelFill(name: string, p: Option<PatchOperation>): Fill {
    Fill(LABELS + [name], if p.Some? then p.value.value else Null, p.Some?)
  }

  function WithLabel(labels: LabelMap, name: string, p: Option<PatchOperation>): LabelMap {
    if p.Some? && p.value.value.Str? then labels[name := p.value.value.s] else labels
  }

  /** A patch that sets a label to something. */
  predicate SetsLabel(p: PatchOperation) {
    p.value.Str? && p.value.s != ""
  }

  /** What is emitted: an add at the label's path, exactly when the label is missing. */
  lemma EnsuredPatch(
      labels: LabelMap, clusterLabel: string, get: string -> Reply, name: string, p: Option<PatchOperation>)
    requires EnsureLabel(labels, clusterLabel, get, name) == Success(p)
    ensures p.Some? <==> Lookup(labels, name) == ""
    ensures p.Some? ==> SetsLabel(p.value) && p.value == PatchAdd(LabelPath(name), p.value.value)
  {
  }

  lemma LabelFillPatch(name: string, p: Option<PatchOperation>, f: Fill)
    requires f == LabelFill(name, p)
    ensures FillPatch(f) == if f.needed then [PatchAdd(LabelPath(name), f.value)] else []
  {
    LabelPointer(name, f.tokens);
  }

  /** The patch that the webhooks append is exactly the fill. */
  lemma EnsureLabelFills(
      labels: LabelMap, clusterLabel: string, get: string -> Reply, name: string, p: Option<PatchOperation>)
    requires EnsureLabel(labels, clusterLabel, get, name) == Success(p)
    ensures FillPatch(LabelFill(name, p)) == if p.Some? then [p.value] else []
    ensures p.Some? <==> Lookup(labels, name) == ""
    ensures p.Some? ==> SetsLabel(p.value)
  {
    EnsuredPatch(labels, clusterLabel, get, name, p);
    LabelFillPatch(name, p, LabelFill(name, p));
  }

  /** Setting a label to something keeps every label that is set, and sets the one it is for. */
  lemma LabelsStaySet(labels: LabelMap, name: string, other: string, p: Option<PatchOperation>)
    requires p.Some? ==> SetsLabel(p.value)
    requires Lookup(labels, name) != "" || (name == other && p.Some?)
    ensures Lookup(WithLabel(labels, other, p), name) != ""
  {
  }

  /** A label fill changes the labels of the object in just that label. */
  lemma LabelFillSets(doc: Json, labels: LabelMap, name: string, p: Option<PatchOperation>)
    requires DecodeStringMap(At(doc, LABELS)) == Some(labels) && (p.Some? ==> p.value.value.Str?)
    requires ApplyAll(FillPatch(LabelFill(name, p)), doc).Some?
    ensures DecodeStringMap(At(ApplyAll(FillPatch(LabelFill(name, p)), doc).value, LABELS))
         == Some(WithLabel(labels, name, p))
  {
    ApplyFill(doc, LabelFill(name, p));
    if p.Some? {
      AddSucceeds(doc, LABELS + [name], p.value.value);
      assert (LABELS + [name])[..2] == LABELS;
      AddToMap(doc, LABELS, labels, name, p.value.value.s);
    }
  }
}
