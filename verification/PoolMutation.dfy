/** Defaulting of new node pools, and the creation checks that the defaults have to pass. */
module PoolMutation {
  import opened Wrappers
  import opened Text
  import opened Sorting
  import opened JsonPointer
  import opened JsonPatch
  import opened JsonDecoding
  import opened StringMaps
  import opened Patches
  import opened FieldPatches
  import Labels
  import opened Skus
  import opened NodePools

  /** The fields of a node pool that the webhook fills, and those it looks at to fill them. */
  datatype PoolSpec = PoolSpec(
    labels: StringMap, location: string, vmSize: string, storageAccountType: string, dataDisks: seq<DataDisk>)

  /** Where those fields are in the JSON of the object, as reference tokens; the labels are at `LABELS`. */
  datatype Places = Places(location: seq<string>, vmSize: seq<string>, storage: seq<string>, disks: seq<string>)

  /** The places in an AzureMachinePool. */
  const POOL_PLACES :=
    Places(["spec", "location"], ["spec", "template", "vmSize"],
           ["spec", "template", "osDisk", "managedDisk", "storageAccountType"], ["spec", "template", "dataDisks"])

  /** The place of the SSH key, and the path prefix by which the webhook drops its patches. */
  const SSH_PLACE := ["spec", "template", "sshPublicKey"]
  const SSH_PATH := "/spec/template/sshPublicKey"

  function AllPlaces(at: Places): seq<seq<string>> {
    [at.vmSize, Labels.LABELS, at.location, at.storage, at.disks]
  }

  lemma PoolPlacesAreSeparate()
    ensures AreSeparate(AllPlaces(POOL_PLACES))
    ensures forall place | place in AllPlaces(POOL_PLACES) :: Apart(place, SSH_PLACE)
  {
    var p := POOL_PLACES;
    ApartAt(Labels.LABELS, p.vmSize, 0);
    ApartAt(Labels.LABELS, p.location, 0);
    ApartAt(Labels.LABELS, p.storage, 0);
    ApartAt(Labels.LABELS, p.disks, 0);
    ApartAt(p.location, p.vmSize, 1);
    ApartAt(p.location, p.storage, 1);
    ApartAt(p.location, p.disks, 1);
    ApartAt(p.storage, p.vmSize, 2);
    ApartAt(p.storage, p.disks, 2);
    ApartAt(p.disks, p.vmSize, 2);
    ApartAt(p.vmSize, SSH_PLACE, 2);
    ApartAt(Labels.LABELS, SSH_PLACE, 0);
    ApartAt(p.location, SSH_PLACE, 1);
    ApartAt(p.storage, SSH_PLACE, 2);
    ApartAt(p.disks, SSH_PLACE, 2);
  }

  lemma StorageText()
    ensures "/spec/template/osDisk" == "/" + "spec" + "/" + "template" + "/" + "osDisk"
    ensures "/spec/template/osDisk/managedDisk/storageAccountType"
         == "/spec/template/osDisk" + "/" + "managedDisk" + "/" + "storageAccountType"
  {
  }

  lemma TemplateText()
    ensures "/spec/template/dataDisks" == "/" + "spec" + "/" + "template" + "/" + "dataDisks"
    ensures "/spec/template/sshPublicKey" == "/" + "spec" + "/" + "template" + "/" + "sshPublicKey"
  {
  }

  /** The paths of the patches, as the webhook writes them. */
  lemma LocationPath(location: seq<string>)
    requires location == POOL_PLACES.location
    ensures Pointer(location) == "/spec/location"
  {
    PlainPointer2(location, "spec", "location", "/spec/location");
  }

  lemma StoragePath(storage: seq<string>)
    requires storage == POOL_PLACES.storage
    ensures Pointer(storage) == "/spec/template/osDisk/managedDisk/storageAccountType"
  {
    StorageText();
    PlainPointer5(storage, "spec", "template", "osDisk", "managedDisk", "storageAccountType",
                  "/spec/template/osDisk", "/spec/template/osDisk/managedDisk/storageAccountType");
  }

  lemma DisksPath(disks: seq<string>)
    requires disks == POOL_PLACES.disks
    ensures Pointer(disks) == "/spec/template/dataDisks"
  {
    TemplateText();
    PlainPointer3(disks, "spec", "template", "dataDisks", "/spec/template/dataDisks");
  }

  lemma SshPath(key: seq<string>)
    requires key == SSH_PLACE
    ensures Pointer(key) == SSH_PATH
  {
    TemplateText();
    PlainPointer3(key, "spec", "template", "sshPublicKey", "/spec/template/sshPublicKey");
  }

  lemma PoolPaths(at: Places)
    requires at == POOL_PLACES
    ensures Pointer(at.location) == "/spec/location"
    ensures Pointer(at.storage) == "/spec/template/osDisk/managedDisk/storageAccountType"
    ensures Pointer(at.disks) == "/spec/template/dataDisks"
  {
    LocationPath(at.location);
    StoragePath(at.storage);
    DisksPath(at.disks);
  }

  function DecodeDisk(json: Json): Option<DataDisk> {
    if !json.Obj? then None
    else
      match (DecodeString(Member(json.members, "nameSuffix")), DecodeInt(Member(json.members, "diskSizeGB")),
             DecodeOptionalInt(Member(json.members, "lun")))
      case (Some(suffix), Some(size), Some(lun)) => Some(DataDisk(suffix, size, lun))
      case _ => None
  }

  function DecodeDiskList(elements: seq<Json>): Option<seq<DataDisk>> {
    if |elements| == 0 then Some([])
    else
      match (DecodeDisk(elements[0]), DecodeDiskList(elements[1..]))
      case (Some(d), Some(rest)) => Some([d] + rest)
      case _ => None
  }

  function DecodeDisks(json: Option<Json>): Option<seq<DataDisk>> {
    match json
    case None => Some([])
    case Some(Null) => Some([])
    case Some(Arr(elements)) => DecodeDiskList(elements)
    case Some(_) => None
  }

  function DecodeParts(
      labels: Option<Json>, location: Option<Json>, vmSize: Option<Json>, storage: Option<Json>, disks: Option<Json>)
      : Option<PoolSpec> {
    match (DecodeStringMap(labels), DecodeString(location), DecodeString(vmSize), DecodeString(storage),
           DecodeDisks(disks))
    case (Some(m), Some(l), Some(v), Some(s), Some(d)) => Some(PoolSpec(m, l, v, s, d))
    case _ => None
  }

  /** Decoding the JSON of a node pool, `None` when a member has the wrong type. */
  function Decode(at: Places, doc: Json): Option<PoolSpec> {
    DecodeParts(
      At(doc, Labels.LABELS), At(doc, at.location), At(doc, at.vmSize), At(doc, at.storage), At(doc, at.disks))
  }

  function EncodeDisk(d: DataDisk): Json
    requires d.lun.Some?
  {
    Obj(map["nameSuffix" := Str(d.nameSuffix), "diskSizeGB" := Num(d.diskSizeGB), "lun" := Num(d.lun.value)])
  }

  /** The default data disks as the patch carries them. */
  const DESIRED_DATA_DISKS_JSON := Arr([EncodeDisk(DESIRED_DATA_DISKS[0]), EncodeDisk(DESIRED_DATA_DISKS[1])])

  /** `home` is the location of the installation. */
  function LocationOf(c: PoolSpec, home: string): string {
    if c.location == "" then home else c.location
  }

  /** The storage type for a pool that names none: premium when its VM size supports it. */
  function DefaultStorage(premium: bool): string {
    if premium then PREMIUM_LRS else STANDARD_LRS
  }

  /** Whether to fill in the premium storage type; the VM size is looked up only when there is something to fill. */
  function PremiumStorage(skus: Catalogue, c: PoolSpec, home: string): Result<bool, Skus.Error> {
    if c.storageAccountType != "" then Success(false)
    else Supports(skus, LocationOf(c, home), c.vmSize, CAPABILITY_PREMIUM_IO)
  }

  /**
   * What the webhook is configured with, what it knows of the VM sizes, and what the Kubernetes client
   * replies to it.
   */
  datatype Environment = Environment(
    home: string, skus: Catalogue, clusterLabel: string, releaseLabel: string, operatorLabel: string,
    get: string -> Labels.Reply)

  datatype Error = SkuError(sku: Skus.Error) | LabelError(error: Labels.Error) | DiffError

  /** The patches for the two version labels. */
  datatype LabelPatches = LabelPatches(release: Option<PatchOperation>, operator: Option<PatchOperation>)

  function VersionLabels(c: PoolSpec, env: Environment): Result<LabelPatches, Labels.Error> {
    match Labels.EnsureLabel(c.labels, env.clusterLabel, env.get, env.releaseLabel)
    case Failure(e) => Failure(e)
    case Success(release) =>
      match Labels.EnsureLabel(c.labels, env.clusterLabel, env.get, env.operatorLabel)
      case Failure(e) => Failure(e)
      case Success(operator) => Success(LabelPatches(release, operator))
  }

  /** The fields that the webhook itself fills. */
  function OwnFills(at: Places, c: PoolSpec, home: string, premium: bool): seq<Fill> {
    [Fill(at.location, Str(home), c.location == ""),
     Fill(at.storage, Str(DefaultStorage(premium)), c.storageAccountType == ""),
     Fill(at.disks, DESIRED_DATA_DISKS_JSON, c.dataDisks == [])]
  }

  function WithRelease(at: Places, c: PoolSpec, env: Environment, premium: bool, p: LabelPatches): seq<Fill> {
    OwnFills(at, c, env.home, premium) + [Labels.LabelFill(env.releaseLabel, p.release)]
  }

  /** Those fields and the two labels. */
  function AllFills(at: Places, c: PoolSpec, env: Environment, premium: bool, p: LabelPatches): seq<Fill> {
    WithRelease(at, c, env, premium, p) + [Labels.LabelFill(env.operatorLabel, p.operator)]
  }

  /** The patches for the upstream defaults: sorted, and without those for the SSH key. */
  function Defaults(diff: seq<PatchOperation>): seq<PatchOperation> {
    Filter(Unprefixed(SSH_PATH), SortByPath(diff))
  }

  /** The whole mutation: the fills, then the upstream defaults; `diff` is the JSON diff of those. */
  function Mutation(at: Places, c: PoolSpec, env: Environment, diff: Option<seq<PatchOperation>>)
    : Result<seq<PatchOperation>, Error>
  {
    match PremiumStorage(env.skus, c, env.home)
    case Failure(e) => Failure(SkuError(e))
    case Success(premium) =>
      match VersionLabels(c, env)
      case Failure(e) => Failure(LabelError(e))
      case Success(p) =>
        if diff.None? then Failure(DiffError)
        else Success(FillPatches(AllFills(at, c, env, premium, p)) + Defaults(diff.value))
  }

  function Single(p: Option<PatchOperation>): seq<PatchOperation> {
    if p.Some? then [p.value] else []
  }

  lemma AllFillPatches(at: Places, c: PoolSpec, env: Environment, premium: bool, p: LabelPatches)
    requires VersionLabels(c, env) == Success(p)
    ensures FillPatches(AllFills(at, c, env, premium, p))
         == FillPatches(OwnFills(at, c, env.home, premium)) + Single(p.release) + Single(p.operator)
  {
    FillPatchesPush(OwnFills(at, c, env.home, premium), Labels.LabelFill(env.releaseLabel, p.release));
    FillPatchesPush(WithRelease(at, c, env, premium, p), Labels.LabelFill(env.operatorLabel, p.operator));
    Labels.EnsureLabelFills(c.labels, env.clusterLabel, env.get, env.releaseLabel, p.release);
    Labels.EnsureLabelFills(c.labels, env.clusterLabel, env.get, env.operatorLabel, p.operator);
  }

  method OwnPatches(at: Places, c: PoolSpec, env: Environment) returns (patches: Result<seq<PatchOperation>, Error>)
    ensures patches ==
      match PremiumStorage(env.skus, c, env.home) {
        case Failure(e) => Failure(SkuError(e))
        case Success(premium) => Success(FillPatches(OwnFills(at, c, env.home, premium)))
      }
  {
    var result: seq<PatchOperation> := [];
    if |c.location| == 0 {
      result := result + [PatchAdd(Pointer(at.location), Str(env.home))];
    }
    var storageAccountType := STANDARD_LRS;
    if c.storageAccountType == "" {
      var location := c.location;
      if location == "" {
        location := env.home;
      }
      var premium := Supports(env.skus, location, c.vmSize, CAPABILITY_PREMIUM_IO);
      if premium.Failure? {
        return Failure(SkuError(premium.error));
      }
      if premium.value {
        storageAccountType := PREMIUM_LRS;
      }
      result := result + [PatchAdd(Pointer(at.storage), Str(storageAccountType))];
    }
    if |c.dataDisks| == 0 {
      result := result + [PatchAdd(Pointer(at.disks), DESIRED_DATA_DISKS_JSON)];
    }
    ghost var fills := OwnFills(at, c, env.home, PremiumStorage(env.skus, c, env.home).value);
    ThreeFillPatches(fills[0], fills[1], fills[2]);
    assert result == FillPatches(fills);
    return Success(result);
  }

  method OnCreateMutate(at: Places, c: PoolSpec, env: Environment, diff: Option<seq<PatchOperation>>)
    returns (patches: Result<seq<PatchOperation>, Error>)
    ensures patches == Mutation(at, c, env, diff)
  {
    var own := OwnPatches(at, c, env);
    if own.Failure? {
      return Failure(own.error);
    }
    var result := own.value;
    var release := Labels.EnsureLabel(c.labels, env.clusterLabel, env.get, env.releaseLabel);
    if release.Failure? {
      return Failure(LabelError(release.error));
    }
    if release.value.Some? {
      result := result + [release.value.value];
    }
    assert result == own.value + Single(release.value);
    var operator := Labels.EnsureLabel(c.labels, env.clusterLabel, env.get, env.operatorLabel);
    if operator.Failure? {
      return Failure(LabelError(operator.error));
    }
    if operator.value.Some? {
      result := result + [operator.value.value];
    }
    assert result == own.value + Single(release.value) + Single(operator.value);
    ghost var premium := PremiumStorage(env.skus, c, env.home).value;
    AllFillPatches(at, c, env, premium, LabelPatches(release.value, operator.value));
    var defaults := GenerateFrom(diff);
    if defaults.None? {
      return Failure(DiffError);
    }
    var kept := SkipForPath(SSH_PATH, defaults.value);
    return Success(result + kept);
  }

  function AllLabels(labels: StringMap, env: Environment, p: LabelPatches): StringMap {
    Labels.WithLabel(Labels.WithLabel(labels, env.releaseLabel, p.release), env.operatorLabel, p.operator)
  }

  /**
   * The pool with its empty fields filled and its labels set; `premium` says whether its VM size
   * supports premium storage.
   */
  function Defaulted(c: PoolSpec, env: Environment, premium: bool, p: LabelPatches): PoolSpec {
    PoolSpec(
      AllLabels(c.labels, env, p), LocationOf(c, env.home), c.vmSize,
      if c.storageAccountType == "" then DefaultStorage(premium) else c.storageAccountType,
      if c.dataDisks == [] then DESIRED_DATA_DISKS else c.dataDisks)
  }

  /** Whether the VM size of the pool, in the location it will get, supports premium storage. */
  predicate IsPremium(azure: Catalogue, c: PoolSpec, home: string) {
    Supports(azure, LocationOf(c, home), c.vmSize, CAPABILITY_PREMIUM_IO) == Success(true)
  }

  predicate FitsInt32(d: DataDisk) {
    d.lun.Some? && IsInt32(d.diskSizeGB) && IsInt32(d.lun.value)
  }

  lemma DiskRoundTrip(d: DataDisk)
    requires FitsInt32(d)
    ensures DecodeDisk(EncodeDisk(d)) == Some(d)
  {
  }

  lemma TwoDisks(a: Json, b: Json)
    requires DecodeDisk(a).Some? && DecodeDisk(b).Some?
    ensures DecodeDiskList([a, b]) == Some([DecodeDisk(a).value, DecodeDisk(b).value])
  {
    assert [a, b][1..] == [b] && [b][1..] == [] && DecodeDiskList([]) == Some([]);
    assert DecodeDiskList([b]) == Some([DecodeDisk(b).value] + []);
    assert [DecodeDisk(b).value] + [] == [DecodeDisk(b).value];
    assert [DecodeDisk(a).value] + [DecodeDisk(b).value] == [DecodeDisk(a).value, DecodeDisk(b).value];
  }

  lemma DesiredDisksDecode()
    ensures DecodeDisks(Some(DESIRED_DATA_DISKS_JSON)) == Some(DESIRED_DATA_DISKS)
  {
    DiskRoundTrip(DESIRED_DATA_DISKS[0]);
    DiskRoundTrip(DESIRED_DATA_DISKS[1]);
    TwoDisks(EncodeDisk(DESIRED_DATA_DISKS[0]), EncodeDisk(DESIRED_DATA_DISKS[1]));
  }

  lemma ApartPlaces(at: Places)
    requires AreSeparate(AllPlaces(at))
    ensures Apart(at.location, at.storage) && Apart(at.location, at.disks) && Apart(at.storage, at.disks)
    ensures Apart(at.location, at.vmSize) && Apart(at.storage, at.vmSize) && Apart(at.disks, at.vmSize)
    ensures Apart(at.location, Labels.LABELS) && Apart(at.storage, Labels.LABELS) && Apart(at.disks, Labels.LABELS)
    ensures Apart(at.vmSize, Labels.LABELS)
  {
    var places := AllPlaces(at);
    assert places[0] == at.vmSize && places[1] == Labels.LABELS && places[2] == at.location;
    assert places[3] == at.storage && places[4] == at.disks;
  }

  lemma OwnFillsAreSeparate(at: Places, c: PoolSpec, home: string, premium: bool, name: string)
    requires AreSeparate(AllPlaces(at))
    ensures AreSeparateFills(OwnFills(at, c, home, premium))
    ensures forall f | f in OwnFills(at, c, home, premium) ::
              Apart(f.tokens, Labels.LABELS) && Apart(f.tokens, Labels.LABELS + [name]) && Apart(f.tokens, at.vmSize)
    ensures Apart(Labels.LABELS + [name], at.vmSize)
  {
    ApartPlaces(at);
    ApartBelow(at.location, Labels.LABELS, name);
    ApartBelow(at.storage, Labels.LABELS, name);
    ApartBelow(at.disks, Labels.LABELS, name);
    ApartBelow(at.vmSize, Labels.LABELS, name);
    ThreeFillsAreSeparate(OwnFills(at, c, home, premium));
  }

  lemma FillsAreSeparate(at: Places, c: PoolSpec, env: Environment, premium: bool, p: LabelPatches)
    requires AreSeparate(AllPlaces(at)) && env.releaseLabel != env.operatorLabel
    ensures AreSeparateFills(AllFills(at, c, env, premium, p))
    ensures forall f | f in AllFills(at, c, env, premium, p) :: Apart(f.tokens, at.vmSize)
  {
    var own := OwnFills(at, c, env.home, premium);
    var release := Labels.LabelFill(env.releaseLabel, p.release);
    var operator := Labels.LabelFill(env.operatorLabel, p.operator);
    OwnFillsAreSeparate(at, c, env.home, premium, env.releaseLabel);
    OwnFillsAreSeparate(at, c, env.home, premium, env.operatorLabel);
    PushIsSeparate(own, release);
    ApartAt(release.tokens, operator.tokens, 2);
    PushIsSeparate(own + [release], operator);
  }

  lemma FieldsLeftAlone(
      at: Places, c: PoolSpec, env: Environment, premium: bool, p: LabelPatches, patches: seq<PatchOperation>)
    requires LeavesAlone(AllPlaces(at), patches)
    ensures LeavesFieldsAlone(AllFills(at, c, env, premium, p), patches)
  {
    var places := AllPlaces(at);
    assert places[1] in places && places[2] in places && places[3] in places && places[4] in places;
    AllApartBelow(patches, Labels.LABELS, env.releaseLabel);
    AllApartBelow(patches, Labels.LABELS, env.operatorLabel);
  }

  /** The labels of a document after the fills. */
  lemma FillsSetLabels(at: Places, doc: Json, c: PoolSpec, env: Environment, premium: bool, p: LabelPatches)
    requires AreSeparate(AllPlaces(at)) && VersionLabels(c, env) == Success(p)
    requires DecodeStringMap(At(doc, Labels.LABELS)) == Some(c.labels)
    requires ApplyAll(FillPatches(AllFills(at, c, env, premium, p)), doc).Some?
    ensures DecodeStringMap(At(ApplyAll(FillPatches(AllFills(at, c, env, premium, p)), doc).value, Labels.LABELS))
         == Some(AllLabels(c.labels, env, p))
  {
    var own := OwnFills(at, c, env.home, premium);
    var release := Labels.LabelFill(env.releaseLabel, p.release);
    var operator := Labels.LabelFill(env.operatorLabel, p.operator);
    OwnFillsAreSeparate(at, c, env.home, premium, env.releaseLabel);
    FillPatchesPush(own, release);
    FillPatchesPush(own + [release], operator);
    SplitApply(FillPatches(own + [release]), FillPatch(operator), doc);
    SplitApply(FillPatches(own), FillPatch(release), doc);
    FillsFrame(own, doc, Labels.LABELS);
    Labels.EnsureLabelFills(c.labels, env.clusterLabel, env.get, env.releaseLabel, p.release);
    Labels.EnsureLabelFills(c.labels, env.clusterLabel, env.get, env.operatorLabel, p.operator);
    Labels.LabelFillSets(ApplyAll(FillPatches(own), doc).value, c.labels, env.releaseLabel, p.release);
    Labels.LabelFillSets(
      ApplyAll(FillPatches(own + [release]), doc).value, Labels.WithLabel(c.labels, env.releaseLabel, p.release),
      env.operatorLabel, p.operator);
  }

  /** The other places of a document after the fills. */
  lemma FillsSetPlaces(at: Places, doc: Json, c: PoolSpec, env: Environment, premium: bool, p: LabelPatches)
    requires AreSeparate(AllPlaces(at)) && env.releaseLabel != env.operatorLabel
    requires ApplyAll(FillPatches(AllFills(at, c, env, premium, p)), doc).Some?
    ensures var after := ApplyAll(FillPatches(AllFills(at, c, env, premium, p)), doc).value;
      && At(after, at.location) == (if c.location == "" then Some(Str(env.home)) else At(doc, at.location))
      && At(after, at.vmSize) == At(doc, at.vmSize)
      && At(after, at.storage) == (if c.storageAccountType == "" then Some(Str(DefaultStorage(premium)))
                                   else At(doc, at.storage))
      && At(after, at.disks) == (if c.dataDisks == [] then Some(DESIRED_DATA_DISKS_JSON) else At(doc, at.disks))
  {
    var all := AllFills(at, c, env, premium, p);
    FillsAreSeparate(at, c, env, premium, p);
    FillsFrame(all, doc, at.vmSize);
    FillsSet(all, doc, 0);
    FillsSet(all, doc, 1);
    FillsSet(all, doc, 2);
  }

  /** The decoded fields once the empty ones have been filled. */
  lemma FilledDecodes(
      labels: Option<Json>, location: Option<Json>, vmSize: Option<Json>, storage: Option<Json>, disks: Option<Json>,
      filled: Option<Json>, c: PoolSpec, env: Environment, premium: bool, p: LabelPatches)
    requires DecodeParts(labels, location, vmSize, storage, disks) == Some(c)
    requires DecodeStringMap(filled) == Some(AllLabels(c.labels, env, p))
    ensures DecodeParts(
              filled,
              if c.location == "" then Some(Str(env.home)) else location,
              vmSize,
              if c.storageAccountType == "" then Some(Str(DefaultStorage(premium))) else storage,
              if c.dataDisks == [] then Some(DESIRED_DATA_DISKS_JSON) else disks)
         == Some(Defaulted(c, env, premium, p))
  {
    DesiredDisksDecode();
  }

  lemma RestKeepsPlaces(at: Places, doc: Json, rest: seq<PatchOperation>)
    requires LeavesAlone(AllPlaces(at), rest) && ApplyAll(rest, doc).Some?
    ensures Decode(at, ApplyAll(rest, doc).value) == Decode(at, doc)
  {
    var places := AllPlaces(at);
    forall i | 0 <= i < |places|
      ensures At(ApplyAll(rest, doc).value, places[i]) == At(doc, places[i])
    {
      assert places[i] in places;
      ApplyFrame(rest, doc, places[i]);
    }
    assert places[0] == at.vmSize && places[1] == Labels.LABELS && places[2] == at.location;
    assert places[3] == at.storage && places[4] == at.disks;
  }

  lemma DefaultsLeaveAlone(places: seq<seq<string>>, diff: seq<PatchOperation>)
    requires LeavesAlone(places, diff)
    ensures LeavesAlone(places, Defaults(diff))
  {
    SortingLeavesAlone(places, diff);
    FilterMembers(Unprefixed(SSH_PATH), SortByPath(diff));
  }

  lemma MutationFillsAt(
      at: Places, azure: Catalogue, doc: Json, c: PoolSpec, env: Environment, diff: seq<PatchOperation>,
      patches: seq<PatchOperation>)
    requires AreSeparate(AllPlaces(at)) && env.releaseLabel != env.operatorLabel && IsPartOf(env.skus, azure)
    requires Decode(at, doc) == Some(c) && LeavesAlone(AllPlaces(at), diff)
    requires Mutation(at, c, env, Some(diff)) == Success(patches) && ApplyAll(patches, doc).Some?
    ensures Decode(at, ApplyAll(patches, doc).value)
         == Some(Defaulted(c, env, IsPremium(azure, c, env.home), VersionLabels(c, env).value))
  {
    AnswersAreStable(env.skus, azure, LocationOf(c, env.home), c.vmSize, CAPABILITY_PREMIUM_IO);
    var premium, p := PremiumStorage(env.skus, c, env.home).value, VersionLabels(c, env).value;
    var fills := FillPatches(AllFills(at, c, env, premium, p));
    SplitApply(fills, Defaults(diff), doc);
    var between := ApplyAll(fills, doc).value;
    FillsSetPlaces(at, doc, c, env, premium, p);
    FillsSetLabels(at, doc, c, env, premium, p);
    DefaultsLeaveAlone(AllPlaces(at), diff);
    RestKeepsPlaces(at, between, Defaults(diff));
    FilledDecodes(At(doc, Labels.LABELS), At(doc, at.location), At(doc, at.vmSize), At(doc, at.storage),
                  At(doc, at.disks), At(between, Labels.LABELS), c, env, premium, p);
  }

  /**
   * Decoding the patched object gives the original with its empty fields filled, by what Azure says of
   * the VM size, and its labels set, and nothing else changed, as long as the upstream defaults stay
   * away from these fields.
   */
  lemma MutationFillsEmptyFields(
      azure: Catalogue, doc: Json, c: PoolSpec, env: Environment, diff: seq<PatchOperation>,
      patches: seq<PatchOperation>)
    requires env.releaseLabel != env.operatorLabel && IsPartOf(env.skus, azure)
    requires Decode(POOL_PLACES, doc) == Some(c) && LeavesAlone(AllPlaces(POOL_PLACES), diff)
    requires Mutation(POOL_PLACES, c, env, Some(diff)) == Success(patches) && ApplyAll(patches, doc).Some?
    ensures Decode(POOL_PLACES, ApplyAll(patches, doc).value)
         == Some(Defaulted(c, env, IsPremium(azure, c, env.home), VersionLabels(c, env).value))
  {
    PoolPlacesAreSeparate();
    MutationFillsAt(POOL_PLACES, azure, doc, c, env, diff, patches);
  }

  /** The default data disks, as they are written into the patch. */
  lemma DefaultDisksInWords()
    ensures DESIRED_DATA_DISKS == [DataDisk("docker", 100, Some(21)), DataDisk("kubelet", 100, Some(22))]
    ensures DESIRED_DATA_DISKS_JSON == Arr([
              Obj(map["nameSuffix" := Str("docker"), "diskSizeGB" := Num(100), "lun" := Num(21)]),
              Obj(map["nameSuffix" := Str("kubelet"), "diskSizeGB" := Num(100), "lun" := Num(22)])])
  {
  }

  /** The webhook's own patches, one after the other. */
  lemma OwnPatchesExactly(at: Places, c: PoolSpec, home: string, premium: bool)
    requires at == POOL_PLACES
    ensures FillPatches(OwnFills(at, c, home, premium))
         == (if c.location == "" then [PatchOperation("add", "/spec/location", Str(home))] else [])
          + (if c.storageAccountType == ""
             then [PatchOperation("add", "/spec/template/osDisk/managedDisk/storageAccountType",
                                  Str(if premium then "Premium_LRS" else "Standard_LRS"))]
             else [])
          + (if c.dataDisks == [] then [PatchOperation("add", "/spec/template/dataDisks", DESIRED_DATA_DISKS_JSON)]
             else [])
  {
    PoolPaths(at);
    var fills := OwnFills(at, c, home, premium);
    ThreeFillPatches(fills[0], fills[1], fills[2]);
  }

  /** When the mutation fails, and with which error: the VM size comes before the labels, and those before the diff. */
  lemma MutationFailsExactly(at: Places, c: PoolSpec, env: Environment, diff: Option<seq<PatchOperation>>)
    ensures match Mutation(at, c, env, diff)
      case Success(_) =>
        && (c.storageAccountType == "" ==>
              Supports(env.skus, if c.location == "" then env.home else c.location, c.vmSize, "PremiumIO").Success?)
        && Labels.EnsureLabel(c.labels, env.clusterLabel, env.get, env.releaseLabel).Success?
        && Labels.EnsureLabel(c.labels, env.clusterLabel, env.get, env.operatorLabel).Success? && diff.Some?
      case Failure(SkuError(e)) =>
        && c.storageAccountType == ""
        && Supports(env.skus, if c.location == "" then env.home else c.location, c.vmSize, "PremiumIO") == Failure(e)
      case Failure(LabelError(e)) =>
        || Labels.EnsureLabel(c.labels, env.clusterLabel, env.get, env.releaseLabel) == Failure(e)
        || Labels.EnsureLabel(c.labels, env.clusterLabel, env.get, env.operatorLabel) == Failure(e)
      case Failure(DiffError) => diff.None?
  {
  }

  /**
   * The object after the mutation, field by field. A pool that named no storage type has the premium one
   * exactly when its VM size supports that in the location it now has, and the standard one otherwise.
   */
  lemma PatchedPoolExactly(
      azure: Catalogue, doc: Json, c: PoolSpec, env: Environment, diff: seq<PatchOperation>,
      patches: seq<PatchOperation>)
    requires env.releaseLabel != env.operatorLabel && IsPartOf(env.skus, azure)
    requires Decode(POOL_PLACES, doc) == Some(c) && LeavesAlone(AllPlaces(POOL_PLACES), diff)
    requires Mutation(POOL_PLACES, c, env, Some(diff)) == Success(patches) && ApplyAll(patches, doc).Some?
    ensures Decode(POOL_PLACES, ApplyAll(patches, doc).value).Some?
    ensures var filled := Decode(POOL_PLACES, ApplyAll(patches, doc).value).value;
      && filled.location == (if c.location == "" then env.home else c.location) && filled.vmSize == c.vmSize
      && (c.storageAccountType != "" ==> filled.storageAccountType == c.storageAccountType)
      && (c.storageAccountType == "" ==>
            && (filled.storageAccountType == "Premium_LRS" <==>
                  Supports(azure, filled.location, filled.vmSize, "PremiumIO") == Success(true))
            && (filled.storageAccountType == "Standard_LRS" <==>
                  Supports(azure, filled.location, filled.vmSize, "PremiumIO") == Success(false)))
      && (c.dataDisks != [] ==> filled.dataDisks == c.dataDisks)
      && (c.dataDisks == [] ==>
            filled.dataDisks == [DataDisk("docker", 100, Some(21)), DataDisk("kubelet", 100, Some(22))])
  {
    MutationFillsEmptyFields(azure, doc, c, env, diff, patches);
    AnswersAreStable(env.skus, azure, LocationOf(c, env.home), c.vmSize, CAPABILITY_PREMIUM_IO);
  }

  lemma EnsuredLabel(labels: StringMap, env: Environment, name: string, p: Option<PatchOperation>)
    requires Labels.EnsureLabel(labels, env.clusterLabel, env.get, name) == Success(p)
    ensures Labels.IsUnset(labels, name) ==>
              && env.clusterLabel in labels && env.get(labels[env.clusterLabel]).Found?
              && name in env.get(labels[env.clusterLabel]).labels && p.Some?
              && p.value.value == Str(env.get(labels[env.clusterLabel]).labels[name])
    ensures !Labels.IsUnset(labels, name) ==> p.None?
  {
    Labels.EnsureLabelExactly(labels, env.clusterLabel, env.get, name);
  }

  /** The two version labels after the mutation: those of the AzureCluster where they were missing. */
  lemma PatchedLabelsExactly(c: PoolSpec, env: Environment, premium: bool, p: LabelPatches, name: string)
    requires VersionLabels(c, env) == Success(p) && env.releaseLabel != env.operatorLabel
    ensures var labels := Defaulted(c, env, premium, p).labels;
      if (name == env.releaseLabel || name == env.operatorLabel) && Labels.IsUnset(c.labels, name) then
        && env.clusterLabel in c.labels && env.get(c.labels[env.clusterLabel]).Found?
        && name in env.get(c.labels[env.clusterLabel]).labels
        && name in labels && labels[name] == env.get(c.labels[env.clusterLabel]).labels[name]
      else (name in labels <==> name in c.labels) && (name in labels ==> labels[name] == c.labels[name])
  {
    EnsuredLabel(c.labels, env, env.releaseLabel, p.release);
    EnsuredLabel(c.labels, env, env.operatorLabel, p.operator);
  }

  /** Where the objects are that the fields of a node pool belong to. */
  lemma PoolParents()
    ensures Parent(POOL_PLACES.location) == ["spec"] && Parent(POOL_PLACES.disks) == ["spec", "template"]
    ensures Parent(POOL_PLACES.storage) == ["spec", "template", "osDisk", "managedDisk"]
  {
  }

  lemma FillsCanApply(at: Places, doc: Json, c: PoolSpec, env: Environment, premium: bool, p: LabelPatches)
    requires |at.location| > 0 && |at.storage| > 0 && |at.disks| > 0
    ensures (forall f | f in AllFills(at, c, env, premium, p) :: CanFill(doc, f)) <==>
              && (c.location == "" ==> IsObjectAt(doc, Parent(at.location)))
              && (c.storageAccountType == "" ==> IsObjectAt(doc, Parent(at.storage)))
              && (c.dataDisks == [] ==> IsObjectAt(doc, Parent(at.disks)))
              && (p.release.Some? || p.operator.Some? ==> IsObjectAt(doc, Labels.LABELS))
  {
    var fills := AllFills(at, c, env, premium, p);
    assert fills[0] in fills && fills[1] in fills && fills[2] in fills && fills[3] in fills && fills[4] in fills;
    assert Parent(Labels.LABELS + [env.releaseLabel]) == Labels.LABELS;
    assert Parent(Labels.LABELS + [env.operatorLabel]) == Labels.LABELS;
  }

  lemma OwnFillsCanApply(at: Places, doc: Json, c: PoolSpec, home: string, premium: bool)
    requires |at.location| > 0 && |at.storage| > 0 && |at.disks| > 0
    ensures (forall f | f in OwnFills(at, c, home, premium) :: CanFill(doc, f)) <==>
              && (c.location == "" ==> IsObjectAt(doc, Parent(at.location)))
              && (c.storageAccountType == "" ==> IsObjectAt(doc, Parent(at.storage)))
              && (c.dataDisks == [] ==> IsObjectAt(doc, Parent(at.disks)))
  {
    var fills := OwnFills(at, c, home, premium);
    assert fills[0] in fills && fills[1] in fills && fills[2] in fills;
  }

  /**
   * The patches for the webhook's own fields apply exactly when the objects exist to which the fields
   * have to be added: above all a pool without a managed disk object gets no storage type.
   */
  lemma OwnPatchesApplyExactly(doc: Json, c: PoolSpec, home: string, premium: bool)
    ensures ApplyAll(FillPatches(OwnFills(POOL_PLACES, c, home, premium)), doc).Some? <==>
              && (c.location == "" ==> IsObjectAt(doc, ["spec"]))
              && (c.storageAccountType == "" ==> IsObjectAt(doc, ["spec", "template", "osDisk", "managedDisk"]))
              && (c.dataDisks == [] ==> IsObjectAt(doc, ["spec", "template"]))
  {
    PoolPlacesAreSeparate();
    PoolParents();
    OwnFillsAreSeparate(POOL_PLACES, c, home, premium, "");
    FillsApplyExactly(OwnFills(POOL_PLACES, c, home, premium), doc);
    OwnFillsCanApply(POOL_PLACES, doc, c, home, premium);
  }

  lemma FillsAndDefaultsApply(
      at: Places, doc: Json, c: PoolSpec, env: Environment, premium: bool, p: LabelPatches, diff: seq<PatchOperation>)
    requires AreSeparate(AllPlaces(at)) && LeavesAlone(AllPlaces(at), diff) && env.releaseLabel != env.operatorLabel
    ensures ApplyAll(FillPatches(AllFills(at, c, env, premium, p)) + Defaults(diff), doc).Some? <==>
              ApplyAll(Defaults(diff), doc).Some? && forall f | f in AllFills(at, c, env, premium, p) :: CanFill(doc, f)
  {
    FillsAreSeparate(at, c, env, premium, p);
    DefaultsLeaveAlone(AllPlaces(at), diff);
    FieldsLeftAlone(at, c, env, premium, p, Defaults(diff));
    FillsAndRestApplyExactly(AllFills(at, c, env, premium, p), Defaults(diff), doc);
  }

  lemma VersionLabelsNeeded(c: PoolSpec, env: Environment, p: LabelPatches)
    requires VersionLabels(c, env) == Success(p)
    ensures p.release.Some? <==> Lookup(c.labels, env.releaseLabel) == ""
    ensures p.operator.Some? <==> Lookup(c.labels, env.operatorLabel) == ""
    ensures p.release.Some? ==> Labels.SetsLabel(p.release.value)
    ensures p.operator.Some? ==> Labels.SetsLabel(p.operator.value)
  {
  }

  /**
   * The output of the webhook applies exactly when the patches for the upstream defaults do and the
   * objects exist to which fields or labels have to be added.
   */
  lemma MutationAppliesExactly(
      doc: Json, c: PoolSpec, env: Environment, diff: seq<PatchOperation>, patches: seq<PatchOperation>)
    requires LeavesAlone(AllPlaces(POOL_PLACES), diff) && env.releaseLabel != env.operatorLabel
    requires Mutation(POOL_PLACES, c, env, Some(diff)) == Success(patches)
    ensures ApplyAll(patches, doc).Some? <==>
              && ApplyAll(Defaults(diff), doc).Some?
              && (c.location == "" ==> IsObjectAt(doc, ["spec"]))
              && (c.storageAccountType == "" ==> IsObjectAt(doc, ["spec", "template", "osDisk", "managedDisk"]))
              && (c.dataDisks == [] ==> IsObjectAt(doc, ["spec", "template"]))
              && (Lookup(c.labels, env.releaseLabel) == "" || Lookup(c.labels, env.operatorLabel) == "" ==>
                    IsObjectAt(doc, Labels.LABELS))
  {
    var premium, p := PremiumStorage(env.skus, c, env.home).value, VersionLabels(c, env).value;
    PoolPlacesAreSeparate();
    PoolParents();
    FillsAndDefaultsApply(POOL_PLACES, doc, c, env, premium, p, diff);
    VersionLabelsNeeded(c, env, p);
    FillsCanApply(POOL_PLACES, doc, c, env, premium, p);
  }

  /** A node pool with its version labels and a location, whose template names a VM size and no disks. */
  function PoolWithoutDisks(labels: StringMap, location: string, vmSize: string): Json {
    Obj(map["metadata" := Obj(map["labels" := ToJson(labels)]),
            "spec" := Obj(map["location" := Str(location), "template" := Obj(map["vmSize" := Str(vmSize)])])])
  }

  lemma SpecOfPool(spec: Json, template: Json, location: string, vmSize: string)
    requires template == Obj(map["vmSize" := Str(vmSize)])
    requires spec == Obj(map["location" := Str(location), "template" := template])
    ensures At(spec, ["location"]) == Some(Str(location)) && At(spec, ["template", "vmSize"]) == Some(Str(vmSize))
    ensures At(spec, ["template", "dataDisks"]) == None && At(spec, ["template", "osDisk", "managedDisk"]) == None
    ensures At(spec, ["template", "osDisk", "managedDisk", "storageAccountType"]) == None
  {
    AtBelow(spec, "location", [], ["location"]);
    AtBelow(spec, "template", ["vmSize"], ["template", "vmSize"]);
    AtBelow(template, "vmSize", [], ["vmSize"]);
    AtBelow(spec, "template", ["dataDisks"], ["template", "dataDisks"]);
    AtBelow(spec, "template", ["osDisk", "managedDisk"], ["template", "osDisk", "managedDisk"]);
    AtBelow(spec, "template", ["osDisk", "managedDisk", "storageAccountType"],
            ["template", "osDisk", "managedDisk", "storageAccountType"]);
  }

  lemma LabelsOfPool(labels: StringMap, location: string, vmSize: string, doc: Json)
    requires doc == PoolWithoutDisks(labels, location, vmSize)
    ensures DecodeStringMap(At(doc, Labels.LABELS)) == Some(labels)
  {
    AtBelow(doc, "metadata", ["labels"], Labels.LABELS);
    AtBelow(doc.members["metadata"], "labels", [], ["labels"]);
    DecodeEncoded(labels);
  }

  lemma PlacesOfPool(labels: StringMap, location: string, vmSize: string, doc: Json)
    requires doc == PoolWithoutDisks(labels, location, vmSize)
    ensures At(doc, POOL_PLACES.location) == Some(Str(location)) && At(doc, POOL_PLACES.vmSize) == Some(Str(vmSize))
    ensures At(doc, POOL_PLACES.disks) == None && At(doc, POOL_PLACES.storage) == None
  {
    var spec := doc.members["spec"];
    SpecOfPool(spec, spec.members["template"], location, vmSize);
    AtBelow(doc, "spec", ["location"], POOL_PLACES.location);
    AtBelow(doc, "spec", ["template", "vmSize"], POOL_PLACES.vmSize);
    AtBelow(doc, "spec", ["template", "dataDisks"], POOL_PLACES.disks);
    AtBelow(doc, "spec", ["template", "osDisk", "managedDisk", "storageAccountType"], POOL_PLACES.storage);
  }

  lemma NoManagedDisk(labels: StringMap, location: string, vmSize: string, doc: Json)
    requires doc == PoolWithoutDisks(labels, location, vmSize)
    ensures !IsObjectAt(doc, ["spec", "template", "osDisk", "managedDisk"])
  {
    var spec := doc.members["spec"];
    SpecOfPool(spec, spec.members["template"], location, vmSize);
    AtBelow(doc, "spec", ["template", "osDisk", "managedDisk"], ["spec", "template", "osDisk", "managedDisk"]);
  }

  lemma DecodesWithoutDisks(labels: StringMap, location: string, vmSize: string, doc: Json)
    requires doc == PoolWithoutDisks(labels, location, vmSize)
    ensures Decode(POOL_PLACES, doc) == Some(PoolSpec(labels, location, vmSize, "", []))
    ensures !IsObjectAt(doc, ["spec", "template", "osDisk", "managedDisk"])
  {
    LabelsOfPool(labels, location, vmSize, doc);
    PlacesOfPool(labels, location, vmSize, doc);
    NoManagedDisk(labels, location, vmSize, doc);
  }

  lemma MutatesWithoutDisks(c: PoolSpec, env: Environment)
    requires Lookup(c.labels, env.releaseLabel) != "" && Lookup(c.labels, env.operatorLabel) != ""
    requires Supports(env.skus, LocationOf(c, env.home), c.vmSize, CAPABILITY_PREMIUM_IO).Success?
    ensures Mutation(POOL_PLACES, c, env, Some([])).Success?
  {
  }

  lemma NothingLeftAlone(at: Places)
    ensures LeavesAlone(AllPlaces(at), [])
  {
  }

  /** The mutation of such a pool succeeds, and its output cannot be applied to the pool. */
  lemma PatchesMayNotApply(labels: StringMap, location: string, vmSize: string, env: Environment, doc: Json)
    requires doc == PoolWithoutDisks(labels, location, vmSize) && env.releaseLabel != env.operatorLabel
    requires Lookup(labels, env.releaseLabel) != "" && Lookup(labels, env.operatorLabel) != "" && location != ""
    requires Supports(env.skus, location, vmSize, CAPABILITY_PREMIUM_IO).Success?
    ensures Decode(POOL_PLACES, doc).Some?
    ensures var patches := Mutation(POOL_PLACES, Decode(POOL_PLACES, doc).value, env, Some([]));
            patches.Success? && ApplyAll(patches.value, doc).None?
  {
    DecodesWithoutDisks(labels, location, vmSize, doc);
    var c := Decode(POOL_PLACES, doc).value;
    MutatesWithoutDisks(c, env);
    NothingLeftAlone(POOL_PLACES);
    MutationAppliesExactly(doc, c, env, [], Mutation(POOL_PLACES, c, env, Some([])).value);
  }

  /** For instance with these labels and one VM size. */
  lemma PatchesMayNotApplyExample(labels: StringMap, skus: Catalogue, env: Environment, doc: Json)
    requires labels == map["release" := "1.0.0", "operator" := "5.0.0"]
    requires skus == map["westeurope" := map["Standard_D4s_v3" := Sku(None)]]
    requires env == Environment("westeurope", skus, "cluster", "release", "operator", env.get)
    requires doc == PoolWithoutDisks(labels, "westeurope", "Standard_D4s_v3")
    ensures Decode(POOL_PLACES, doc).Some?
    ensures var patches := Mutation(POOL_PLACES, Decode(POOL_PLACES, doc).value, env, Some([]));
            patches.Success? && ApplyAll(patches.value, doc).None?
  {
    PatchesMayNotApply(labels, "westeurope", "Standard_D4s_v3", env, doc);
  }

  /** No operation concerns a place that contains the SSH key and more. */
  predicate ReplacesNoTemplate(diff: seq<PatchOperation>) {
    forall p | p in diff && Tokens(p.path).Some? :: !(Tokens(p.path).value < SSH_PLACE)
  }

  lemma FillsAvoidTheKey(c: PoolSpec, env: Environment, premium: bool, p: LabelPatches)
    ensures forall f | f in AllFills(POOL_PLACES, c, env, premium, p) :: Apart(f.tokens, SSH_PLACE)
  {
    PoolPlacesAreSeparate();
    var places := AllPlaces(POOL_PLACES);
    assert places[1] in places && places[2] in places && places[3] in places && places[4] in places;
    ApartBelow(SSH_PLACE, Labels.LABELS, env.releaseLabel);
    ApartBelow(SSH_PLACE, Labels.LABELS, env.operatorLabel);
  }

  /** An operation at the key or inside it is one that the path prefix catches. */
  lemma KeyPathsHavePrefix(path: string, key: seq<string>)
    requires key == SSH_PLACE && Tokens(path).Some? && key <= Tokens(path).value
    ensures HasPrefix(path, SSH_PATH)
  {
    SshPath(key);
    PathsBelow(path, key);
  }

  lemma DefaultsAvoidTheKey(diff: seq<PatchOperation>)
    requires ReplacesNoTemplate(diff)
    ensures AllApart(Defaults(diff), SSH_PLACE)
  {
    SortPermutes(PathLess, diff);
    FilterMembers(Unprefixed(SSH_PATH), SortByPath(diff));
    forall p | p in Defaults(diff) && Tokens(p.path).Some?
      ensures Apart(Tokens(p.path).value, SSH_PLACE)
    {
      assert p in multiset(SortByPath(diff));
      var tokens := Tokens(p.path).value;
      if SSH_PLACE <= tokens {
        KeyPathsHavePrefix(p.path, SSH_PLACE);
      }
    }
  }

  /** The webhook leaves the SSH key of the object alone, whatever the upstream defaults do to it or inside it. */
  lemma SshKeyStays(doc: Json, c: PoolSpec, env: Environment, diff: seq<PatchOperation>, patches: seq<PatchOperation>)
    requires ReplacesNoTemplate(diff)
    requires Mutation(POOL_PLACES, c, env, Some(diff)) == Success(patches) && ApplyAll(patches, doc).Some?
    ensures At(ApplyAll(patches, doc).value, SSH_PLACE) == At(doc, SSH_PLACE)
  {
    var at, premium, p := POOL_PLACES, PremiumStorage(env.skus, c, env.home).value, VersionLabels(c, env).value;
    var fills := FillPatches(AllFills(at, c, env, premium, p));
    FillsAvoidTheKey(c, env, premium, p);
    SplitApply(fills, Defaults(diff), doc);
    FillsFrame(AllFills(at, c, env, premium, p), doc, SSH_PLACE);
    DefaultsAvoidTheKey(diff);
    ApplyFrame(Defaults(diff), ApplyAll(fills, doc).value, SSH_PLACE);
  }

  /** The pool as the creation checks see it; the other fields come from `pool`. */
  function WithSpec(pool: Pool, c: PoolSpec): Pool {
    pool.(location := c.location, vmSize := c.vmSize, storageAccountType := c.storageAccountType,
          dataDisks := c.dataDisks)
  }

  /**
   * Every field the webhook filled passes its creation check, also when the location was filled only
   * after the storage type had been looked up for it.
   */
  lemma DefaultsPassValidation(azure: Catalogue, pool: Pool, c: PoolSpec, env: Environment, p: LabelPatches)
    requires Supports(azure, LocationOf(c, env.home), c.vmSize, CAPABILITY_PREMIUM_IO).Success?
    ensures var filled := WithSpec(pool, Defaulted(c, env, IsPremium(azure, c, env.home), p));
      && (CheckLocation(filled, env.home).None? <==> c.location == "" || c.location == env.home)
      && (CheckDataDisks(filled).None? <==> c.dataDisks == [] || c.dataDisks == DESIRED_DATA_DISKS)
      && (c.storageAccountType == "" ==> CheckStorageAccountType(azure, filled).None?)
      && (c.storageAccountType != "" && c.location != "" ==>
            CheckStorageAccountType(azure, filled) == CheckStorageAccountType(azure, WithSpec(pool, c)))
  {
  }

  lemma LabelsAreSet(c: PoolSpec, env: Environment, p: LabelPatches)
    requires VersionLabels(c, env) == Success(p)
    ensures Lookup(AllLabels(c.labels, env, p), env.releaseLabel) != ""
    ensures Lookup(AllLabels(c.labels, env, p), env.operatorLabel) != ""
  {
    VersionLabelsNeeded(c, env, p);
    var between := Labels.WithLabel(c.labels, env.releaseLabel, p.release);
    Labels.LabelsStaySet(c.labels, env.releaseLabel, env.releaseLabel, p.release);
    Labels.LabelsStaySet(between, env.releaseLabel, env.operatorLabel, p.operator);
    if p.operator.None? {
      Labels.LabelsStaySet(c.labels, env.operatorLabel, env.releaseLabel, p.release);
    }
    Labels.LabelsStaySet(between, env.operatorLabel, env.operatorLabel, p.operator);
  }

  lemma LabelsStay(c: PoolSpec, env: Environment, premium: bool, p: LabelPatches)
    requires VersionLabels(c, env) == Success(p)
    ensures VersionLabels(Defaulted(c, env, premium, p), env) == Success(LabelPatches(None, None))
    ensures p == LabelPatches(None, None) <==> AllLabels(c.labels, env, p) == c.labels
  {
    LabelsAreSet(c, env, p);
    VersionLabelsNeeded(c, env, p);
  }

  lemma NothingToFill(at: Places, c: PoolSpec, env: Environment, premium: bool, p: LabelPatches)
    requires VersionLabels(c, env) == Success(p)
    ensures FillPatches(AllFills(at, c, env, premium, p)) == [] <==>
              c.location != "" && c.storageAccountType != "" && c.dataDisks != [] && p == LabelPatches(None, None)
  {
    var fills := OwnFills(at, c, env.home, premium);
    ThreeFillPatches(fills[0], fills[1], fills[2]);
    AllFillPatches(at, c, env, premium, p);
  }

  /** Mutating a second time, when there is nothing left to default upstream, emits nothing. */
  lemma MutationIsIdempotent(at: Places, c: PoolSpec, env: Environment, premium: bool, p: LabelPatches)
    requires env.home != "" && VersionLabels(c, env) == Success(p)
    ensures Mutation(at, Defaulted(c, env, premium, p), env, Some([])) == Success([])
    ensures PremiumStorage(env.skus, c, env.home) == Success(premium) ==>
              (Mutation(at, c, env, Some([])) == Success([]) <==> Defaulted(c, env, premium, p) == c)
  {
    var filled := Defaulted(c, env, premium, p);
    assert |DESIRED_DATA_DISKS| == 2 && |DefaultStorage(premium)| > 0;
    LabelsStay(c, env, premium, p);
    NothingToFill(at, c, env, premium, p);
    NothingToFill(at, filled, env, false, LabelPatches(None, None));
    assert Defaults([]) == [];
  }
}
