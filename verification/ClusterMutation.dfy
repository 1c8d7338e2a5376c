/** Defaulting of new Cluster objects, and the creation checks that the defaults have to pass. */
module ClusterMutation {
  import opened Wrappers
  import opened JsonPointer
  import opened JsonPatch
  import opened JsonDecoding
  import opened StringMaps
  import opened Patches
  import opened FieldPatches
  import opened Clusters
  import opened Labels

  /** The fields of a Cluster that its creation webhooks read. */
  datatype ClusterSpec =
    ClusterSpec(name: string, labels: StringMap, network: Option<ClusterNetwork>, endpoint: Endpoint)

  /** Where those fields are in the JSON of the object, as reference tokens; the labels are at `LABELS`. */
  datatype Places = Places(name: seq<string>, network: seq<string>, host: seq<string>, port: seq<string>)

  /** The places in a Cluster. */
  const CLUSTER_PLACES :=
    Places(["metadata", "name"], ["spec", "clusterNetwork"],
           ["spec", "controlPlaneEndpoint", "host"], ["spec", "controlPlaneEndpoint", "port"])

  function AllPlaces(at: Places): seq<seq<string>> {
    [at.name, LABELS, at.network, at.host, at.port]
  }

  lemma ClusterPlacesAreSeparate()
    ensures AreSeparate(AllPlaces(CLUSTER_PLACES))
  {
    var p := CLUSTER_PLACES;
    ApartAt(p.name, LABELS, 1);
    ApartAt(p.network, p.name, 0);
    ApartAt(p.host, p.name, 0);
    ApartAt(p.port, p.name, 0);
    ApartAt(p.network, LABELS, 0);
    ApartAt(p.host, LABELS, 0);
    ApartAt(p.port, LABELS, 0);
    ApartAt(p.network, p.host, 1);
    ApartAt(p.network, p.port, 1);
    ApartAt(p.host, p.port, 2);
  }

  lemma HostText()
    ensures "/spec/controlPlaneEndpoint/host" == "/" + "spec" + "/" + "controlPlaneEndpoint" + "/" + "host"
  {
  }

  lemma PortText()
    ensures "/spec/controlPlaneEndpoint/port" == "/" + "spec" + "/" + "controlPlaneEndpoint" + "/" + "port"
  {
  }

  /** The paths of the patches, as the webhook writes them. */
  lemma NetworkPath(network: seq<string>)
    requires network == CLUSTER_PLACES.network
    ensures Pointer(network) == "/spec/clusterNetwork"
  {
    PlainPointer2(network, "spec", "clusterNetwork", "/spec/clusterNetwork");
  }

  lemma HostPath(host: seq<string>)
    requires host == CLUSTER_PLACES.host
    ensures Pointer(host) == "/spec/controlPlaneEndpoint/host"
  {
    HostText();
    PlainPointer3(host, "spec", "controlPlaneEndpoint", "host", "/spec/controlPlaneEndpoint/host");
  }

  lemma PortPath(port: seq<string>)
    requires port == CLUSTER_PLACES.port
    ensures Pointer(port) == "/spec/controlPlaneEndpoint/port"
  {
    PortText();
    PlainPointer3(port, "spec", "controlPlaneEndpoint", "port", "/spec/controlPlaneEndpoint/port");
  }

  lemma ClusterPaths(at: Places)
    requires at == CLUSTER_PLACES
    ensures Pointer(at.network) == "/spec/clusterNetwork"
    ensures Pointer(at.host) == "/spec/controlPlaneEndpoint/host"
    ensures Pointer(at.port) == "/spec/controlPlaneEndpoint/port"
  {
    NetworkPath(at.network);
    HostPath(at.host);
    PortPath(at.port);
  }

  function DecodeStrings(elements: seq<Json>): Option<seq<string>> {
    if |elements| == 0 then Some([])
    else
      match (DecodeString(Some(elements[0])), DecodeStrings(elements[1..]))
      case (Some(s), Some(rest)) => Some([s] + rest)
      case _ => None
  }

  /** A slice of strings: nil when absent or null. */
  function DecodeSlice(json: Option<Json>): Option<Option<seq<string>>> {
    match json
    case None => Some(None)
    case Some(Null) => Some(None)
    case Some(Arr(elements)) =>
      (match DecodeStrings(elements)
       case None => None
       case Some(strings) => Some(Some(strings)))
    case Some(_) => None
  }

  function DecodeRanges(json: Option<Json>): Option<Option<NetworkRanges>> {
    match json
    case None => Some(None)
    case Some(Null) => Some(None)
    case Some(Obj(m)) =>
      (match DecodeSlice(Member(m, "cidrBlocks"))
       case None => None
       case Some(blocks) => Some(Some(NetworkRanges(blocks))))
    case Some(_) => None
  }

  function DecodeNetwork(json: Option<Json>): Option<Option<ClusterNetwork>> {
    match json
    case None => Some(None)
    case Some(Null) => Some(None)
    case Some(Obj(m)) =>
      (match (DecodeOptionalInt(Member(m, "apiServerPort")), DecodeRanges(Member(m, "services")),
              DecodeRanges(Member(m, "pods")), DecodeString(Member(m, "serviceDomain")))
       case (Some(port), Some(services), Some(pods), Some(domain)) =>
         Some(Some(ClusterNetwork(port, services, pods, domain)))
       case _ => None)
    case Some(_) => None
  }

  function DecodeParts(
      name: Option<Json>, labels: Option<Json>, network: Option<Json>, host: Option<Json>, port: Option<Json>)
      : Option<ClusterSpec> {
    match (DecodeString(name), DecodeStringMap(labels), DecodeNetwork(network), DecodeString(host), DecodeInt(port))
    case (Some(name), Some(labels), Some(network), Some(host), Some(port)) =>
      Some(ClusterSpec(name, labels, network, Endpoint(host, port)))
    case _ => None
  }

  /** Decoding the JSON of a Cluster, `None` when a member has the wrong type. */
  function Decode(at: Places, doc: Json): Option<ClusterSpec> {
    DecodeParts(At(doc, at.name), At(doc, LABELS), At(doc, at.network), At(doc, at.host), At(doc, at.port))
  }

  const DEFAULT_NETWORK := ClusterNetwork(
    Some(CONTROL_PLANE_ENDPOINT_PORT), Some(NetworkRanges(Some([CLUSTER_NETWORK_SERVICE_CIDR]))), None, SERVICE_DOMAIN)

  /** The default network as the patch carries it. */
  const DEFAULT_NETWORK_JSON := Obj(map[
    "apiServerPort" := Num(CONTROL_PLANE_ENDPOINT_PORT),
    "serviceDomain" := Str(SERVICE_DOMAIN),
    "services" := Obj(map["cidrBlocks" := Arr([Str(CLUSTER_NETWORK_SERVICE_CIDR)])])])

  lemma OneString(s: string)
    ensures DecodeStrings([Str(s)]) == Some([s])
  {
    assert [Str(s)][1..] == [] && DecodeStrings([]) == Some([]);
    assert [s] + [] == [s];
  }

  /** The default network, as it is written into the patch. */
  lemma DefaultNetworkInWords()
    ensures DEFAULT_NETWORK == ClusterNetwork(
              Some(443), Some(NetworkRanges(Some(["172.31.0.0/16"]))), None, "cluster.local")
    ensures DEFAULT_NETWORK_JSON == Obj(map[
              "apiServerPort" := Num(443), "serviceDomain" := Str("cluster.local"),
              "services" := Obj(map["cidrBlocks" := Arr([Str("172.31.0.0/16")])])])
  {
  }

  /** The members of a network by their names. */
  lemma NetworkDecodes(port: int, services: string, pods: string, domain: string)
    requires IsInt32(port)
    ensures DecodeNetwork(Some(Obj(map[
              "apiServerPort" := Num(port), "services" := Obj(map["cidrBlocks" := Arr([Str(services)])]),
              "pods" := Obj(map["cidrBlocks" := Arr([Str(pods)])]), "serviceDomain" := Str(domain)])))
         == Some(Some(ClusterNetwork(
              Some(port), Some(NetworkRanges(Some([services]))), Some(NetworkRanges(Some([pods]))), domain)))
  {
    OneString(services);
    OneString(pods);
  }

  /** A null network, range or slice is the same as an absent one. */
  lemma NullMeansUnset(m: map<string, Json>)
    ensures DecodeNetwork(Some(Null)) == DecodeNetwork(None) == Some(None)
    ensures DecodeRanges(Some(Null)) == DecodeRanges(None) == Some(None)
    ensures DecodeRanges(Some(Obj(m["cidrBlocks" := Null]))) == DecodeRanges(Some(Obj(m - {"cidrBlocks"})))
         == Some(Some(NetworkRanges(None)))
  {
  }

  /** What the webhook is configured with, and what the Kubernetes client replies to it. */
  datatype Environment =
    Environment(baseDomain: string, clusterLabel: string, operatorLabel: string, get: string -> Reply)

  datatype Error = LabelError(error: Labels.Error) | DiffError

  /** The label patch, or the failure to find the label in the AzureCluster. */
  function OperatorLabel(c: ClusterSpec, env: Environment): Result<Option<PatchOperation>, Labels.Error> {
    EnsureLabel(c.labels, env.clusterLabel, env.get, env.operatorLabel)
  }

  /** The fields that the webhook itself fills. */
  function OwnFills(at: Places, c: ClusterSpec, baseDomain: string): seq<Fill> {
    [Fill(at.network, DEFAULT_NETWORK_JSON, c.network.None?),
     Fill(at.host, Str(ControlPlaneEndpointHost(c.name, baseDomain)), c.endpoint.host == ""),
     Fill(at.port, Num(CONTROL_PLANE_ENDPOINT_PORT), c.endpoint.port == 0)]
  }

  /** Those fields and the label. */
  function AllFills(at: Places, c: ClusterSpec, env: Environment, operator: Option<PatchOperation>): seq<Fill> {
    OwnFills(at, c, env.baseDomain) + [LabelFill(env.operatorLabel, operator)]
  }

  /** The whole mutation: the fills, then the upstream defaults; `diff` is the JSON diff of those. */
  function Mutation(at: Places, c: ClusterSpec, env: Environment, diff: Option<seq<PatchOperation>>)
    : Result<seq<PatchOperation>, Error>
  {
    match OperatorLabel(c, env)
    case Failure(e) => Failure(LabelError(e))
    case Success(operator) =>
      if diff.None? then Failure(DiffError)
      else Success(FillPatches(AllFills(at, c, env, operator)) + SortByPath(diff.value))
  }

  lemma AllFillPatches(at: Places, c: ClusterSpec, env: Environment, operator: Option<PatchOperation>)
    requires OperatorLabel(c, env) == Success(operator)
    ensures FillPatches(AllFills(at, c, env, operator))
         == FillPatches(OwnFills(at, c, env.baseDomain)) + if operator.Some? then [operator.value] else []
  {
    FillPatchesPush(OwnFills(at, c, env.baseDomain), LabelFill(env.operatorLabel, operator));
    EnsureLabelFills(c.labels, env.clusterLabel, env.get, env.operatorLabel, operator);
  }

  method OwnPatches(at: Places, c: ClusterSpec, baseDomain: string) returns (patches: seq<PatchOperation>)
    ensures patches == FillPatches(OwnFills(at, c, baseDomain))
  {
    patches := [];
    if c.network.None? {
      patches := patches + [PatchAdd(Pointer(at.network), DEFAULT_NETWORK_JSON)];
    }
    if c.endpoint.host == "" {
      patches := patches + [PatchAdd(Pointer(at.host), Str(ControlPlaneEndpointHost(c.name, baseDomain)))];
    }
    if c.endpoint.port == 0 {
      patches := patches + [PatchAdd(Pointer(at.port), Num(CONTROL_PLANE_ENDPOINT_PORT))];
    }
    ghost var fills := OwnFills(at, c, baseDomain);
    ThreeFillPatches(fills[0], fills[1], fills[2]);
  }

  method OnCreateMutate(at: Places, c: ClusterSpec, env: Environment, diff: Option<seq<PatchOperation>>)
    returns (patches: Result<seq<PatchOperation>, Error>)
    ensures patches == Mutation(at, c, env, diff)
  {
    var result := OwnPatches(at, c, env.baseDomain);
    var operator := EnsureLabel(c.labels, env.clusterLabel, env.get, env.operatorLabel);
    if operator.Failure? {
      return Failure(LabelError(operator.error));
    }
    if operator.value.Some? {
      result := result + [operator.value.value];
    } else {
      assert result + [] == result;
    }
    AllFillPatches(at, c, env, operator.value);
    var defaults := GenerateFrom(diff);
    if defaults.None? {
      return Failure(DiffError);
    }
    return Success(result + defaults.value);
  }

  /** The Cluster with its empty fields filled and its label set. */
  function Defaulted(c: ClusterSpec, env: Environment, operator: Option<PatchOperation>): ClusterSpec {
    ClusterSpec(
      c.name,
      WithLabel(c.labels, env.operatorLabel, operator),
      if c.network.None? then Some(DEFAULT_NETWORK) else c.network,
      Endpoint(if c.endpoint.host == "" then ControlPlaneEndpointHost(c.name, env.baseDomain) else c.endpoint.host,
               if c.endpoint.port == 0 then CONTROL_PLANE_ENDPOINT_PORT else c.endpoint.port))
  }

  lemma DefaultNetworkDecodes()
    ensures DecodeNetwork(Some(DEFAULT_NETWORK_JSON)) == Some(Some(DEFAULT_NETWORK))
  {
    OneString(CLUSTER_NETWORK_SERVICE_CIDR);
  }

  lemma ApartPlaces(at: Places)
    requires AreSeparate(AllPlaces(at))
    ensures Apart(at.network, at.host) && Apart(at.network, at.port) && Apart(at.host, at.port)
    ensures Apart(at.host, at.network) && Apart(at.port, at.network) && Apart(at.port, at.host)
    ensures Apart(at.network, at.name) && Apart(at.host, at.name) && Apart(at.port, at.name) && Apart(at.name, LABELS)
    ensures Apart(at.network, LABELS) && Apart(at.host, LABELS) && Apart(at.port, LABELS)
  {
    var places := AllPlaces(at);
    assert places[0] == at.name && places[1] == LABELS && places[2] == at.network;
    assert places[3] == at.host && places[4] == at.port;
  }

  lemma FillsAreSeparate(at: Places, c: ClusterSpec, env: Environment, operator: Option<PatchOperation>)
    requires AreSeparate(AllPlaces(at))
    ensures AreSeparateFills(AllFills(at, c, env, operator))
    ensures forall f | f in AllFills(at, c, env, operator) :: Apart(f.tokens, at.name)
    ensures forall f | f in OwnFills(at, c, env.baseDomain) :: Apart(f.tokens, LABELS)
  {
    ApartPlaces(at);
    ApartBelow(at.name, LABELS, env.operatorLabel);
    ApartBelow(at.network, LABELS, env.operatorLabel);
    ApartBelow(at.host, LABELS, env.operatorLabel);
    ApartBelow(at.port, LABELS, env.operatorLabel);
    ThreeFillsAreSeparate(OwnFills(at, c, env.baseDomain));
    PushIsSeparate(OwnFills(at, c, env.baseDomain), LabelFill(env.operatorLabel, operator));
  }

  lemma FieldsLeftAlone(
      at: Places, c: ClusterSpec, env: Environment, operator: Option<PatchOperation>, patches: seq<PatchOperation>)
    requires LeavesAlone(AllPlaces(at), patches)
    ensures LeavesFieldsAlone(AllFills(at, c, env, operator), patches)
  {
    var places := AllPlaces(at);
    assert places[1] in places && places[2] in places && places[3] in places && places[4] in places;
    AllApartBelow(patches, LABELS, env.operatorLabel);
  }

  /** The places of a document after the fills. */
  lemma FillsSetPlaces(at: Places, doc: Json, c: ClusterSpec, env: Environment, operator: Option<PatchOperation>)
    requires AreSeparate(AllPlaces(at)) && OperatorLabel(c, env) == Success(operator)
    requires DecodeStringMap(At(doc, LABELS)) == Some(c.labels)
    requires ApplyAll(FillPatches(AllFills(at, c, env, operator)), doc).Some?
    ensures var after := ApplyAll(FillPatches(AllFills(at, c, env, operator)), doc).value;
      && At(after, at.name) == At(doc, at.name)
      && At(after, at.network) == (if c.network.None? then Some(DEFAULT_NETWORK_JSON) else At(doc, at.network))
      && At(after, at.host) == (if c.endpoint.host == ""
                                then Some(Str(ControlPlaneEndpointHost(c.name, env.baseDomain)))
                                else At(doc, at.host))
      && At(after, at.port) == (if c.endpoint.port == 0 then Some(Num(CONTROL_PLANE_ENDPOINT_PORT))
                                else At(doc, at.port))
      && DecodeStringMap(At(after, LABELS)) == Some(WithLabel(c.labels, env.operatorLabel, operator))
  {
    var own, last := OwnFills(at, c, env.baseDomain), LabelFill(env.operatorLabel, operator);
    var all := AllFills(at, c, env, operator);
    FillsAreSeparate(at, c, env, operator);
    FillsFrame(all, doc, at.name);
    FillsSet(all, doc, 0);
    FillsSet(all, doc, 1);
    FillsSet(all, doc, 2);
    FillPatchesPush(own, last);
    SplitApply(FillPatches(own), FillPatch(last), doc);
    FillsFrame(own, doc, LABELS);
    EnsureLabelFills(c.labels, env.clusterLabel, env.get, env.operatorLabel, operator);
    LabelFillSets(ApplyAll(FillPatches(own), doc).value, c.labels, env.operatorLabel, operator);
  }

  /** The decoded fields once the empty ones have been filled. */
  lemma FilledDecodes(
      name: Option<Json>, network: Option<Json>, host: Option<Json>, port: Option<Json>,
      labels: Option<Json>, filled: Option<Json>, c: ClusterSpec, env: Environment, operator: Option<PatchOperation>)
    requires DecodeParts(name, labels, network, host, port) == Some(c)
    requires DecodeStringMap(filled) == Some(WithLabel(c.labels, env.operatorLabel, operator))
    ensures DecodeParts(
              name, filled,
              if c.network.None? then Some(DEFAULT_NETWORK_JSON) else network,
              if c.endpoint.host == "" then Some(Str(ControlPlaneEndpointHost(c.name, env.baseDomain))) else host,
              if c.endpoint.port == 0 then Some(Num(CONTROL_PLANE_ENDPOINT_PORT)) else port)
         == Some(Defaulted(c, env, operator))
  {
    DefaultNetworkDecodes();
  }

  lemma RestKeepsPlaces(at: Places, doc: Json, rest: seq<PatchOperation>)
    requires LeavesAlone(AllPlaces(at), rest) && ApplyAll(rest, doc).Some?
    ensures Decode(at, ApplyAll(rest, doc).value) == Decode(at, doc)
  {
    var places := AllPlaces(at);
    forall i | 0 <= i < |places|
      ensures At(ApplyAll(rest, doc).value, places[i]) == At(doc, places[i])
    {
      assert places[i] in places;
      ApplyFrame(rest, doc, places[i]);
    }
    assert places[0] == at.name && places[1] == LABELS && places[2] == at.network;
    assert places[3] == at.host && places[4] == at.port;
  }

  lemma MutationFillsAt(
      at: Places, doc: Json, c: ClusterSpec, env: Environment, diff: seq<PatchOperation>, patches: seq<PatchOperation>)
    requires AreSeparate(AllPlaces(at)) && Decode(at, doc) == Some(c) && LeavesAlone(AllPlaces(at), diff)
    requires Mutation(at, c, env, Some(diff)) == Success(patches) && ApplyAll(patches, doc).Some?
    ensures Decode(at, ApplyAll(patches, doc).value) == Some(Defaulted(c, env, OperatorLabel(c, env).value))
  {
    var operator, rest := OperatorLabel(c, env).value, SortByPath(diff);
    var fills := FillPatches(AllFills(at, c, env, operator));
    SplitApply(fills, rest, doc);
    var between := ApplyAll(fills, doc).value;
    FillsSetPlaces(at, doc, c, env, operator);
    SortingLeavesAlone(AllPlaces(at), diff);
    RestKeepsPlaces(at, between, rest);
    FilledDecodes(At(doc, at.name), At(doc, at.network), At(doc, at.host), At(doc, at.port),
                  At(doc, LABELS), At(between, LABELS), c, env, operator);
  }

  /**
   * Decoding the patched object gives the original with its empty fields filled and its label set, and
   * nothing else changed, as long as the upstream defaults stay away from these fields.
   */
  lemma MutationFillsEmptyFields(
      doc: Json, c: ClusterSpec, env: Environment, diff: seq<PatchOperation>, patches: seq<PatchOperation>)
    requires Decode(CLUSTER_PLACES, doc) == Some(c) && LeavesAlone(AllPlaces(CLUSTER_PLACES), diff)
    requires Mutation(CLUSTER_PLACES, c, env, Some(diff)) == Success(patches) && ApplyAll(patches, doc).Some?
    ensures Decode(CLUSTER_PLACES, ApplyAll(patches, doc).value) == Some(Defaulted(c, env, OperatorLabel(c, env).value))
  {
    ClusterPlacesAreSeparate();
    MutationFillsAt(CLUSTER_PLACES, doc, c, env, diff, patches);
  }

  lemma OperatorNeeded(c: ClusterSpec, env: Environment, operator: Option<PatchOperation>)
    requires OperatorLabel(c, env) == Success(operator)
    ensures operator.Some? <==> Lookup(c.labels, env.operatorLabel) == ""
    ensures operator.Some? ==> SetsLabel(operator.value)
  {
  }

  /** The webhook's own patches, one after the other. */
  lemma OwnPatchesExactly(at: Places, c: ClusterSpec, baseDomain: string)
    requires at == CLUSTER_PLACES
    ensures FillPatches(OwnFills(at, c, baseDomain))
         == (if c.network.None? then [PatchOperation("add", "/spec/clusterNetwork", DEFAULT_NETWORK_JSON)] else [])
          + (if c.endpoint.host == ""
             then [PatchOperation("add", "/spec/controlPlaneEndpoint/host", Str("api." + c.name + "." + baseDomain))]
             else [])
          + (if c.endpoint.port == 0 then [PatchOperation("add", "/spec/controlPlaneEndpoint/port", Num(443))] else [])
  {
    ClusterPaths(at);
    var fills := OwnFills(at, c, baseDomain);
    ThreeFillPatches(fills[0], fills[1], fills[2]);
  }

  /** When the mutation fails, and with which error. */
  lemma MutationFailsExactly(at: Places, c: ClusterSpec, env: Environment, diff: Option<seq<PatchOperation>>)
    ensures match Mutation(at, c, env, diff)
      case Success(_) => EnsureLabel(c.labels, env.clusterLabel, env.get, env.operatorLabel).Success? && diff.Some?
      case Failure(LabelError(e)) => EnsureLabel(c.labels, env.clusterLabel, env.get, env.operatorLabel) == Failure(e)
      case Failure(DiffError) => diff.None?
  {
  }

  /** The fields of the object after the mutation. */
  lemma PatchedClusterExactly(
      doc: Json, c: ClusterSpec, env: Environment, diff: seq<PatchOperation>, patches: seq<PatchOperation>)
    requires Decode(CLUSTER_PLACES, doc) == Some(c) && LeavesAlone(AllPlaces(CLUSTER_PLACES), diff)
    requires Mutation(CLUSTER_PLACES, c, env, Some(diff)) == Success(patches) && ApplyAll(patches, doc).Some?
    ensures Decode(CLUSTER_PLACES, ApplyAll(patches, doc).value).Some?
    ensures var filled := Decode(CLUSTER_PLACES, ApplyAll(patches, doc).value).value;
      && filled.name == c.name && filled.network.Some?
      && (c.network.Some? ==> filled.network == c.network)
      && (c.network.None? ==>
            && filled.network.value.apiServerPort == Some(443) && filled.network.value.pods == None
            && filled.network.value.services == Some(NetworkRanges(Some(["172.31.0.0/16"])))
            && filled.network.value.serviceDomain == "cluster.local")
      && filled.endpoint.port == (if c.endpoint.port == 0 then 443 else c.endpoint.port)
      && filled.endpoint.host
      == (if c.endpoint.host == "" then "api." + c.name + "." + env.baseDomain else c.endpoint.host)
  {
    MutationFillsEmptyFields(doc, c, env, diff, patches);
  }

  /** Its operator label: that of the AzureCluster where it was missing; all other labels stay. */
  lemma PatchedLabelExactly(c: ClusterSpec, env: Environment, operator: Option<PatchOperation>, name: string)
    requires OperatorLabel(c, env) == Success(operator)
    ensures var labels := Defaulted(c, env, operator).labels;
      if name == env.operatorLabel && IsUnset(c.labels, name) then
        && env.clusterLabel in c.labels && env.get(c.labels[env.clusterLabel]).Found?
        && name in env.get(c.labels[env.clusterLabel]).labels
        && name in labels && labels[name] == env.get(c.labels[env.clusterLabel]).labels[name]
      else (name in labels <==> name in c.labels) && (name in labels ==> labels[name] == c.labels[name])
  {
    EnsureLabelExactly(c.labels, env.clusterLabel, env.get, env.operatorLabel);
  }

  /** Where the objects are that the fields of a Cluster belong to. */
  lemma ClusterParents()
    ensures Parent(CLUSTER_PLACES.network) == ["spec"]
    ensures Parent(CLUSTER_PLACES.host) == ["spec", "controlPlaneEndpoint"] == Parent(CLUSTER_PLACES.port)
  {
  }

  lemma FillsAndDefaultsApply(
      at: Places, doc: Json, c: ClusterSpec, env: Environment, operator: Option<PatchOperation>,
      diff: seq<PatchOperation>)
    requires AreSeparate(AllPlaces(at)) && LeavesAlone(AllPlaces(at), diff)
    ensures ApplyAll(FillPatches(AllFills(at, c, env, operator)) + SortByPath(diff), doc).Some? <==>
              ApplyAll(SortByPath(diff), doc).Some? && forall f | f in AllFills(at, c, env, operator) :: CanFill(doc, f)
  {
    FillsAreSeparate(at, c, env, operator);
    SortingLeavesAlone(AllPlaces(at), diff);
    FieldsLeftAlone(at, c, env, operator, SortByPath(diff));
    FillsAndRestApplyExactly(AllFills(at, c, env, operator), SortByPath(diff), doc);
  }

  lemma FillsCanApply(at: Places, doc: Json, c: ClusterSpec, env: Environment, operator: Option<PatchOperation>)
    requires |at.network| > 0 && |at.host| > 0 && |at.port| > 0
    ensures (forall f | f in AllFills(at, c, env, operator) :: CanFill(doc, f)) <==>
              && (c.network.None? ==> IsObjectAt(doc, Parent(at.network)))
              && (c.endpoint.host == "" ==> IsObjectAt(doc, Parent(at.host)))
              && (c.endpoint.port == 0 ==> IsObjectAt(doc, Parent(at.port)))
              && (operator.Some? ==> IsObjectAt(doc, LABELS))
  {
    var fills := AllFills(at, c, env, operator);
    assert fills[0] in fills && fills[1] in fills && fills[2] in fills && fills[3] in fills;
    assert Parent(LABELS + [env.operatorLabel]) == LABELS;
  }

  /**
   * The output of the webhook applies exactly when the patches for the upstream defaults do and the
   * objects exist to which fields or the label have to be added.
   */
  lemma MutationAppliesExactly(
      doc: Json, c: ClusterSpec, env: Environment, diff: seq<PatchOperation>, patches: seq<PatchOperation>)
    requires LeavesAlone(AllPlaces(CLUSTER_PLACES), diff)
    requires Mutation(CLUSTER_PLACES, c, env, Some(diff)) == Success(patches)
    ensures ApplyAll(patches, doc).Some? <==>
              && ApplyAll(SortByPath(diff), doc).Some?
              && (c.network.None? ==> IsObjectAt(doc, ["spec"]))
              && (c.endpoint.host == "" || c.endpoint.port == 0 ==> IsObjectAt(doc, ["spec", "controlPlaneEndpoint"]))
              && (Lookup(c.labels, env.operatorLabel) == "" ==> IsObjectAt(doc, LABELS))
  {
    var operator := OperatorLabel(c, env).value;
    ClusterPlacesAreSeparate();
    ClusterParents();
    OperatorNeeded(c, env, operator);
    FillsAndDefaultsApply(CLUSTER_PLACES, doc, c, env, operator, diff);
    FillsCanApply(CLUSTER_PLACES, doc, c, env, operator);
  }

  /** A Cluster with a name and labels, whose specification names no endpoint. */
  function ClusterWithoutEndpoint(name: string, labels: StringMap): Json {
    Obj(map["metadata" := Obj(map["name" := Str(name), "labels" := ToJson(labels)]), "spec" := Obj(map[])])
  }

  lemma MetadataOfCluster(name: string, labels: StringMap, doc: Json)
    requires doc == ClusterWithoutEndpoint(name, labels)
    ensures At(doc, CLUSTER_PLACES.name) == Some(Str(name)) && DecodeStringMap(At(doc, LABELS)) == Some(labels)
  {
    var metadata := doc.members["metadata"];
    AtBelow(doc, "metadata", ["name"], CLUSTER_PLACES.name);
    AtBelow(metadata, "name", [], ["name"]);
    AtBelow(doc, "metadata", ["labels"], LABELS);
    AtBelow(metadata, "labels", [], ["labels"]);
    DecodeEncoded(labels);
  }

  lemma NothingInSpec(doc: Json, key: string, rest: seq<string>, tokens: seq<string>)
    requires doc.Obj? && "spec" in doc.members && doc.members["spec"] == Obj(map[])
    requires tokens == ["spec", key] + rest
    ensures At(doc, tokens).None?
  {
    AtBelow(doc, "spec", [key] + rest, tokens);
    AtBelow(doc.members["spec"], key, rest, [key] + rest);
  }

  lemma DecodesWithoutEndpoint(name: string, labels: StringMap, doc: Json)
    requires doc == ClusterWithoutEndpoint(name, labels)
    ensures Decode(CLUSTER_PLACES, doc) == Some(ClusterSpec(name, labels, None, Endpoint("", 0)))
    ensures !IsObjectAt(doc, ["spec", "controlPlaneEndpoint"])
  {
    MetadataOfCluster(name, labels, doc);
    NothingInSpec(doc, "clusterNetwork", [], CLUSTER_PLACES.network);
    NothingInSpec(doc, "controlPlaneEndpoint", ["host"], CLUSTER_PLACES.host);
    NothingInSpec(doc, "controlPlaneEndpoint", ["port"], CLUSTER_PLACES.port);
    NothingInSpec(doc, "controlPlaneEndpoint", [], ["spec", "controlPlaneEndpoint"]);
  }

  /** The mutation of such a Cluster succeeds, and its output cannot be applied to the Cluster. */
  lemma PatchesMayNotApply(name: string, labels: StringMap, env: Environment, doc: Json)
    requires doc == ClusterWithoutEndpoint(name, labels) && Lookup(labels, env.operatorLabel) != ""
    ensures Decode(CLUSTER_PLACES, doc).Some?
    ensures var patches := Mutation(CLUSTER_PLACES, Decode(CLUSTER_PLACES, doc).value, env, Some([]));
            patches.Success? && ApplyAll(patches.value, doc).None?
  {
    DecodesWithoutEndpoint(name, labels, doc);
    var c := Decode(CLUSTER_PLACES, doc).value;
    assert OperatorLabel(c, env) == Success(None);
    MutationAppliesExactly(doc, c, env, [], Mutation(CLUSTER_PLACES, c, env, Some([])).value);
  }

  function ValidateControlPlaneEndpoint(c: ClusterSpec, baseDomain: string): Outcome<EndpointError> {
    if c.endpoint.host != ControlPlaneEndpointHost(c.name, baseDomain) then Denied(InvalidHost)
    else if c.endpoint.port != CONTROL_PLANE_ENDPOINT_PORT then Denied(InvalidPort)
    else Admitted
  }

  datatype EndpointError = InvalidHost | InvalidPort

  /** Every refusal of an endpoint names what is wrong with it. */
  lemma EndpointRefusalIsJustified(c: ClusterSpec, baseDomain: string)
    ensures match ValidateControlPlaneEndpoint(c, baseDomain)
      case Admitted => c.endpoint == Endpoint("api." + c.name + "." + baseDomain, 443)
      case Panicked => false
      case Denied(InvalidHost) => c.endpoint.host != "api." + c.name + "." + baseDomain
      case Denied(InvalidPort) => c.endpoint.port != 443
  {
  }

  /** The filled fields pass the creation checks, so an object passes exactly when the fields its user set do. */
  lemma DefaultsPassValidation(c: ClusterSpec, env: Environment, operator: Option<PatchOperation>)
    ensures ValidateClusterNetwork(Defaulted(c, env, operator).network).Admitted? <==>
              c.network.None? || ValidateClusterNetwork(c.network).Admitted?
    ensures ValidateControlPlaneEndpoint(Defaulted(c, env, operator), env.baseDomain).Admitted? <==>
              && (c.endpoint.host == "" || c.endpoint.host == "api." + c.name + "." + env.baseDomain)
              && (c.endpoint.port == 0 || c.endpoint.port == 443)
  {
  }

  lemma NothingToFill(at: Places, c: ClusterSpec, env: Environment, operator: Option<PatchOperation>)
    requires OperatorLabel(c, env) == Success(operator)
    ensures FillPatches(AllFills(at, c, env, operator)) == [] <==>
              c.network.Some? && c.endpoint.host != "" && c.endpoint.port != 0 && operator.None?
  {
    var fills := OwnFills(at, c, env.baseDomain);
    ThreeFillPatches(fills[0], fills[1], fills[2]);
    AllFillPatches(at, c, env, operator);
  }

  lemma LabelStays(c: ClusterSpec, env: Environment, operator: Option<PatchOperation>)
    requires OperatorLabel(c, env) == Success(operator)
    ensures OperatorLabel(Defaulted(c, env, operator), env) == Success(None)
    ensures operator.None? <==> WithLabel(c.labels, env.operatorLabel, operator) == c.labels
  {
    OperatorNeeded(c, env, operator);
    LabelsStaySet(c.labels, env.operatorLabel, env.operatorLabel, operator);
  }

  /** Mutating a second time, when there is nothing left to default upstream, emits nothing. */
  lemma MutationIsIdempotent(at: Places, c: ClusterSpec, env: Environment, operator: Option<PatchOperation>)
    requires OperatorLabel(c, env) == Success(operator)
    ensures Mutation(at, Defaulted(c, env, operator), env, Some([])) == Success([])
    ensures Mutation(at, c, env, Some([])) == Success([]) <==> Defaulted(c, env, operator) == c
  {
    LabelStays(c, env, operator);
    NothingToFill(at, c, env, operator);
    NothingToFill(at, Defaulted(c, env, operator), env, None);
  }
}
