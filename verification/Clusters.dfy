/** The fields of Cluster and AzureCluster objects that the webhooks look at, and the checks on the cluster network. */
module Clusters {
  import opened Wrappers
  import opened Semver
  import opened Conditions

  const CONTROL_PLANE_ENDPOINT_PORT := 443
  const CLUSTER_NETWORK_SERVICE_CIDR := "172.31.0.0/16"
  const SERVICE_DOMAIN := "cluster.local"

  function ControlPlaneEndpointHost(clusterName: string, baseDomain: string): string {
    "api." + clusterName + "." + baseDomain
  }

  /** `None` is the nil slice, which is not equal to an empty one. */
  datatype NetworkRanges = NetworkRanges(cidrBlocks: Option<seq<string>>)

  datatype ClusterNetwork = ClusterNetwork(
    apiServerPort: Option<int>,
    services: Option<NetworkRanges>,
    pods: Option<NetworkRanges>,
    serviceDomain: string)

  datatype Endpoint = Endpoint(host: string, port: int)

  /** `release` is the parsed release label, `None` when the label is missing or does not parse. */
  datatype Cluster = Cluster(
    name: string,
    organization: Option<string>,
    release: Option<Version>,
    network: Option<ClusterNetwork>,
    endpoint: Endpoint,
    conditions: seq<Condition>,
    deleting: bool)

  datatype AzureCluster = AzureCluster(
    organization: Option<string>,
    release: Option<Version>,
    endpoint: Endpoint,
    deleting: bool)

  /** The outcome of an admission request; `Panicked` is a nil pointer dereference, which admits nothing. */
  datatype Outcome<+E> = Admitted | Denied(error: E) | Panicked

  datatype NetworkError =
    | EmptyClusterNetwork | UnexpectedAPIServerPort | UnexpectedServiceDomain
    | EmptyServices | UnexpectedCIDRBlocks | NetworkWasChanged

  function ValidateClusterNetwork(network: Option<ClusterNetwork>): Outcome<NetworkError> {
    if network.None? then Denied(EmptyClusterNetwork)
    else
      var n := network.value;
      if n.apiServerPort.None? then Panicked
      else if n.apiServerPort.value != CONTROL_PLANE_ENDPOINT_PORT then Denied(UnexpectedAPIServerPort)
      else if n.serviceDomain != SERVICE_DOMAIN then Denied(UnexpectedServiceDomain)
      else if n.services.None? then Denied(EmptyServices)
      else if n.services.value.cidrBlocks != Some([CLUSTER_NETWORK_SERVICE_CIDR]) then Denied(UnexpectedCIDRBlocks)
      else Admitted
  }

  function ValidateClusterNetworkUnchanged(
      before: Option<ClusterNetwork>, after: Option<ClusterNetwork>): Outcome<NetworkError> {
    if before.None? && after.None? then Admitted
    else if (before.None? && after.Some?) || (before.Some? && after.None?) then Denied(NetworkWasChanged)
    else
      var b, a := before.value, after.value;
      if b.apiServerPort.None? || a.apiServerPort.None? then Panicked
      else if b.apiServerPort.value != a.apiServerPort.value || b.serviceDomain != a.serviceDomain
      then Denied(NetworkWasChanged)
      else if b.services.None? && a.services.None? then Admitted
      else if (b.services.None? && a.services.Some?) || (b.services.Some? && a.services.None?)
      then Denied(NetworkWasChanged)
      else if b.services.value != a.services.value then Denied(NetworkWasChanged)
      else Admitted
  }

  /** The network without the pod ranges. */
  function WithoutPods(network: Option<ClusterNetwork>): Option<ClusterNetwork> {
    match network
    case None => None
    case Some(n) => Some(n.(pods := None))
  }

  /** The creation check accepts exactly the one network that the webhook sets by default, with any pod ranges. */
  lemma ValidNetworkExactly(network: Option<ClusterNetwork>)
    ensures ValidateClusterNetwork(network).Admitted? <==>
              && network.Some?
              && network.value.apiServerPort == Some(443) && network.value.serviceDomain == "cluster.local"
              && network.value.services == Some(NetworkRanges(Some(["172.31.0.0/16"])))
    ensures ValidateClusterNetwork(network).Panicked? <==> network.Some? && network.value.apiServerPort.None?
  {
  }

  /** Every refusal of a new network names what is wrong with it. */
  lemma NetworkRefusalIsJustified(network: Option<ClusterNetwork>)
    ensures match ValidateClusterNetwork(network)
      case Admitted => true
      case Panicked => network.Some? && network.value.apiServerPort.None?
      case Denied(EmptyClusterNetwork) => network.None?
      case Denied(UnexpectedAPIServerPort) => network.Some? && network.value.apiServerPort != Some(443)
      case Denied(UnexpectedServiceDomain) => network.Some? && network.value.serviceDomain != "cluster.local"
      case Denied(EmptyServices) => network.Some? && network.value.services.None?
      case Denied(UnexpectedCIDRBlocks) =>
        && network.Some? && network.value.services.Some?
        && network.value.services.value.cidrBlocks != Some(["172.31.0.0/16"])
      case Denied(NetworkWasChanged) => false
  {
  }

  predicate HasPort(network: Option<ClusterNetwork>) {
    network.Some? ==> network.value.apiServerPort.Some?
  }

  /**
   * The check compares everything but the pod ranges. It admits a change of the network, contrary to
   * its name, exactly when only the pod ranges differ.
   */
  lemma NetworkUnchangedExactly(before: Option<ClusterNetwork>, after: Option<ClusterNetwork>)
    ensures ValidateClusterNetworkUnchanged(before, after).Admitted? <==>
              WithoutPods(before) == WithoutPods(after) && HasPort(before) && HasPort(after)
    ensures ValidateClusterNetworkUnchanged(before, after).Panicked? <==>
              before.Some? && after.Some? && !(HasPort(before) && HasPort(after))
    ensures before != after && ValidateClusterNetworkUnchanged(before, after).Admitted? ==>
              before.Some? && after.Some? && before.value.pods != after.value.pods
  {
  }

  /** A concrete change of the network that the check lets through. */
  lemma PodRangesMayChange()
    ensures exists before, after :: before != after && ValidateClusterNetworkUnchanged(before, after).Admitted?
  {
    var n := ClusterNetwork(Some(443), None, None, SERVICE_DOMAIN);
    var before, after := Some(n), Some(n.(pods := Some(NetworkRanges(Some(["10.0.0.0/8"])))));
    assert before.value.pods != after.value.pods;
    assert ValidateClusterNetworkUnchanged(before, after).Admitted?;
  }

  /** A network without an API server port: the creation check panics, and so does every update that keeps it. */
  lemma MissingPortPanics(network: ClusterNetwork)
    requires network == ClusterNetwork(None, Some(NetworkRanges(Some(["172.31.0.0/16"]))), None, "cluster.local")
    ensures ValidateClusterNetwork(Some(network)).Panicked?
    ensures ValidateClusterNetworkUnchanged(Some(network), Some(network)).Panicked?
  {
  }
}
