/** Updates of Cluster and AzureCluster objects: the two halves of a release upgrade. */
module Upgrades {
  import opened Wrappers
  import opened Semver
  import ReleaseVersion
  import opened ReleaseRuns
  import opened Conditions
  import opened Clusters

  type Catalogue = seq<ReleaseVersion.ReleaseCR>

  datatype Error =
    | LibraryError
    | OrganizationError
    | Network(network: NetworkError)
    | EndpointWasChanged
    | ConditionError(condition: Conditions.Error)
    | ScheduleError
    | ParsingFailed
    | InvalidOperation
    | OwnerLookupFailed
    | Release(release: ReleaseVersion.Error)

  /** The verdicts of code outside the model: the upstream update validation and the upgrade schedule. */
  datatype Externals = Externals(libraryAllows: bool, scheduleAllows: bool)

  predicate OrganizationUnchanged(before: Option<string>, after: Option<string>) {
    before.Some? && after.Some? && before == after
  }

  function ReleaseOutcome(listing: ReleaseVersion.Listing, before: Version, after: Version): Outcome<Error> {
    match ReleaseVersion.Decide(listing, before, after)
    case Accepted => Admitted
    case Rejected(error) => Denied(Release(error))
  }

  function ValidateClusterRelease(listing: ReleaseVersion.Listing, before: Cluster, after: Cluster): Outcome<Error> {
    if before.release.None? || after.release.None? then Denied(ParsingFailed)
    else if !Same(after.release.value, before.release.value) && IsTrue(before.conditions, CREATING)
    then Denied(InvalidOperation)
    else if !Same(after.release.value, before.release.value) && IsTrue(before.conditions, UPGRADING)
    then Denied(InvalidOperation)
    else ReleaseOutcome(listing, before.release.value, after.release.value)
  }

  function UpdateCluster(
      listing: ReleaseVersion.Listing, before: Cluster, after: Cluster, others: Externals): Outcome<Error> {
    if after.deleting then Admitted
    else if !others.libraryAllows then Denied(LibraryError)
    else if !OrganizationUnchanged(before.organization, after.organization) then Denied(OrganizationError)
    else
      var network := ValidateClusterNetworkUnchanged(before.network, after.network);
      if network.Panicked? then Panicked
      else if network.Denied? then Denied(Network(network.error))
      else if before.endpoint != after.endpoint then Denied(EndpointWasChanged)
      else
        var objection := ClusterObjection(before.conditions, after.conditions);
        if objection.Some? then Denied(ConditionError(objection.value))
        else if !others.scheduleAllows then Denied(ScheduleError)
        else ValidateClusterRelease(listing, before, after)
  }

  /** What looking up the owner Cluster gives; without an owner reference the caller gets a nil pointer. */
  datatype OwnerLookup = LookupFailed | NoOwner | Owner(release: Option<Version>)

  function ValidateAzureClusterRelease(
      listing: ReleaseVersion.Listing, before: AzureCluster, after: AzureCluster, owner: OwnerLookup): Outcome<Error> {
    if before.release.None? || after.release.None? then Denied(ParsingFailed)
    else if Same(after.release.value, before.release.value) then
      ReleaseOutcome(listing, before.release.value, after.release.value)
    else match owner
      case LookupFailed => Denied(OwnerLookupFailed)
      case NoOwner => Panicked
      case Owner(release) =>
        if release.None? then Denied(ParsingFailed)
        else if !Same(after.release.value, release.value) then Denied(InvalidOperation)
        else ReleaseOutcome(listing, before.release.value, after.release.value)
  }

  function UpdateAzureCluster(
      listing: ReleaseVersion.Listing, before: AzureCluster, after: AzureCluster, owner: OwnerLookup, others: Externals)
      : Outcome<Error> {
    if after.deleting then Admitted
    else if !others.libraryAllows then Denied(LibraryError)
    else if !OrganizationUnchanged(before.organization, after.organization) then Denied(OrganizationError)
    else if before.endpoint != after.endpoint then Denied(EndpointWasChanged)
    else ValidateAzureClusterRelease(listing, before, after, owner)
  }

  /** Which Cluster updates are admitted, said in one formula. */
  lemma ClusterUpdateExactly(items: Catalogue, before: Cluster, after: Cluster, others: Externals)
    ensures UpdateCluster(ReleaseVersion.Listed(items), before, after, others).Admitted? <==>
              || after.deleting
              || (&& others.libraryAllows && others.scheduleAllows
                  && before.organization.Some? && before.organization == after.organization
                  && WithoutPods(before.network) == WithoutPods(after.network)
                  && HasPort(before.network) && HasPort(after.network)
                  && before.endpoint == after.endpoint
                  && ClusterObjection(before.conditions, after.conditions).None?
                  && before.release.Some? && after.release.Some?
                  && Step(items, before.release.value, after.release.value)
                  && (|| Same(after.release.value, before.release.value)
                      || (!IsTrue(before.conditions, CREATING) && !IsTrue(before.conditions, UPGRADING))))
  {
    NetworkUnchangedExactly(before.network, after.network);
  }

  /** Which AzureCluster updates are admitted, said in one formula. */
  lemma AzureClusterUpdateExactly(
      items: Catalogue, before: AzureCluster, after: AzureCluster, owner: OwnerLookup, others: Externals)
    ensures UpdateAzureCluster(ReleaseVersion.Listed(items), before, after, owner, others).Admitted? <==>
              || after.deleting
              || (&& others.libraryAllows
                  && before.organization.Some? && before.organization == after.organization
                  && before.endpoint == after.endpoint
                  && before.release.Some? && after.release.Some?
                  && Step(items, before.release.value, after.release.value)
                  && (|| Same(after.release.value, before.release.value)
                      || (owner.Owner? && owner.release.Some? && Same(after.release.value, owner.release.value))))
  {
  }

  /** Every refusal of a Cluster update names what is wrong with it; it panics only over a missing port. */
  lemma ClusterRefusalIsJustified(listing: ReleaseVersion.Listing, before: Cluster, after: Cluster, others: Externals)
    ensures match UpdateCluster(listing, before, after, others)
      case Admitted => true
      case Panicked => before.network.Some? && after.network.Some?
                       && (before.network.value.apiServerPort.None? || after.network.value.apiServerPort.None?)
      case Denied(LibraryError) => !others.libraryAllows
      case Denied(OrganizationError) => before.organization.None? || before.organization != after.organization
      case Denied(Network(_)) => before.network != after.network
      case Denied(EndpointWasChanged) => before.endpoint != after.endpoint
      case Denied(ConditionError(e)) => ClusterObjection(before.conditions, after.conditions) == Some(e)
      case Denied(ScheduleError) => !others.scheduleAllows
      case Denied(ParsingFailed) => before.release.None? || after.release.None?
      case Denied(InvalidOperation) =>
        && before.release.Some? && after.release.Some? && !Same(after.release.value, before.release.value)
        && (IsTrue(before.conditions, "Creating") || IsTrue(before.conditions, "Upgrading"))
      case Denied(OwnerLookupFailed) => false
      case Denied(Release(e)) =>
        && before.release.Some? && after.release.Some?
        && ReleaseVersion.Decide(listing, before.release.value, after.release.value) == ReleaseVersion.Rejected(e)
  {
    NetworkUnchangedExactly(before.network, after.network);
  }

  /** The same for an AzureCluster; it panics exactly where the owner has to be looked up and there is none. */
  lemma AzureClusterRefusalIsJustified(
      listing: ReleaseVersion.Listing, before: AzureCluster, after: AzureCluster, owner: OwnerLookup, others: Externals)
    ensures match UpdateAzureCluster(listing, before, after, owner, others)
      case Admitted => true
      case Panicked => owner == NoOwner
      case Denied(LibraryError) => !others.libraryAllows
      case Denied(OrganizationError) => before.organization.None? || before.organization != after.organization
      case Denied(EndpointWasChanged) => before.endpoint != after.endpoint
      case Denied(ParsingFailed) =>
        before.release.None? || after.release.None? || owner == Owner(None)
      case Denied(OwnerLookupFailed) => owner == LookupFailed
      case Denied(InvalidOperation) =>
        && before.release.Some? && after.release.Some? && owner.Owner? && owner.release.Some?
        && !Same(after.release.value, before.release.value) && !Same(after.release.value, owner.release.value)
      case Denied(Release(e)) =>
        && before.release.Some? && after.release.Some?
        && ReleaseVersion.Decide(listing, before.release.value, after.release.value) == ReleaseVersion.Rejected(e)
      case Denied(_) => false
  {
  }

  /** The two objects as the API server stores them. */
  datatype System = System(cluster: Cluster, azure: AzureCluster)

  /** One write to one of the objects; `lookupFails` is a failing request for the owner. */
  datatype Write =
    | ClusterWrite(others: Externals)
    | AzureClusterWrite(others: Externals, lookupFails: bool)

  /** An admitted write that does not delete. */
  predicate Next(items: Catalogue, s: System, w: Write, t: System) {
    var listing := ReleaseVersion.Listed(items);
    match w
    case ClusterWrite(others) =>
      && !t.cluster.deleting && t.azure == s.azure
      && UpdateCluster(listing, s.cluster, t.cluster, others).Admitted?
    case AzureClusterWrite(others, lookupFails) =>
      && !t.azure.deleting && t.cluster == s.cluster
      && var owner := if lookupFails then LookupFailed else Owner(s.cluster.release);
         UpdateAzureCluster(listing, s.azure, t.azure, owner, others).Admitted?
  }

  predicate NextAt(items: Catalogue, states: seq<System>, writes: seq<Write>, i: nat)
    requires i < |writes| && i + 1 < |states|
  {
    Next(items, states[i], writes[i], states[i + 1])
  }

  /** An interleaving of admitted writes. */
  ghost predicate IsTrace(items: Catalogue, states: seq<System>, writes: seq<Write>) {
    && |states| == |writes| + 1
    && forall i :: 0 <= i < |writes| ==> NextAt(items, states, writes, i)
  }

  ghost predicate StartsEqual(s: System) {
    s.cluster.release.Some? && s.azure.release.Some? && Same(s.azure.release.value, s.cluster.release.value)
  }

  predicate HasReleases(s: System) {
    s.cluster.release.Some? && s.azure.release.Some?
  }

  lemma NextKeepsReleases(items: Catalogue, s: System, w: Write, t: System)
    requires Next(items, s, w, t) && HasReleases(s)
    ensures HasReleases(t)
    ensures Step(items, s.cluster.release.value, t.cluster.release.value)
    ensures Step(items, s.azure.release.value, t.azure.release.value)
    ensures || Same(t.azure.release.value, s.azure.release.value)
            || (Same(t.azure.release.value, s.cluster.release.value) && t.cluster == s.cluster)
  {
    Trichotomy(s.cluster.release.value, s.cluster.release.value);
    Trichotomy(s.azure.release.value, s.azure.release.value);
    match w
    case ClusterWrite(others) => ClusterUpdateExactly(items, s.cluster, t.cluster, others);
    case AzureClusterWrite(others, lookupFails) =>
      var owner := if lookupFails then LookupFailed else Owner(s.cluster.release);
      AzureClusterUpdateExactly(items, s.azure, t.azure, owner, others);
  }

  /** An AzureCluster write whose owner cannot be looked up never changes the release. */
  lemma FailedLookupKeepsRelease(items: Catalogue, s: System, others: Externals, t: System)
    requires Next(items, s, AzureClusterWrite(others, true), t) && HasReleases(s)
    ensures t.azure.release.Some? && Same(t.azure.release.value, s.azure.release.value)
  {
    AzureClusterUpdateExactly(items, s.azure, t.azure, LookupFailed, others);
  }

  /** The parts of the network that the checks compare, field by field. */
  predicate SameNetwork(a: Option<ClusterNetwork>, b: Option<ClusterNetwork>) {
    && (a.Some? <==> b.Some?)
    && (a.Some? ==>
          && a.value.apiServerPort == b.value.apiServerPort && a.value.services == b.value.services
          && a.value.serviceDomain == b.value.serviceDomain)
  }

  lemma NextKeepsFields(items: Catalogue, s: System, w: Write, t: System)
    requires Next(items, s, w, t)
    ensures t.cluster.organization == s.cluster.organization && t.azure.organization == s.azure.organization
    ensures t.cluster.endpoint == s.cluster.endpoint && t.azure.endpoint == s.azure.endpoint
    ensures SameNetwork(s.cluster.network, t.cluster.network)
    ensures w.ClusterWrite? ==> t.cluster.organization.Some?
    ensures w.AzureClusterWrite? ==> t.azure.organization.Some?
  {
    match w
    case ClusterWrite(others) => ClusterUpdateExactly(items, s.cluster, t.cluster, others);
    case AzureClusterWrite(others, lookupFails) =>
      var owner := if lookupFails then LookupFailed else Owner(s.cluster.release);
      AzureClusterUpdateExactly(items, s.azure, t.azure, owner, others);
  }

  /**
   * In every interleaving both objects keep their organization and their endpoint, and the Cluster keeps
   * its network but for the pod ranges.
   */
  lemma {:induction false} FixedFieldsStay(items: Catalogue, states: seq<System>, writes: seq<Write>, i: nat)
    requires IsTrace(items, states, writes) && i < |states|
    ensures states[i].cluster.organization == states[0].cluster.organization
    ensures states[i].azure.organization == states[0].azure.organization
    ensures states[i].cluster.endpoint == states[0].cluster.endpoint
    ensures states[i].azure.endpoint == states[0].azure.endpoint
    ensures SameNetwork(states[0].cluster.network, states[i].cluster.network)
  {
    if i > 0 {
      FixedFieldsStay(items, states, writes, i - 1);
      assert NextAt(items, states, writes, i - 1);
      NextKeepsFields(items, states[i - 1], writes[i - 1], states[i]);
    }
  }

  lemma SameTransitive(a: Version, b: Version, c: Version)
    requires Same(a, b) && Same(b, c)
    ensures Same(a, c)
  {
    Trichotomy(a, b);
    Trichotomy(b, c);
    Trichotomy(a, c);
    Chain(a, b, c);
    Chain(c, b, a);
  }

  lemma {:induction false} ReleasesStay(items: Catalogue, states: seq<System>, writes: seq<Write>, i: nat)
    requires IsTrace(items, states, writes) && HasReleases(states[0]) && i < |states|
    ensures HasReleases(states[i])
  {
    if i > 0 {
      ReleasesStay(items, states, writes, i - 1);
      assert NextAt(items, states, writes, i - 1);
      NextKeepsReleases(items, states[i - 1], writes[i - 1], states[i]);
    }
  }

  lemma AzureStep(items: Catalogue, states: seq<System>, writes: seq<Write>, i: nat)
    requires IsTrace(items, states, writes) && 0 < i < |states| && HasReleases(states[i - 1])
    ensures HasReleases(states[i])
    ensures Step(items, states[i - 1].azure.release.value, states[i].azure.release.value)
    ensures || Same(states[i].azure.release.value, states[i - 1].azure.release.value)
            || Same(states[i].azure.release.value, states[i - 1].cluster.release.value)
  {
    assert NextAt(items, states, writes, i - 1);
    NextKeepsReleases(items, states[i - 1], writes[i - 1], states[i]);
  }

  /** In every interleaving the AzureCluster has a release that the Cluster has, or has had. */
  lemma {:induction false} AzureFollowsCluster(
      items: Catalogue, states: seq<System>, writes: seq<Write>, i: nat)
    returns (j: nat)
    requires IsTrace(items, states, writes) && StartsEqual(states[0]) && i < |states|
    ensures j <= i && states[j].cluster.release.Some? && states[i].azure.release.Some?
    ensures Same(states[i].azure.release.value, states[j].cluster.release.value)
  {
    if i == 0 {
      j := 0;
    } else {
      j := AzureFollowsCluster(items, states, writes, i - 1);
      ReleasesStay(items, states, writes, i - 1);
      var s, t := states[i - 1], states[i];
      AzureStep(items, states, writes, i);
      if Same(t.azure.release.value, s.azure.release.value) {
        SameTransitive(t.azure.release.value, s.azure.release.value, states[j].cluster.release.value);
      } else {
        j := i - 1;
      }
    }
  }

  /** No release the Cluster has during the trace is marked as ignored. */
  ghost predicate ClusterAvoidsIgnored(items: Catalogue, states: seq<System>) {
    forall i :: 0 <= i < |states| && states[i].cluster.release.Some? ==>
                  !IsIgnoredVersion(items, states[i].cluster.release.value)
  }

  lemma {:induction false} ClusterNeverGoesDown(
      items: Catalogue, states: seq<System>, writes: seq<Write>, j: nat, i: nat)
    requires IsTrace(items, states, writes) && HasReleases(states[0]) && j <= i < |states|
    requires ClusterAvoidsIgnored(items, states)
    ensures HasReleases(states[j]) && HasReleases(states[i])
    ensures Leq(states[j].cluster.release.value, states[i].cluster.release.value)
    decreases i - j
  {
    ReleasesStay(items, states, writes, j);
    if j == i {
      Trichotomy(states[i].cluster.release.value, states[i].cluster.release.value);
    } else {
      ClusterNeverGoesDown(items, states, writes, j, i - 1);
      assert NextAt(items, states, writes, i - 1);
      NextKeepsReleases(items, states[i - 1], writes[i - 1], states[i]);
      StepRises(items, states[i - 1].cluster.release.value, states[i].cluster.release.value);
      Chain(states[j].cluster.release.value, states[i - 1].cluster.release.value, states[i].cluster.release.value);
    }
  }

  /** Without ignored releases the AzureCluster is never ahead of the Cluster. */
  lemma AzureNeverAhead(items: Catalogue, states: seq<System>, writes: seq<Write>, i: nat)
    requires IsTrace(items, states, writes) && StartsEqual(states[0]) && i < |states|
    requires ClusterAvoidsIgnored(items, states)
    ensures HasReleases(states[i])
    ensures Leq(states[i].azure.release.value, states[i].cluster.release.value)
  {
    var j := AzureFollowsCluster(items, states, writes, i);
    ClusterNeverGoesDown(items, states, writes, j, i);
    Trichotomy(states[i].azure.release.value, states[j].cluster.release.value);
    Chain(states[i].azure.release.value, states[j].cluster.release.value, states[i].cluster.release.value);
  }

  lemma NextKeepsConditions(items: Catalogue, s: System, w: Write, t: System)
    requires Next(items, s, w, t)
    ensures IsFalse(s.cluster.conditions, CREATING) ==> IsFalse(t.cluster.conditions, CREATING)
    ensures Get(s.cluster.conditions, CREATING).Some? ==> Get(t.cluster.conditions, CREATING).Some?
    ensures Get(s.cluster.conditions, UPGRADING).Some? ==> Get(t.cluster.conditions, UPGRADING).Some?
    ensures IsTrue(s.cluster.conditions, CREATING) ==>
              IsTrue(t.cluster.conditions, CREATING) || IsFalse(t.cluster.conditions, CREATING)
  {
    if w.ClusterWrite? {
      ConditionsExactly(s.cluster.conditions, t.cluster.conditions);
      ClusterUpdateExactly(items, s.cluster, t.cluster, w.others);
    }
  }

  lemma ConditionStep(items: Catalogue, states: seq<System>, writes: seq<Write>, i: nat, kind: string)
    requires IsTrace(items, states, writes) && 0 < i < |states| && (kind == CREATING || kind == UPGRADING)
    ensures Get(states[i - 1].cluster.conditions, kind).Some? ==> Get(states[i].cluster.conditions, kind).Some?
    ensures IsFalse(states[i - 1].cluster.conditions, CREATING) ==> IsFalse(states[i].cluster.conditions, CREATING)
    ensures IsTrue(states[i - 1].cluster.conditions, CREATING) ==>
              IsTrue(states[i].cluster.conditions, CREATING) || IsFalse(states[i].cluster.conditions, CREATING)
  {
    assert NextAt(items, states, writes, i - 1);
    NextKeepsConditions(items, states[i - 1], writes[i - 1], states[i]);
  }

  /** A set condition is never removed, and a completed creation never starts again. */
  lemma {:induction false} ConditionsPersist(
      items: Catalogue, states: seq<System>, writes: seq<Write>, i: nat, j: nat, kind: string)
    requires IsTrace(items, states, writes) && i <= j < |states| && (kind == CREATING || kind == UPGRADING)
    ensures Get(states[i].cluster.conditions, kind).Some? ==> Get(states[j].cluster.conditions, kind).Some?
    ensures IsFalse(states[i].cluster.conditions, CREATING) ==> IsFalse(states[j].cluster.conditions, CREATING)
    decreases j - i
  {
    if i < j {
      ConditionsPersist(items, states, writes, i, j - 1, kind);
      ConditionStep(items, states, writes, j, kind);
    }
  }

  lemma BlockedReleaseStays(items: Catalogue, s: System, w: Write, t: System)
    requires Next(items, s, w, t) && s.cluster.release.Some?
    requires IsTrue(s.cluster.conditions, CREATING) || IsTrue(s.cluster.conditions, UPGRADING)
    ensures t.cluster.release.Some? && Same(t.cluster.release.value, s.cluster.release.value)
  {
    Trichotomy(s.cluster.release.value, s.cluster.release.value);
    if w.ClusterWrite? {
      ClusterUpdateExactly(items, s.cluster, t.cluster, w.others);
    }
  }

  /** Between two moments at which the Cluster is being created it was being created all along. */
  lemma {:induction false} CreationIsAnInterval(
      items: Catalogue, states: seq<System>, writes: seq<Write>, i: nat, k: nat, j: nat)
    requires IsTrace(items, states, writes) && i <= k <= j < |states|
    requires IsTrue(states[i].cluster.conditions, CREATING) && IsTrue(states[j].cluster.conditions, CREATING)
    ensures IsTrue(states[k].cluster.conditions, CREATING)
    decreases k
  {
    if i < k {
      CreationIsAnInterval(items, states, writes, i, k - 1, j);
      ConditionStep(items, states, writes, k, CREATING);
      ConditionsPersist(items, states, writes, k, j, CREATING);
    }
  }

  /**
   * A Cluster that is being created keeps its release, up to and including the write that ends its
   * creation.
   */
  lemma {:induction false} CreationFreezesRelease(
      items: Catalogue, states: seq<System>, writes: seq<Write>, i: nat, j: nat)
    requires IsTrace(items, states, writes) && i <= j < |states|
    requires states[i].cluster.release.Some? && IsTrue(states[i].cluster.conditions, CREATING)
    requires i < j ==> IsTrue(states[j - 1].cluster.conditions, CREATING)
    ensures states[j].cluster.release.Some?
    ensures Same(states[j].cluster.release.value, states[i].cluster.release.value)
    decreases j
  {
    if i == j {
      Trichotomy(states[i].cluster.release.value, states[i].cluster.release.value);
    } else {
      if i < j - 1 {
        CreationIsAnInterval(items, states, writes, i, j - 2, j - 1);
      }
      CreationFreezesRelease(items, states, writes, i, j - 1);
      assert NextAt(items, states, writes, j - 1);
      BlockedReleaseStays(items, states[j - 1], writes[j - 1], states[j]);
      SameTransitive(
        states[j].cluster.release.value, states[j - 1].cluster.release.value, states[i].cluster.release.value);
    }
  }

  /** The releases the Cluster goes through. */
  ghost function ClusterReleases(states: seq<System>): seq<Version>
    requires forall i :: 0 <= i < |states| ==> HasReleases(states[i])
  {
    seq(|states|, i requires 0 <= i < |states| && HasReleases(states[i]) => states[i].cluster.release.value)
  }

  /** The releases the AzureCluster goes through. */
  ghost function AzureReleases(states: seq<System>): seq<Version>
    requires forall i :: 0 <= i < |states| ==> HasReleases(states[i])
  {
    seq(|states|, i requires 0 <= i < |states| && HasReleases(states[i]) => states[i].azure.release.value)
  }

  /** In every interleaving both objects go through runs of accepted release changes. */
  lemma TracesAreRuns(items: Catalogue, states: seq<System>, writes: seq<Write>)
    requires IsTrace(items, states, writes) && HasReleases(states[0])
    ensures forall i :: 0 <= i < |states| ==> HasReleases(states[i])
    ensures IsRun(items, ClusterReleases(states)) && IsRun(items, AzureReleases(states))
  {
    forall i | 0 <= i < |states|
      ensures HasReleases(states[i])
    {
      ReleasesStay(items, states, writes, i);
    }
    forall i | 0 <= i < |states| - 1
      ensures StepAt(items, ClusterReleases(states), i) && StepAt(items, AzureReleases(states), i)
    {
      assert NextAt(items, states, writes, i);
      NextKeepsReleases(items, states[i], writes[i], states[i + 1]);
    }
  }

  /**
   * In every interleaving neither object jumps over a release line, as long as none of its releases is
   * marked as ignored.
   */
  lemma NoObjectSkipsALine(items: Catalogue, states: seq<System>, writes: seq<Write>, cr: ReleaseVersion.ReleaseCR)
    requires IsTrace(items, states, writes) && HasReleases(states[0])
    requires forall i :: 0 <= i < |states| ==> HasReleases(states[i])
    requires cr in items && IsActiveCR(cr)
    ensures HasReleases(states[|states| - 1])
    ensures NoneIgnored(items, ClusterReleases(states))
            && Lt(states[0].cluster.release.value, cr.parsed.value)
            && Lt(cr.parsed.value, states[|states| - 1].cluster.release.value) ==>
              exists i :: 0 <= i < |states| && SameLine(ClusterReleases(states)[i], cr.parsed.value)
    ensures NoneIgnored(items, AzureReleases(states))
            && Lt(states[0].azure.release.value, cr.parsed.value)
            && Lt(cr.parsed.value, states[|states| - 1].azure.release.value) ==>
              exists i :: 0 <= i < |states| && SameLine(AzureReleases(states)[i], cr.parsed.value)
  {
    TracesAreRuns(items, states, writes);
    var cluster, azure := ClusterReleases(states), AzureReleases(states);
    if NoneIgnored(items, cluster) && Lt(cluster[0], cr.parsed.value) && Lt(cr.parsed.value, cluster[|cluster| - 1]) {
      NoLineIsSkipped(items, cluster, cr);
    }
    if NoneIgnored(items, azure) && Lt(azure[0], cr.parsed.value) && Lt(cr.parsed.value, azure[|azure| - 1]) {
      NoLineIsSkipped(items, azure, cr);
    }
  }
}
