/** Creation and update checks of node pools (AzureMachinePool objects). */
module NodePools {
  import opened Wrappers
  import opened Semver
  import opened Skus

  const MIN_MEMORY := 16
  const MIN_CPUS := 4
  const STANDARD_LRS := "Standard_LRS"
  const PREMIUM_LRS := "Premium_LRS"

  datatype DataDisk = DataDisk(nameSuffix: string, diskSizeGB: int, lun: Option<int>)

  const DESIRED_DATA_DISKS := [DataDisk("docker", 100, Some(21)), DataDisk("kubelet", 100, Some(22))]

  /** A price as the Quantity struct that Go compares field by field. */
  datatype Quantity = Quantity(value: int, scale: int, text: string)

  datatype SpotVMOptions = SpotVMOptions(maxPrice: Option<Quantity>)

  datatype ReleaseLabel = Missing | Unparsable | Parsed(version: Version)

  datatype Pool = Pool(
    release: ReleaseLabel,
    organization: Option<string>,
    location: string,
    vmSize: string,
    acceleratedNetworking: Option<bool>,
    storageAccountType: string,
    spotVMOptions: Option<SpotVMOptions>,
    sshPublicKey: string,
    dataDisks: seq<DataDisk>,
    deleting: bool)

  datatype Error =
    | ParsingFailed | LibraryError | OrganizationError
    | LookupError(lookup: Skus.Error)
    | InsufficientMemory | InsufficientCPU
    | AcceleratedNetworkingNotSupported | AcceleratedNetworkingWasChanged
    | InvalidStorageAccountType | PremiumStorageNotSupported | StorageAccountWasChanged
    | PremiumDowngrade | SpotVMOptionsWasChanged
    | SSHFieldIsSet | DataDisksFieldIsSet | UnexpectedLocation | LocationWasChanged

  /** `None` when the check passes. */
  type Check = Option<Error>

  /** The first error, as in a chain of early returns. */
  function Or(first: Check, second: Check): Check {
    if first.Some? then first else second
  }

  function CheckInstanceType(skus: Catalogue, pool: Pool): Check {
    match Amount(skus, pool.location, pool.vmSize, CAPABILITY_MEMORY)
    case Failure(e) => Some(LookupError(e))
    case Success(memory) =>
      match Amount(skus, pool.location, pool.vmSize, CAPABILITY_CPUS)
      case Failure(e) => Some(LookupError(e))
      case Success(cpus) =>
        if memory < MIN_MEMORY then Some(InsufficientMemory)
        else if cpus < MIN_CPUS then Some(InsufficientCPU)
        else None
  }

  function CheckAcceleratedNetworking(skus: Catalogue, pool: Pool): Check {
    if pool.acceleratedNetworking != Some(true) then None
    else match Supports(skus, pool.location, pool.vmSize, CAPABILITY_ACCELERATED_NETWORKING)
      case Failure(e) => Some(LookupError(e))
      case Success(supported) => if supported then None else Some(AcceleratedNetworkingNotSupported)
  }

  function CheckStorageAccountType(skus: Catalogue, pool: Pool): Check {
    if pool.storageAccountType != STANDARD_LRS && pool.storageAccountType != PREMIUM_LRS
    then Some(InvalidStorageAccountType)
    else if pool.storageAccountType == PREMIUM_LRS then
      match Supports(skus, pool.location, pool.vmSize, CAPABILITY_PREMIUM_IO)
      case Failure(e) => Some(LookupError(e))
      case Success(supported) => if supported then None else Some(PremiumStorageNotSupported)
    else None
  }

  function CheckSSHKeyIsEmpty(pool: Pool): Check {
    if pool.sshPublicKey != "" then Some(SSHFieldIsSet) else None
  }

  function CheckDataDisks(pool: Pool): Check {
    if pool.dataDisks != DESIRED_DATA_DISKS then Some(DataDisksFieldIsSet) else None
  }

  function CheckLocation(pool: Pool, expected: string): Check {
    if pool.location != expected then Some(UnexpectedLocation) else None
  }

  /** `libraryAllows` and `organizationMatches` are the verdicts of the checks outside the model. */
  function CheckCreate(
      skus: Catalogue, location: string, pool: Pool, libraryAllows: bool, organizationMatches: bool): Check {
    if !libraryAllows then Some(LibraryError)
    else if !organizationMatches then Some(OrganizationError)
    else Or(CheckInstanceType(skus, pool),
         Or(CheckAcceleratedNetworking(skus, pool),
         Or(CheckStorageAccountType(skus, pool),
         Or(CheckSSHKeyIsEmpty(pool),
         Or(CheckDataDisks(pool), CheckLocation(pool, location))))))
  }

  const FIRST_CAPI_RELEASE := Version(20, 0, 0, [AlphaNumeric("v1alpha3")], [])

  /** Whether the object belongs to a release for which the webhook validates nothing; `None` is an error. */
  function IsCAPIRelease(pool: Pool): Option<bool> {
    match pool.release
    case Missing => Some(false)
    case Unparsable => None
    case Parsed(version) => Some(Leq(FIRST_CAPI_RELEASE, version))
  }

  function HasAcceleratedNetworkingChanged(before: Pool, after: Pool): bool {
    if before.acceleratedNetworking.Some? then
      if after.acceleratedNetworking.Some? then before.acceleratedNetworking.value != after.acceleratedNetworking.value
      else true
    else after.acceleratedNetworking.Some?
  }

  function CheckAcceleratedNetworkingUpdate(skus: Catalogue, before: Pool, after: Pool): Check {
    if HasAcceleratedNetworkingChanged(before, after) then Some(AcceleratedNetworkingWasChanged)
    else if before.vmSize == after.vmSize then None
    else CheckAcceleratedNetworking(skus, after)
  }

  function CheckInstanceTypeChange(skus: Catalogue, before: Pool, after: Pool): Check {
    if before.vmSize == after.vmSize then None
    else match Supports(skus, before.location, before.vmSize, CAPABILITY_PREMIUM_IO)
      case Failure(e) => Some(LookupError(e))
      case Success(oldPremium) =>
        match Supports(skus, after.location, after.vmSize, CAPABILITY_PREMIUM_IO)
        case Failure(e) => Some(LookupError(e))
        case Success(newPremium) => if oldPremium && !newPremium then Some(PremiumDowngrade) else None
  }

  function CheckSpotVMOptionsUnchanged(before: Pool, after: Pool): Check {
    match (before.spotVMOptions, after.spotVMOptions)
    case (None, None) => None
    case (None, Some(_)) => Some(SpotVMOptionsWasChanged)
    case (Some(_), None) => Some(SpotVMOptionsWasChanged)
    case (Some(b), Some(a)) =>
      if b.maxPrice.None? && a.maxPrice.Some? then Some(SpotVMOptionsWasChanged)
      else if b.maxPrice.Some? && a.maxPrice.None? then Some(SpotVMOptionsWasChanged)
      else if b.maxPrice.None? && a.maxPrice.None? then None
      else if b.maxPrice.value != a.maxPrice.value then Some(SpotVMOptionsWasChanged)
      else None
  }

  function CheckStorageAccountTypeUnchanged(before: Pool, after: Pool): Check {
    if before.storageAccountType != after.storageAccountType then Some(StorageAccountWasChanged) else None
  }

  function CheckLocationUnchanged(before: Pool, after: Pool): Check {
    if before.location != after.location then Some(LocationWasChanged) else None
  }

  function CheckOrganizationUnchanged(before: Pool, after: Pool): Check {
    if before.organization.None? || after.organization.None? || before.organization != after.organization
    then Some(OrganizationError) else None
  }

  function CheckUpdate(skus: Catalogue, before: Pool, after: Pool, libraryAllows: bool): Check {
    if after.deleting then None
    else if IsCAPIRelease(after).None? then Some(ParsingFailed)
    else if IsCAPIRelease(after).value then None
    else if !libraryAllows then Some(LibraryError)
    else Or(CheckOrganizationUnchanged(before, after),
         Or(CheckInstanceType(skus, after),
         Or(CheckAcceleratedNetworkingUpdate(skus, before, after),
         Or(CheckInstanceTypeChange(skus, before, after),
         Or(CheckSpotVMOptionsUnchanged(before, after),
         Or(CheckStorageAccountTypeUnchanged(before, after),
         Or(CheckSSHKeyIsEmpty(after),
         Or(CheckDataDisks(after), CheckLocationUnchanged(before, after)))))))))
  }

  /** The facts about a pool's VM size, read from the full catalogue of Azure. */
  predicate IsBigEnough(azure: Catalogue, pool: Pool) {
    && Amount(azure, pool.location, pool.vmSize, "MemoryGB").Success?
    && Amount(azure, pool.location, pool.vmSize, "MemoryGB").value >= 16
    && Amount(azure, pool.location, pool.vmSize, "vCPUs").Success?
    && Amount(azure, pool.location, pool.vmSize, "vCPUs").value >= 4
  }

  predicate Has(azure: Catalogue, pool: Pool, capability: string) {
    Supports(azure, pool.location, pool.vmSize, capability) == Success(true)
  }

  /** What every stored node pool of an installation satisfies. */
  predicate PoolInvariant(azure: Catalogue, location: string, pool: Pool) {
    && IsBigEnough(azure, pool)
    && (pool.storageAccountType == "Premium_LRS" ==> Has(azure, pool, "PremiumIO"))
    && (pool.storageAccountType == "Premium_LRS" || pool.storageAccountType == "Standard_LRS")
    && (pool.acceleratedNetworking == Some(true) ==> Has(azure, pool, "AcceleratedNetworkingEnabled"))
    && pool.location == location
    && pool.sshPublicKey == ""
    && pool.dataDisks == [DataDisk("docker", 100, Some(21)), DataDisk("kubelet", 100, Some(22))]
  }

  /** An accepted creation establishes the invariant, whatever part of the catalogue was at hand. */
  lemma CreateEstablishes(
      skus: Catalogue, azure: Catalogue, location: string, pool: Pool, libraryAllows: bool, organizationMatches: bool)
    requires IsPartOf(skus, azure)
    requires CheckCreate(skus, location, pool, libraryAllows, organizationMatches).None?
    ensures PoolInvariant(azure, location, pool)
  {
  }

  /** Every refusal of a creation names what is wrong with the pool. */
  lemma CreateRefusalIsJustified(
      skus: Catalogue, location: string, pool: Pool, libraryAllows: bool, organizationMatches: bool)
    ensures match CheckCreate(skus, location, pool, libraryAllows, organizationMatches)
      case None => true
      case Some(LibraryError) => !libraryAllows
      case Some(OrganizationError) => !organizationMatches
      case Some(LookupError(e)) =>
        || Amount(skus, pool.location, pool.vmSize, "MemoryGB") == Failure(e)
        || Amount(skus, pool.location, pool.vmSize, "vCPUs") == Failure(e)
        || Supports(skus, pool.location, pool.vmSize, "AcceleratedNetworkingEnabled") == Failure(e)
        || Supports(skus, pool.location, pool.vmSize, "PremiumIO") == Failure(e)
      case Some(e) => IsWrong(skus, pool, e) || (e == UnexpectedLocation && pool.location != location)
  {
  }

  /** What an error about the pool alone says. */
  predicate IsWrong(skus: Catalogue, pool: Pool, e: Error) {
    match e
    case InsufficientMemory =>
      Amount(skus, pool.location, pool.vmSize, "MemoryGB").Success?
      && Amount(skus, pool.location, pool.vmSize, "MemoryGB").value < 16
    case InsufficientCPU =>
      Amount(skus, pool.location, pool.vmSize, "vCPUs").Success?
      && Amount(skus, pool.location, pool.vmSize, "vCPUs").value < 4
    case AcceleratedNetworkingNotSupported =>
      pool.acceleratedNetworking == Some(true)
      && Supports(skus, pool.location, pool.vmSize, "AcceleratedNetworkingEnabled") == Success(false)
    case InvalidStorageAccountType =>
      pool.storageAccountType != "Standard_LRS" && pool.storageAccountType != "Premium_LRS"
    case PremiumStorageNotSupported =>
      pool.storageAccountType == "Premium_LRS"
      && Supports(skus, pool.location, pool.vmSize, "PremiumIO") == Success(false)
    case SSHFieldIsSet => pool.sshPublicKey != ""
    case DataDisksFieldIsSet => pool.dataDisks != DESIRED_DATA_DISKS
    case _ => false
  }

  /** Every refusal of an update names what is wrong with it. */
  lemma UpdateRefusalIsJustified(skus: Catalogue, before: Pool, after: Pool, libraryAllows: bool)
    ensures match CheckUpdate(skus, before, after, libraryAllows)
      case None => true
      case Some(ParsingFailed) => after.release.Unparsable?
      case Some(LibraryError) => !libraryAllows
      case Some(OrganizationError) => before.organization.None? || before.organization != after.organization
      case Some(LookupError(e)) =>
        || Amount(skus, after.location, after.vmSize, "MemoryGB") == Failure(e)
        || Amount(skus, after.location, after.vmSize, "vCPUs") == Failure(e)
        || Supports(skus, after.location, after.vmSize, "AcceleratedNetworkingEnabled") == Failure(e)
        || Supports(skus, before.location, before.vmSize, "PremiumIO") == Failure(e)
        || Supports(skus, after.location, after.vmSize, "PremiumIO") == Failure(e)
      case Some(AcceleratedNetworkingWasChanged) => before.acceleratedNetworking != after.acceleratedNetworking
      case Some(PremiumDowngrade) =>
        && before.vmSize != after.vmSize
        && Supports(skus, before.location, before.vmSize, "PremiumIO") == Success(true)
        && Supports(skus, after.location, after.vmSize, "PremiumIO") == Success(false)
      case Some(SpotVMOptionsWasChanged) => before.spotVMOptions != after.spotVMOptions
      case Some(StorageAccountWasChanged) => before.storageAccountType != after.storageAccountType
      case Some(LocationWasChanged) => before.location != after.location
      case Some(e) => IsWrong(skus, after, e)
  {
  }

  /** With the whole catalogue at hand, creation accepts exactly the pools that satisfy the invariant. */
  lemma CreateExactly(azure: Catalogue, location: string, pool: Pool, libraryAllows: bool, organizationMatches: bool)
    ensures CheckCreate(azure, location, pool, libraryAllows, organizationMatches).None? <==>
              libraryAllows && organizationMatches && PoolInvariant(azure, location, pool)
  {
  }

  /** From 20.0.0-v1alpha3 on, in the precedence of versions, written out in its numbers and identifiers. */
  predicate IsFromCAPI(v: Version) {
    || v.major > 20
    || (v.major == 20 && (v.minor > 0 || v.patch > 0 || v.pre == []
                          || Compare(v, Version(20, 0, 0, [AlphaNumeric("v1alpha3")], [])) >= 0))
  }

  /** Which updates are handed over to other controllers unseen, and which releases are an error. */
  lemma HandedOverExactly(pool: Pool)
    ensures IsCAPIRelease(pool) == Some(true) <==> pool.release.Parsed? && IsFromCAPI(pool.release.version)
    ensures IsCAPIRelease(pool).None? <==> pool.release.Unparsable?
    ensures pool.release.Parsed? && pool.release.version.major < 20 ==> IsCAPIRelease(pool) == Some(false)
    ensures pool.release == Parsed(Version(20, 0, 0, [AlphaNumeric("v1alpha3")], [])) ==>
              IsCAPIRelease(pool) == Some(true)
  {
    if pool.release.Parsed? {
      Antisymmetric(FIRST_CAPI_RELEASE, pool.release.version);
    }
  }

  /** An update of a live pool that is not handed over to other controllers. */
  predicate IsGuarded(after: Pool) {
    !after.deleting && IsCAPIRelease(after) != Some(true)
  }

  /** What a guarded update may not touch. */
  predicate KeepsFixedFields(before: Pool, after: Pool) {
    && before.organization == after.organization
    && before.location == after.location
    && before.acceleratedNetworking == after.acceleratedNetworking
    && before.storageAccountType == after.storageAccountType
    && before.spotVMOptions == after.spotVMOptions
  }

  /** An accepted update keeps the invariant, although it never repeats the storage check. */
  lemma UpdatePreserves(
      skus: Catalogue, azure: Catalogue, location: string, before: Pool, after: Pool, libraryAllows: bool)
    requires IsPartOf(skus, azure) && PoolInvariant(azure, location, before) && IsGuarded(after)
    requires CheckUpdate(skus, before, after, libraryAllows).None?
    ensures PoolInvariant(azure, location, after)
    ensures KeepsFixedFields(before, after)
  {
  }

  /**
   * With the whole catalogue at hand, a stored pool may change exactly in its VM size (and in fields
   * outside the model), to a size that is big enough, supports what is enabled, and does not give up
   * premium storage.
   */
  lemma UpdateExactly(azure: Catalogue, location: string, before: Pool, after: Pool, libraryAllows: bool)
    requires PoolInvariant(azure, location, before) && IsGuarded(after)
    ensures CheckUpdate(azure, before, after, libraryAllows).None? <==>
              && !after.release.Unparsable? && libraryAllows && after.organization.Some?
              && KeepsFixedFields(before, after) && PoolInvariant(azure, location, after)
              && (before.vmSize != after.vmSize ==>
                    && Supports(azure, location, before.vmSize, "PremiumIO").Success?
                    && Supports(azure, location, after.vmSize, "PremiumIO").Success?
                    && (Has(azure, before, "PremiumIO") ==> Has(azure, after, "PremiumIO")))
  {
  }

  /**
   * Which updates are accepted, whatever pool is stored and whatever part of the catalogue is at hand.
   * An unchanged VM size is asked for its size only, not for what the pool enables.
   */
  lemma UpdateInWords(skus: Catalogue, before: Pool, after: Pool, libraryAllows: bool)
    ensures CheckUpdate(skus, before, after, libraryAllows).None? <==>
              || after.deleting
              || (after.release.Parsed? && IsFromCAPI(after.release.version))
              || (&& !after.release.Unparsable? && libraryAllows && after.organization.Some?
                  && KeepsFixedFields(before, after) && IsBigEnough(skus, after) && after.sshPublicKey == ""
                  && after.dataDisks == [DataDisk("docker", 100, Some(21)), DataDisk("kubelet", 100, Some(22))]
                  && (before.vmSize != after.vmSize ==>
                        && (after.acceleratedNetworking == Some(true) ==>
                              Has(skus, after, "AcceleratedNetworkingEnabled"))
                        && Supports(skus, before.location, before.vmSize, "PremiumIO").Success?
                        && Supports(skus, after.location, after.vmSize, "PremiumIO").Success?
                        && (Has(skus, before, "PremiumIO") ==> Has(skus, after, "PremiumIO"))))
  {
    HandedOverExactly(after);
  }

  /** One admission request, with the part of the catalogue that was cached or reachable. */
  datatype Request = Request(skus: Catalogue, libraryAllows: bool)

  /** The life of a pool: an accepted creation followed by accepted guarded updates. */
  ghost predicate IsLife(azure: Catalogue, location: string, pools: seq<Pool>, requests: seq<Request>) {
    && |pools| == |requests| > 0
    && (forall i :: 0 <= i < |requests| ==> IsPartOf(requests[i].skus, azure))
    && CheckCreate(requests[0].skus, location, pools[0], requests[0].libraryAllows, true).None?
    && (forall i :: 1 <= i < |pools| ==>
          && IsGuarded(pools[i])
          && CheckUpdate(requests[i].skus, pools[i - 1], pools[i], requests[i].libraryAllows).None?)
  }

  /** The invariant holds throughout the life of a pool, and its fixed fields never change. */
  lemma {:induction false} PoolsStaySound(
      azure: Catalogue, location: string, pools: seq<Pool>, requests: seq<Request>, i: nat)
    requires IsLife(azure, location, pools, requests) && i < |pools|
    ensures PoolInvariant(azure, location, pools[i])
    ensures KeepsFixedFields(pools[0], pools[i])
  {
    if i == 0 {
      CreateEstablishes(requests[0].skus, azure, location, pools[0], requests[0].libraryAllows, true);
    } else {
      PoolsStaySound(azure, location, pools, requests, i - 1);
      UpdatePreserves(requests[i].skus, azure, location, pools[i - 1], pools[i], requests[i].libraryAllows);
    }
  }
}
