/** VM sizes and their capabilities, and the cache that is filled from Azure one location at a time. */
module Skus {
  import opened Wrappers
  import opened Text

  const CAPABILITY_ACCELERATED_NETWORKING := "AcceleratedNetworkingEnabled"
  const CAPABILITY_PREMIUM_IO := "PremiumIO"
  const CAPABILITY_MEMORY := "MemoryGB"
  const CAPABILITY_CPUS := "vCPUs"

  datatype Capability = Capability(name: Option<string>, value: Option<string>)

  datatype Sku = Sku(capabilities: Option<seq<Capability>>)

  type Cache = map<string, Sku>

  /** For every location the VM sizes listed for it; listing any other location fails. */
  type Catalogue = map<string, Cache>

  datatype Error = InvalidRequest | ListFailed | SkuNotFound | InvalidUpstreamResponse

  /** Looking a VM size up in a catalogue, without any cache in between. */
  function Find(catalogue: Catalogue, location: string, vmType: string): Result<Sku, Error> {
    if location == "" || vmType == "" then Failure(InvalidRequest)
    else if location !in catalogue then Failure(ListFailed)
    else if vmType !in catalogue[location] then Failure(SkuNotFound)
    else Success(catalogue[location][vmType])
  }

  predicate IsNamed(capability: Capability, name: string) {
    capability.name == Some(name)
  }

  /** The value of the first capability of that name. */
  function ValueOf(capabilities: seq<Capability>, name: string): Option<string> {
    if |capabilities| == 0 then None
    else if IsNamed(capabilities[0], name) then capabilities[0].value
    else ValueOf(capabilities[1..], name)
  }

  /** It is the first one that counts, even when it carries no value. */
  lemma {:induction false} FirstNameCounts(capabilities: seq<Capability>, name: string, i: nat)
    requires i < |capabilities| && IsNamed(capabilities[i], name)
    requires forall k :: 0 <= k < i ==> !IsNamed(capabilities[k], name)
    ensures ValueOf(capabilities, name) == capabilities[i].value
  {
    if i > 0 {
      assert !IsNamed(capabilities[0], name);
      assert forall k :: 0 <= k < i - 1 ==> capabilities[1..][k] == capabilities[k + 1];
      FirstNameCounts(capabilities[1..], name, i - 1);
    }
  }

  function FindCapability(
      catalogue: Catalogue, location: string, vmType: string, name: string): Result<Option<string>, Error> {
    if name == "" then Failure(InvalidRequest)
    else match Find(catalogue, location, vmType)
      case Failure(e) => Failure(e)
      case Success(sku) =>
        if sku.capabilities.None? then Success(None) else Success(ValueOf(sku.capabilities.value, name))
  }

  /** Whether the VM size has the capability: its value is "True" in any mix of cases. */
  function Supports(catalogue: Catalogue, location: string, vmType: string, name: string): Result<bool, Error> {
    match FindCapability(catalogue, location, vmType, name)
    case Failure(e) => Failure(e)
    case Success(value) => Success(value.Some? && EqualsIgnoringCase(value.value, "true"))
  }

  /** The capability as a number. */
  function Amount(catalogue: Catalogue, location: string, vmType: string, name: string): Result<int, Error> {
    match FindCapability(catalogue, location, vmType, name)
    case Failure(e) => Failure(e)
    case Success(None) => Failure(InvalidUpstreamResponse)
    case Success(Some(text)) =>
      match ParseInt(text, MAX_INT64)
      case Success(n) => Success(n)
      case Failure(_) => Failure(InvalidUpstreamResponse)
  }

  lemma {:induction false} NoSuchName(capabilities: seq<Capability>, name: string)
    requires forall c | c in capabilities :: c.name != Some(name)
    ensures ValueOf(capabilities, name) == None
  {
    if |capabilities| > 0 {
      assert capabilities[0] in capabilities;
      NoSuchName(capabilities[1..], name);
    }
  }

  /** The capabilities of a listed VM size. */
  predicate AreListed(catalogue: Catalogue, location: string, vmType: string, capabilities: seq<Capability>) {
    && location != "" && vmType != ""
    && location in catalogue && vmType in catalogue[location]
    && catalogue[location][vmType].capabilities == Some(capabilities)
  }

  /** What the first capability of the name says: supported when it spells "true", and otherwise a number or nothing. */
  lemma CapabilityDecides(
      catalogue: Catalogue, location: string, vmType: string, name: string, capabilities: seq<Capability>, i: nat)
    requires AreListed(catalogue, location, vmType, capabilities) && name != ""
    requires i < |capabilities| && capabilities[i].name == Some(name)
    requires forall k :: 0 <= k < i ==> capabilities[k].name != Some(name)
    ensures Supports(catalogue, location, vmType, name)
         == Success(capabilities[i].value.Some? && SpellsTrue(capabilities[i].value.value))
    ensures Amount(catalogue, location, vmType, name)
         == if capabilities[i].value.Some? && ParseInt(capabilities[i].value.value, MAX_INT64).Success?
            then Success(ParseInt(capabilities[i].value.value, MAX_INT64).value)
            else Failure(InvalidUpstreamResponse)
  {
    FirstNameCounts(capabilities, name, i);
    if capabilities[i].value.Some? {
      TrueExactly(capabilities[i].value.value);
    }
  }

  /** A listed VM size without capabilities of the name does not support it and has no such number. */
  lemma MissingCapability(
      catalogue: Catalogue, location: string, vmType: string, name: string, capabilities: seq<Capability>)
    requires location != "" && vmType != "" && name != "" && location in catalogue && vmType in catalogue[location]
    requires catalogue[location][vmType].capabilities == None
             || (&& catalogue[location][vmType].capabilities == Some(capabilities)
                 && forall c | c in capabilities :: c.name != Some(name))
    ensures Supports(catalogue, location, vmType, name) == Success(false)
    ensures Amount(catalogue, location, vmType, name) == Failure(InvalidUpstreamResponse)
  {
    if catalogue[location][vmType].capabilities.Some? {
      NoSuchName(capabilities, name);
    }
  }

  /** When the lookup itself fails, and with which error. */
  lemma LookupFailsExactly(catalogue: Catalogue, location: string, vmType: string, name: string)
    ensures Supports(catalogue, location, vmType, name).Failure? <==>
              || name == "" || location == "" || vmType == "" || location !in catalogue
              || vmType !in catalogue[location]
    ensures Supports(catalogue, location, vmType, name).Failure? ==>
              && Amount(catalogue, location, vmType, name) == Failure(Supports(catalogue, location, vmType, name).error)
              && match Supports(catalogue, location, vmType, name).error {
                   case InvalidRequest => name == "" || location == "" || vmType == ""
                   case ListFailed => location !in catalogue
                   case SkuNotFound => location in catalogue && vmType !in catalogue[location]
                   case InvalidUpstreamResponse => false
                 }
  {
  }

  /** "True" is supported; "False", an empty and a missing value are not. */
  lemma SupportExamples(catalogue: Catalogue, location: string, vmType: string, name: string, value: Option<string>)
    requires AreListed(catalogue, location, vmType, [Capability(Some(name), value)]) && name != ""
    ensures value == Some("True") || value == Some("TRUE") ==>
              Supports(catalogue, location, vmType, name) == Success(true)
    ensures value == Some("False") || value == Some("") || value == None ==>
              Supports(catalogue, location, vmType, name) == Success(false)
  {
    CapabilityDecides(catalogue, location, vmType, name, [Capability(Some(name), value)], 0);
    TrueExamples();
  }

  /** Part of the catalogue: some locations may be missing, none is different. */
  ghost predicate IsPartOf(part: Catalogue, whole: Catalogue) {
    forall location | location in part :: location in whole && part[location] == whole[location]
  }

  /** Successful answers do not depend on how much of the catalogue is known. */
  lemma AnswersAreStable(part: Catalogue, whole: Catalogue, location: string, vmType: string, name: string)
    requires IsPartOf(part, whole)
    ensures Supports(part, location, vmType, name).Success? ==>
              Supports(part, location, vmType, name) == Supports(whole, location, vmType, name)
    ensures Amount(part, location, vmType, name).Success? ==>
              Amount(part, location, vmType, name) == Amount(whole, location, vmType, name)
  {
  }

  /** The cache after a request for the location, when listing it succeeds if `reachable`. */
  function Filled(cache: Catalogue, azure: Catalogue, location: string, reachable: bool): Catalogue {
    if location != "" && location !in cache && reachable && location in azure then cache[location := azure[location]]
    else cache
  }

  /**
   * A request adds at most its own location to the cache, exactly when it is missing and can be listed;
   * asking again adds nothing.
   */
  lemma FillingExactly(cache: Catalogue, azure: Catalogue, location: string, reachable: bool, other: string)
    requires IsPartOf(cache, azure)
    ensures IsPartOf(cache, Filled(cache, azure, location, reachable))
    ensures IsPartOf(Filled(cache, azure, location, reachable), azure)
    ensures other in Filled(cache, azure, location, reachable) <==>
              other in cache || (other == location && location != "" && reachable && location in azure)
    ensures Filled(Filled(cache, azure, location, reachable), azure, location, reachable)
         == Filled(cache, azure, location, reachable)
  {
  }

  class VMSKU {
    const azure: Catalogue
    var skus: Catalogue
    /** The locations that have been listed successfully, in order. */
    ghost var listed: seq<string>

    ghost predicate Agrees()
      reads this
    {
      IsPartOf(skus, azure) && forall location :: location in skus <==> location in listed
    }

    ghost predicate Valid()
      reads this
    {
      Agrees() && forall i, j :: 0 <= i < j < |listed| ==> listed[i] != listed[j]
    }

    constructor (azure: Catalogue)
      ensures Valid() && this.azure == azure && skus == map[] && listed == []
    {
      this.azure := azure;
      skus := map[];
      listed := [];
    }

    /** `reachable` says whether this request to Azure goes through. */
    method InitCache(location: string, reachable: bool) returns (err: Option<Error>)
      requires Agrees()
      modifies this
      ensures Agrees()
      ensures err == if reachable && location in azure then None else Some(ListFailed)
      ensures err.None? ==> skus == old(skus)[location := azure[location]] && listed == old(listed) + [location]
      ensures err.Some? ==> skus == old(skus) && listed == old(listed)
    {
      if !reachable || location !in azure {
        return Some(ListFailed);
      }
      skus := skus[location := azure[location]];
      listed := listed + [location];
      return None;
    }

    method GetSKU(location: string, vmType: string, reachable: bool) returns (sku: Result<Sku, Error>)
      requires Valid()
      modifies this
      ensures Valid()
      ensures skus == if vmType == "" then old(skus) else Filled(old(skus), azure, location, reachable)
      ensures sku == Find(skus, location, vmType)
      ensures sku.Success? ==> sku == Find(azure, location, vmType)
      ensures reachable || location in old(skus) ==> sku == Find(azure, location, vmType)
    {
      if location == "" {
        return Failure(InvalidRequest);
      }
      if vmType == "" {
        return Failure(InvalidRequest);
      }
      if location !in skus {
        var err := InitCache(location, reachable);
        if err.Some? {
          return Failure(err.value);
        }
      }
      if vmType !in skus[location] {
        return Failure(SkuNotFound);
      }
      return Success(skus[location][vmType]);
    }

    method GetCapability(location: string, vmType: string, name: string, reachable: bool)
      returns (value: Result<Option<string>, Error>)
      requires Valid()
      modifies this
      ensures Valid()
      ensures skus == if name == "" || vmType == "" then old(skus) else Filled(old(skus), azure, location, reachable)
      ensures value == FindCapability(skus, location, vmType, name)
      ensures reachable || location in old(skus) ==> value == FindCapability(azure, location, vmType, name)
    {
      if name == "" {
        return Failure(InvalidRequest);
      }
      var sku := GetSKU(location, vmType, reachable);
      if sku.Failure? {
        return Failure(sku.error);
      }
      if sku.value.capabilities.Some? {
        var capabilities := sku.value.capabilities.value;
        for i := 0 to |capabilities|
          invariant ValueOf(capabilities, name) == ValueOf(capabilities[i..], name)
        {
          if capabilities[i].name.Some? && capabilities[i].name.value == name {
            return Success(capabilities[i].value);
          }
          assert capabilities[i..][1..] == capabilities[i + 1..];
        }
      }
      return Success(None);
    }

    method HasCapability(
        location: string, vmType: string, name: string, reachable: bool)
      returns (has: Result<bool, Error>)
      requires Valid()
      modifies this
      ensures Valid()
      ensures skus == if name == "" || vmType == "" then old(skus) else Filled(old(skus), azure, location, reachable)
      ensures has == Supports(skus, location, vmType, name)
      ensures has.Success? ==> has == Supports(azure, location, vmType, name)
      ensures reachable || location in old(skus) ==> has == Supports(azure, location, vmType, name)
    {
      var capability := GetCapability(location, vmType, name, reachable);
      AnswersAreStable(skus, azure, location, vmType, name);
      if capability.Failure? {
        return Failure(capability.error);
      }
      if capability.value.Some? && EqualsIgnoringCase(capability.value.value, "true") {
        return Success(true);
      }
      return Success(false);
    }

    method Number(location: string, vmType: string, name: string, reachable: bool) returns (amount: Result<int, Error>)
      requires Valid()
      modifies this
      ensures Valid()
      ensures skus == if name == "" || vmType == "" then old(skus) else Filled(old(skus), azure, location, reachable)
      ensures amount == Amount(skus, location, vmType, name)
      ensures amount.Success? ==> amount == Amount(azure, location, vmType, name)
      ensures reachable || location in old(skus) ==> amount == Amount(azure, location, vmType, name)
    {
      var capability := GetCapability(location, vmType, name, reachable);
      AnswersAreStable(skus, azure, location, vmType, name);
      if capability.Failure? {
        return Failure(capability.error);
      }
      if capability.value.Some? {
        var n := ParseInt(capability.value.value, MAX_INT64);
        if n.Failure? {
          return Failure(InvalidUpstreamResponse);
        }
        return Success(n.value);
      }
      return Failure(InvalidUpstreamResponse);
    }

    method CPUs(location: string, vmType: string, reachable: bool) returns (cpus: Result<int, Error>)
      requires Valid()
      modifies this
      ensures Valid() && cpus == Amount(skus, location, vmType, CAPABILITY_CPUS)
      ensures skus == if vmType == "" then old(skus) else Filled(old(skus), azure, location, reachable)
      ensures cpus.Success? ==> cpus == Amount(azure, location, vmType, "vCPUs")
      ensures reachable || location in old(skus) ==> cpus == Amount(azure, location, vmType, "vCPUs")
    {
      cpus := Number(location, vmType, CAPABILITY_CPUS, reachable);
    }

    method Memory(location: string, vmType: string, reachable: bool) returns (memory: Result<int, Error>)
      requires Valid()
      modifies this
      ensures Valid() && memory == Amount(skus, location, vmType, CAPABILITY_MEMORY)
      ensures skus == if vmType == "" then old(skus) else Filled(old(skus), azure, location, reachable)
      ensures memory.Success? ==> memory == Amount(azure, location, vmType, "MemoryGB")
      ensures reachable || location in old(skus) ==> memory == Amount(azure, location, vmType, "MemoryGB")
    {
      memory := Number(location, vmType, CAPABILITY_MEMORY, reachable);
    }
  }
}
