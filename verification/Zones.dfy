/** The checks that the availability zones of a node pool, or of an AzureConfig, do not change. */
module Zones {
  import opened Wrappers
  import opened Orders
  import opened Sorting

  function IntLess(a: int, b: int): bool {
    a < b
  }

  lemma StringLessIsTotal()
    ensures IsStrictTotalOrder(StringLess)
  {
    StringsAreTotallyOrdered();
    forall a: string, b: string
      ensures StringLess(a, b) ==> !StringLess(b, a)
      ensures !StringLess(a, b) && !StringLess(b, a) ==> a == b
    {
      assert CompareStrings(a, b) == -CompareStrings(b, a);
    }
    forall a: string, b: string, c: string | !StringLess(b, a) && !StringLess(c, b)
      ensures !StringLess(c, a)
    {
      assert CompareStrings(a, b) == -CompareStrings(b, a);
      assert CompareStrings(b, c) == -CompareStrings(c, b);
      assert CompareStrings(a, c) == -CompareStrings(c, a);
      assert CompareStrings(a, b) <= 0 && CompareStrings(b, c) <= 0;
    }
  }

  lemma IntLessIsTotal()
    ensures IsStrictTotalOrder(IntLess)
  {
  }

  /** The verdict of the node pool check on the two lists of zones. */
  predicate SameZones<T(==)>(before: seq<T>, after: seq<T>) {
    multiset(before) == multiset(after)
  }

  lemma LengthsOfSameZones<T>(before: seq<T>, after: seq<T>)
    requires SameZones(before, after)
    ensures |before| == |after|
  {
    assert |multiset(before)| == |multiset(after)|;
  }

  lemma SortTwice(zones: seq<string>)
    ensures StableSort(StringLess, StableSort(StringLess, zones)) == StableSort(StringLess, zones)
  {
    StringLessIsTotal();
    SortSorts(StringLess, zones);
    SortOfSorted(StringLess, StableSort(StringLess, zones));
  }

  /** Comparing the sorted lists decides whether the lists have the same zones. */
  lemma SortDecides(before: seq<string>, after: seq<string>)
    ensures SameZones(StableSort(StringLess, before), before)
    ensures StableSort(StringLess, before) == StableSort(StringLess, after) <==> SameZones(before, after)
    ensures |before| != |after| ==> !SameZones(before, after)
  {
    StringLessIsTotal();
    SortPermutes(StringLess, before);
    SortedPermutation(StringLess, before, after);
    if SameZones(before, after) {
      LengthsOfSameZones(before, after);
    }
  }

  method HaveSameElements(a: array<string>, b: array<string>) returns (same: bool)
    requires a.Length == b.Length
    ensures same <==> a[..] == b[..]
  {
    var i := 0;
    while i < a.Length
      invariant 0 <= i <= a.Length
      invariant a[..i] == b[..i]
    {
      if a[i] != b[i] {
        assert a[..][i] != b[..][i];
        return false;
      }
      i := i + 1;
    }
    assert a[..] == a[..i] && b[..] == b[..i];
    return true;
  }

  /** Sorts both lists in place and compares them; the two may be the same array. */
  method CheckAvailabilityZonesUnchanged(before: array<string>, after: array<string>) returns (same: bool)
    modifies before, after
    ensures same <==> SameZones(old(before[..]), old(after[..]))
    ensures before.Length == after.Length ==>
              && before[..] == StableSort(StringLess, old(before[..]))
              && after[..] == StableSort(StringLess, old(after[..]))
    ensures before.Length != after.Length ==> before[..] == old(before[..]) && after[..] == old(after[..])
    ensures SameZones(before[..], old(before[..])) && SameZones(after[..], old(after[..]))
  {
    ghost var b, a := before[..], after[..];
    SortDecides(b, a);
    SortDecides(a, b);
    if before.Length != after.Length {
      return false;
    }
    InsertionSort(StringLess, before);
    InsertionSort(StringLess, after);
    if before == after {
      SortTwice(b);
    }
    same := HaveSameElements(before, after);
  }

  lemma IntSortDecides(before: seq<int>, after: seq<int>)
    ensures StableSort(IntLess, before) == StableSort(IntLess, after) <==> SameZones(before, after)
  {
    IntLessIsTotal();
    SortedPermutation(IntLess, before, after);
  }

  method SortedCopy(zones: array<int>) returns (copied: array<int>)
    ensures fresh(copied) && copied[..] == StableSort(IntLess, zones[..])
  {
    copied := new int[zones.Length](i requires 0 <= i < zones.Length reads zones => zones[i]);
    assert copied[..] == zones[..];
    InsertionSort(IntLess, copied);
  }

  /** Sorts copies of both lists and compares those; an empty old list may become anything. */
  method ValidateAvailabilityZonesUnchanged(before: array<int>, after: array<int>) returns (same: bool)
    ensures same <==> before.Length == 0 || SameZones(before[..], after[..])
  {
    if before.Length != 0 {
      var b := SortedCopy(before);
      var a := SortedCopy(after);
      IntSortDecides(before[..], after[..]);
      return b[..] == a[..];
    }
    return true;
  }

  /** The parts of a MachinePool that its update check reads; the failure domains are its zones. */
  datatype MachinePool = MachinePool(organization: Option<string>, zones: seq<string>, deleting: bool)

  datatype Error = LibraryError | OrganizationLabelNotFound | OrganizationLabelWasChanged | FailureDomainWasChanged

  datatype Verdict = Admitted | Denied(error: Error)

  /** The check of the zones: first the lengths, then the sorted lists element by element. */
  function ZoneVerdict(before: seq<string>, after: seq<string>): Verdict {
    if |before| != |after| then Denied(FailureDomainWasChanged)
    else if StableSort(StringLess, before) != StableSort(StringLess, after) then Denied(FailureDomainWasChanged)
    else Admitted
  }

  /** The update check; `libraryAllows` is the verdict of the upstream validation. */
  function UpdateMachinePool(libraryAllows: bool, before: MachinePool, after: MachinePool): Verdict {
    if after.deleting then Admitted
    else if !libraryAllows then Denied(LibraryError)
    else if before.organization.None? || after.organization.None? then Denied(OrganizationLabelNotFound)
    else if before.organization != after.organization then Denied(OrganizationLabelWasChanged)
    else ZoneVerdict(before.zones, after.zones)
  }

  /** A decoded MachinePool object, whose list of failure domains the check sorts in place. */
  class MachinePoolCR {
    const organization: Option<string>
    const failureDomains: array<string>
    const deleting: bool

    constructor (organization: Option<string>, failureDomains: array<string>, deleting: bool)
      ensures this.organization == organization && this.failureDomains == failureDomains && this.deleting == deleting
    {
      this.organization := organization;
      this.failureDomains := failureDomains;
      this.deleting := deleting;
    }

    function Value(): MachinePool
      reads failureDomains
    {
      MachinePool(organization, failureDomains[..], deleting)
    }
  }

  method OnUpdateValidate(libraryAllows: bool, before: MachinePoolCR, after: MachinePoolCR) returns (verdict: Verdict)
    modifies before.failureDomains, after.failureDomains
    ensures verdict == UpdateMachinePool(libraryAllows, old(before.Value()), old(after.Value()))
    ensures SameZones(before.Value().zones, old(before.Value().zones))
    ensures SameZones(after.Value().zones, old(after.Value().zones))
  {
    if after.deleting {
      return Admitted;
    }
    if !libraryAllows {
      return Denied(LibraryError);
    }
    if before.organization.None? || after.organization.None? {
      return Denied(OrganizationLabelNotFound);
    }
    if before.organization != after.organization {
      return Denied(OrganizationLabelWasChanged);
    }
    SortDecides(before.failureDomains[..], after.failureDomains[..]);
    var same := CheckAvailabilityZonesUnchanged(before.failureDomains, after.failureDomains);
    if !same {
      return Denied(FailureDomainWasChanged);
    }
    return Admitted;
  }

  /** Which updates of a MachinePool are admitted: what sorting and comparing comes to, said without sorting. */
  lemma MachinePoolUpdateExactly(libraryAllows: bool, before: MachinePool, after: MachinePool)
    ensures UpdateMachinePool(libraryAllows, before, after).Admitted? <==>
              || after.deleting
              || (&& libraryAllows && before.organization.Some? && before.organization == after.organization
                  && SameZones(before.zones, after.zones))
  {
    SortDecides(before.zones, after.zones);
  }

  lemma ZoneVerdictExactly(before: seq<string>, after: seq<string>)
    ensures ZoneVerdict(before, after)
         == if multiset(before) == multiset(after) then Admitted else Denied(FailureDomainWasChanged)
  {
    SortDecides(before, after);
  }

  /** Every refusal names what is wrong with the update. */
  lemma RefusalIsJustified(libraryAllows: bool, before: MachinePool, after: MachinePool)
    ensures match UpdateMachinePool(libraryAllows, before, after)
      case Admitted => true
      case Denied(LibraryError) => !libraryAllows
      case Denied(OrganizationLabelNotFound) => before.organization.None? || after.organization.None?
      case Denied(OrganizationLabelWasChanged) =>
        before.organization.Some? && after.organization.Some? && before.organization.value != after.organization.value
      case Denied(FailureDomainWasChanged) => multiset(before.zones) != multiset(after.zones)
  {
    ZoneVerdictExactly(before.zones, after.zones);
  }

  /** An admitted update that does not delete. */
  predicate Next(before: MachinePool, after: MachinePool) {
    !after.deleting && UpdateMachinePool(true, before, after).Admitted?
  }

  predicate NextAt(run: seq<MachinePool>, i: nat)
    requires i + 1 < |run|
  {
    Next(run[i], run[i + 1])
  }

  /** A MachinePool through a series of admitted updates. */
  ghost predicate IsPoolRun(run: seq<MachinePool>) {
    forall i :: 0 <= i < |run| - 1 ==> NextAt(run, i)
  }

  /** Over every run of admitted updates a MachinePool keeps its organization and its zones, each as often as it had. */
  lemma {:induction false} ZonesNeverChange(run: seq<MachinePool>, i: nat)
    requires IsPoolRun(run) && i < |run|
    ensures SameZones(run[0].zones, run[i].zones) && run[0].organization == run[i].organization
  {
    if i > 0 {
      ZonesNeverChange(run, i - 1);
      assert NextAt(run, i - 1);
      MachinePoolUpdateExactly(true, run[i - 1], run[i]);
    }
  }

  /** So the first zones decide which later zones are admitted: any reordering, and nothing else. */
  lemma ReachableZonesExactly(run: seq<MachinePool>, after: MachinePool)
    requires IsPoolRun(run) && |run| > 0 && run[0].organization.Some? && !after.deleting
    ensures Next(run[|run| - 1], after) <==>
              after.organization == run[0].organization && SameZones(run[0].zones, after.zones)
  {
    ZonesNeverChange(run, |run| - 1);
    MachinePoolUpdateExactly(true, run[|run| - 1], after);
  }
}
