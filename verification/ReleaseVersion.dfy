/** Which release changes are legal, given the catalogue of Release objects of the installation. */
module ReleaseVersion {
  import opened Wrappers
  import opened Sorting
  import opened Semver
  import opened Text

  const IGNORE_ANNOTATION := "release.giantswarm.io/ignore"
  const STATE_DEPRECATED := "deprecated"

  /** A Release object; `parsed` is what the version parser makes of its name, `None` when it fails. */
  datatype ReleaseCR = ReleaseCR(name: string, parsed: Option<Version>, annotations: map<string, string>, state: string)

  /** A catalogue entry whose name has been parsed. */
  datatype Release = Release(version: Version, cr: ReleaseCR)

  /** The reply of the Kubernetes client to the list request. */
  datatype Listing = ListFailed | Listed(items: seq<ReleaseCR>)

  datatype Error =
    | ListError
    | InvalidRelease(name: string)
    | ReleaseNotFound
    | DowngradingIsNotAllowed
    | UpgradingToOrFromAlphaRelease
    | SkippingRelease(skipped: Version)

  datatype Verdict = Accepted | Rejected(error: Error)

  predicate IsIgnored(cr: ReleaseCR) {
    IGNORE_ANNOTATION in cr.annotations && EqualsIgnoringCase(cr.annotations[IGNORE_ANNOTATION], "true")
  }

  predicate IsDeprecated(cr: ReleaseCR) {
    cr.state == STATE_DEPRECATED
  }

  predicate AllParse(items: seq<ReleaseCR>) {
    forall cr | cr in items :: cr.parsed.Some?
  }

  function Parsed(items: seq<ReleaseCR>): seq<Release>
    requires AllParse(items)
  {
    seq(|items|, i requires 0 <= i < |items| => Release(items[i].parsed.value, items[i]))
  }

  predicate IsActive(r: Release) {
    !IsAlpha(r.version) && !IsIgnored(r.cr) && !IsDeprecated(r.cr)
  }

  predicate Has(releases: seq<Release>, v: Version) {
    exists i :: 0 <= i < |releases| && Same(releases[i].version, v)
  }

  predicate IgnoresEither(releases: seq<Release>, current: Version, target: Version) {
    exists i :: 0 <= i < |releases| && IsIgnored(releases[i].cr)
                && (Same(releases[i].version, current) || Same(releases[i].version, target))
  }

  /** `v` lies strictly between the two versions, on a release line of its own. */
  predicate IsSkipped(v: Version, current: Version, target: Version) {
    Lt(current, v) && Lt(v, target) && !SameLine(current, v) && !SameLine(target, v)
  }

  function SkippedBy(current: Version, target: Version): Release -> bool {
    r => IsActive(r) && IsSkipped(r.version, current, target)
  }

  /** The first entry whose name does not parse. */
  function FirstUnparsable(items: seq<ReleaseCR>): ReleaseCR
    requires !AllParse(items)
  {
    if items[0].parsed.None? then items[0]
    else
      assert items == [items[0]] + items[1..];
      FirstUnparsable(items[1..])
  }

  /** The decision with its error, without the release-line guard and with all the skipped releases at hand. */
  function Decide(listing: Listing, current: Version, target: Version): Verdict {
    if Same(current, target) then Accepted
    else if listing.ListFailed? then Rejected(ListError)
    else if !AllParse(listing.items) then Rejected(InvalidRelease(FirstUnparsable(listing.items).name))
    else
      var releases := Parsed(listing.items);
      if !Has(releases, target) then Rejected(ReleaseNotFound)
      else if IgnoresEither(releases, current, target) then Accepted
      else if Lt(target, current) then Rejected(DowngradingIsNotAllowed)
      else if IsAlpha(current) || IsAlpha(target) then Rejected(UpgradingToOrFromAlphaRelease)
      else
        var skipped := Filter(SkippedBy(current, target), releases);
        if skipped == [] then Accepted else Rejected(SkippingRelease(skipped[0].version))
  }

  lemma ParsedPush(items: seq<ReleaseCR>, cr: ReleaseCR)
    requires AllParse(items) && cr.parsed.Some?
    ensures AllParse(items + [cr]) && Parsed(items + [cr]) == Parsed(items) + [Release(cr.parsed.value, cr)]
  {
  }

  lemma FirstUnparsableNext(items: seq<ReleaseCR>, i: nat)
    requires i < |items| && items[i].parsed.Some? && !AllParse(items[i..])
    ensures !AllParse(items[i + 1..]) && FirstUnparsable(items[i..]) == FirstUnparsable(items[i + 1..])
  {
    assert items[i..] == [items[i]] + items[i + 1..];
  }

  method AvailableReleases(listing: Listing) returns (result: Result<seq<Release>, Error>)
    ensures result.Success? <==> listing.Listed? && AllParse(listing.items)
    ensures result.Success? ==> result.value == Parsed(listing.items)
    ensures listing.ListFailed? ==> result == Failure(ListError)
    ensures listing.Listed? && !AllParse(listing.items) ==>
              result == Failure(InvalidRelease(FirstUnparsable(listing.items).name))
  {
    if listing.ListFailed? {
      return Failure(ListError);
    }
    var releases: seq<Release> := [];
    var i := 0;
    while i < |listing.items|
      invariant 0 <= i <= |listing.items|
      invariant AllParse(listing.items[..i]) && releases == Parsed(listing.items[..i])
      invariant !AllParse(listing.items) ==>
                  !AllParse(listing.items[i..]) && FirstUnparsable(listing.items) == FirstUnparsable(listing.items[i..])
    {
      var cr := listing.items[i];
      if cr.parsed.None? {
        assert cr in listing.items && listing.items[i..][0] == cr;
        return Failure(InvalidRelease(cr.name));
      }
      ParsedPush(listing.items[..i], cr);
      assert listing.items[..i + 1] == listing.items[..i] + [cr];
      if !AllParse(listing.items) {
        FirstUnparsableNext(listing.items, i);
      }
      releases := releases + [Release(cr.parsed.value, cr)];
      i := i + 1;
    }
    assert listing.items[..i] == listing.items;
    return Success(releases);
  }

  method FilterOutAlphaAndIgnoredAndDeprecated(releases: seq<Release>) returns (result: seq<Release>)
    ensures result == Filter(IsActive, releases)
  {
    result := [];
    for i := 0 to |releases|
      invariant result == Filter(IsActive, releases[..i])
    {
      assert releases[..i + 1][..i] == releases[..i];
      if IsAlpha(releases[i].version) {
        continue;
      }
      if IsIgnored(releases[i].cr) {
        continue;
      }
      if IsDeprecated(releases[i].cr) {
        continue;
      }
      result := result + [releases[i]];
    }
    assert releases[..|releases|] == releases;
  }

  method IsOldOrNewReleaseIgnored(releases: seq<Release>, current: Version, target: Version) returns (ignored: bool)
    ensures ignored <==> IgnoresEither(releases, current, target)
  {
    for i := 0 to |releases|
      invariant !IgnoresEither(releases[..i], current, target)
    {
      if Same(releases[i].version, current) || Same(releases[i].version, target) {
        if IsIgnored(releases[i].cr) {
          return true;
        }
      }
      assert releases[..i + 1] == releases[..i] + [releases[i]];
    }
    assert releases[..|releases|] == releases;
    return false;
  }

  method Included(releases: seq<Release>, v: Version) returns (found: bool)
    ensures found <==> Has(releases, v)
  {
    for i := 0 to |releases|
      invariant forall k :: 0 <= k < i ==> !Same(releases[k].version, v)
    {
      if Same(releases[i].version, v) {
        return true;
      }
    }
    return false;
  }

  /** On one release line there is nothing to skip, and the end points are never skipped. */
  lemma GuardsAreRedundant(v: Version, current: Version, target: Version)
    ensures SameLine(current, target) ==> !IsSkipped(v, current, target)
    ensures Same(v, current) || Same(v, target) ==> !IsSkipped(v, current, target)
  {
  }

  lemma NothingSkippedOnOneLine(releases: seq<Release>, current: Version, target: Version)
    requires SameLine(current, target)
    ensures Filter(SkippedBy(current, target), releases) == []
  {
  }

  /** The first release of the list that the change skips, found as the loop of the controller finds it. */
  method FindSkipped(releases: seq<Release>, current: Version, target: Version) returns (skipped: Option<Version>)
    requires forall r | r in releases :: IsActive(r)
    ensures var all := Filter(SkippedBy(current, target), releases);
            skipped == if all == [] then None else Some(all[0].version)
  {
    ghost var skips := SkippedBy(current, target);
    for i := 0 to |releases|
      invariant Filter(skips, releases[..i]) == []
    {
      var v := releases[i].version;
      assert releases[i] in releases;
      FilterNext(skips, releases, i);
      assert skips(releases[i]) <==> IsSkipped(v, current, target);
      GuardsAreRedundant(v, current, target);
      if Same(v, current) || Same(v, target) {
        continue;
      }
      if Lt(current, v) && Lt(v, target)
         && (current.major != v.major || current.minor != v.minor)
         && (target.major != v.major || target.minor != v.minor) {
        return Some(v);
      }
    }
    assert releases[..|releases|] == releases;
    return None;
  }

  method Validate(listing: Listing, current: Version, target: Version) returns (verdict: Verdict)
    ensures verdict == Decide(listing, current, target)
  {
    if Same(current, target) {
      return Accepted;
    }
    var available := AvailableReleases(listing);
    if available.Failure? {
      return Rejected(available.error);
    }
    var releases := available.value;
    var included := Included(releases, target);
    if !included {
      return Rejected(ReleaseNotFound);
    }
    var ignored := IsOldOrNewReleaseIgnored(releases, current, target);
    if ignored {
      return Accepted;
    }
    if Lt(target, current) {
      return Rejected(DowngradingIsNotAllowed);
    }
    if IsAlpha(current) || IsAlpha(target) {
      return Rejected(UpgradingToOrFromAlphaRelease);
    }
    FilterTwice(SkippedBy(current, target), IsActive, releases);
    FilterMembers(IsActive, releases);
    releases := FilterOutAlphaAndIgnoredAndDeprecated(releases);
    if current.major != target.major || current.minor != target.minor {
      var skipped := FindSkipped(releases, current, target);
      if skipped.Some? {
        return Rejected(SkippingRelease(skipped.value));
      }
    } else {
      NothingSkippedOnOneLine(releases, current, target);
    }
    return Accepted;
  }
}
