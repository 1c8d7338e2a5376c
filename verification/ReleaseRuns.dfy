/** What the release rules guarantee over the whole catalogue and over whole chains of upgrades. */
module ReleaseRuns {
  import opened Wrappers
  import opened Sorting
  import opened Semver
  import opened Text
  import opened ReleaseVersion

  predicate Matches(cr: ReleaseCR, v: Version) {
    cr.parsed.Some? && Same(cr.parsed.value, v)
  }

  predicate IsActiveCR(cr: ReleaseCR) {
    cr.parsed.Some? && IsActive(Release(cr.parsed.value, cr))
  }

  predicate IsListed(items: seq<ReleaseCR>, v: Version) {
    exists cr | cr in items :: Matches(cr, v)
  }

  predicate IsIgnoredVersion(items: seq<ReleaseCR>, v: Version) {
    exists cr | cr in items :: IsIgnored(cr) && Matches(cr, v)
  }

  predicate SkipsNoLine(items: seq<ReleaseCR>, a: Version, b: Version) {
    forall cr | cr in items :: IsActiveCR(cr) ==> !IsSkipped(cr.parsed.value, a, b)
  }

  /** The rule in one formula, in which the order of the catalogue plays no part. */
  predicate Allows(items: seq<ReleaseCR>, a: Version, b: Version) {
    || Same(a, b)
    || (&& AllParse(items) && IsListed(items, b)
        && (|| IsIgnoredVersion(items, a) || IsIgnoredVersion(items, b)
            || (Lt(a, b) && !IsAlpha(a) && !IsAlpha(b) && SkipsNoLine(items, a, b))))
  }

  /** The controller lets an object go from `a` to `b`. */
  predicate Step(items: seq<ReleaseCR>, a: Version, b: Version) {
    Decide(Listed(items), a, b).Accepted?
  }

  lemma ListedAsParsed(items: seq<ReleaseCR>, a: Version, b: Version)
    requires AllParse(items)
    ensures Has(Parsed(items), b) <==> IsListed(items, b)
    ensures IgnoresEither(Parsed(items), a, b) <==> IsIgnoredVersion(items, a) || IsIgnoredVersion(items, b)
  {
    var releases := Parsed(items);
    assert forall i :: 0 <= i < |items| ==> releases[i] == Release(items[i].parsed.value, items[i]);
    if Has(releases, b) {
      var i :| 0 <= i < |releases| && Same(releases[i].version, b);
      assert Matches(items[i], b);
    }
    if IgnoresEither(releases, a, b) {
      var i :| 0 <= i < |releases| && IsIgnored(releases[i].cr)
               && (Same(releases[i].version, a) || Same(releases[i].version, b));
      assert Matches(items[i], a) || Matches(items[i], b);
    }
  }

  lemma SkippedAsParsed(items: seq<ReleaseCR>, a: Version, b: Version)
    requires AllParse(items)
    ensures Filter(SkippedBy(a, b), Parsed(items)) == [] <==> SkipsNoLine(items, a, b)
  {
    var releases := Parsed(items);
    FilterMembers(SkippedBy(a, b), releases);
    var skipped := Filter(SkippedBy(a, b), releases);
    if skipped != [] {
      assert skipped[0] in releases;
      var i :| 0 <= i < |releases| && releases[i] == skipped[0];
      assert IsActiveCR(items[i]);
    } else {
      forall cr | cr in items && IsActiveCR(cr)
        ensures !IsSkipped(cr.parsed.value, a, b)
      {
        var i :| 0 <= i < |items| && items[i] == cr;
        assert releases[i] in releases && releases[i] !in skipped;
      }
    }
  }

  /** The pipeline of list, search, filter and loop accepts exactly what the formula allows. */
  lemma VerdictExactly(items: seq<ReleaseCR>, a: Version, b: Version)
    ensures Step(items, a, b) <==> Allows(items, a, b)
  {
    Antisymmetric(a, b);
    if !Same(a, b) && AllParse(items) {
      ListedAsParsed(items, a, b);
      SkippedAsParsed(items, a, b);
    }
  }

  /** A Release object with the annotation that takes it out of the rules. */
  predicate IsMarked(cr: ReleaseCR) {
    && "release.giantswarm.io/ignore" in cr.annotations
    && SpellsTrue(cr.annotations["release.giantswarm.io/ignore"])
  }

  /** A Release object that a change must not jump over, in the terms of the object itself. */
  predicate StandsBetween(cr: ReleaseCR, a: Version, b: Version) {
    && cr.parsed.Some? && !IsMarked(cr) && cr.state != "deprecated" && !Contains(VersionText(cr.parsed.value), "alpha")
    && Lt(a, cr.parsed.value) && Lt(cr.parsed.value, b)
    && (a.major != cr.parsed.value.major || a.minor != cr.parsed.value.minor)
    && (b.major != cr.parsed.value.major || b.minor != cr.parsed.value.minor)
  }

  lemma MarkedExactly(cr: ReleaseCR)
    ensures IsIgnored(cr) <==> IsMarked(cr)
  {
    if IGNORE_ANNOTATION in cr.annotations {
      TrueExactly(cr.annotations[IGNORE_ANNOTATION]);
    }
  }

  lemma StandsBetweenExactly(cr: ReleaseCR, a: Version, b: Version)
    ensures StandsBetween(cr, a, b) <==> IsActiveCR(cr) && IsSkipped(cr.parsed.value, a, b)
  {
    MarkedExactly(cr);
  }

  /** The rule in the terms of the Release objects: their annotation, their state and their version. */
  lemma VerdictInWords(items: seq<ReleaseCR>, a: Version, b: Version)
    ensures Step(items, a, b) <==>
              || Same(a, b)
              || (&& (forall cr | cr in items :: cr.parsed.Some?)
                  && (exists cr | cr in items :: cr.parsed.Some? && Same(cr.parsed.value, b))
                  && (|| (exists cr | cr in items ::
                            cr.parsed.Some? && IsMarked(cr) && (Same(cr.parsed.value, a) || Same(cr.parsed.value, b)))
                      || (&& Lt(a, b) && !Contains(VersionText(a), "alpha") && !Contains(VersionText(b), "alpha")
                          && forall cr | cr in items :: !StandsBetween(cr, a, b))))
  {
    VerdictExactly(items, a, b);
    forall cr | cr in items
      ensures IsIgnored(cr) <==> IsMarked(cr)
      ensures StandsBetween(cr, a, b) <==> IsActiveCR(cr) && IsSkipped(cr.parsed.value, a, b)
    {
      MarkedExactly(cr);
      StandsBetweenExactly(cr, a, b);
    }
    IgnoredInWords(items, a);
    IgnoredInWords(items, b);
    assert IsListed(items, b) <==> exists cr | cr in items :: cr.parsed.Some? && Same(cr.parsed.value, b) by {
      assert forall cr :: Matches(cr, b) <==> cr.parsed.Some? && Same(cr.parsed.value, b);
    }
  }

  lemma IgnoredInWords(items: seq<ReleaseCR>, v: Version)
    ensures IsIgnoredVersion(items, v) <==>
              exists cr | cr in items :: cr.parsed.Some? && IsMarked(cr) && Same(cr.parsed.value, v)
  {
    forall cr
      ensures IsIgnored(cr) <==> IsMarked(cr)
    {
      MarkedExactly(cr);
    }
    assert forall cr :: Matches(cr, v) <==> cr.parsed.Some? && Same(cr.parsed.value, v);
  }

  /** A list of Release objects that cannot be had is an error, unless there is no change at all. */
  lemma ListFailureExactly(a: Version, b: Version)
    ensures Decide(ListFailed, a, b) == if Same(a, b) then Accepted else Rejected(ListError)
  {
  }

  /** Every refusal names what is wrong: the first object that does not parse, or that is jumped over, and so on. */
  lemma RefusalIsJustified(items: seq<ReleaseCR>, a: Version, b: Version)
    ensures match Decide(Listed(items), a, b)
      case Accepted => true
      case Rejected(ListError) => false
      case Rejected(InvalidRelease(name)) =>
        exists i :: 0 <= i < |items| && items[i].parsed.None? && items[i].name == name
                    && forall k :: 0 <= k < i ==> items[k].parsed.Some?
      case Rejected(ReleaseNotFound) => !IsListed(items, b)
      case Rejected(DowngradingIsNotAllowed) => IsListed(items, b) && Lt(b, a)
      case Rejected(UpgradingToOrFromAlphaRelease) => IsListed(items, b) && Lt(a, b) && (IsAlpha(a) || IsAlpha(b))
      case Rejected(SkippingRelease(v)) =>
        && IsListed(items, b) && Lt(a, b) && !IsAlpha(a) && !IsAlpha(b)
        && exists i :: 0 <= i < |items| && StandsBetween(items[i], a, b) && items[i].parsed.value == v
                       && forall k :: 0 <= k < i ==> !StandsBetween(items[k], a, b)
  {
    Trichotomy(a, b);
    if !Same(a, b) {
      if AllParse(items) {
        ListedAsParsed(items, a, b);
        FirstSkipped(items, a, b);
      } else {
        var i := FirstUnparsableIsFirst(items);
      }
    }
  }

  lemma {:induction false} FirstUnparsableIsFirst(items: seq<ReleaseCR>) returns (i: nat)
    requires !AllParse(items)
    ensures i < |items| && items[i].parsed.None? && items[i] == FirstUnparsable(items)
    ensures forall k :: 0 <= k < i ==> items[k].parsed.Some?
  {
    if items[0].parsed.None? {
      i := 0;
    } else {
      assert items == [items[0]] + items[1..];
      var j := FirstUnparsableIsFirst(items[1..]);
      i := j + 1;
    }
  }

  lemma FirstSkipped(items: seq<ReleaseCR>, a: Version, b: Version)
    requires AllParse(items)
    ensures var skipped := Filter(SkippedBy(a, b), Parsed(items));
      skipped != [] ==>
        exists i :: 0 <= i < |items| && StandsBetween(items[i], a, b) && items[i].parsed.value == skipped[0].version
                    && forall k :: 0 <= k < i ==> !StandsBetween(items[k], a, b)
  {
    if Filter(SkippedBy(a, b), Parsed(items)) != [] {
      var i := FirstKept(SkippedBy(a, b), Parsed(items));
      forall k | 0 <= k <= i
        ensures StandsBetween(items[k], a, b) <==> SkippedBy(a, b)(Parsed(items)[k])
      {
        StandsBetweenExactly(items[k], a, b);
      }
    }
  }

  /** Reordering the catalogue never changes the verdict. */
  lemma OrderIsIrrelevant(items: seq<ReleaseCR>, others: seq<ReleaseCR>, a: Version, b: Version)
    requires multiset(items) == multiset(others)
    ensures Step(items, a, b) <==> Step(others, a, b)
  {
    VerdictExactly(items, a, b);
    VerdictExactly(others, a, b);
    assert forall cr :: cr in items <==> cr in multiset(items);
    assert forall cr :: cr in others <==> cr in multiset(others);
  }

  function Deprecate(cr: ReleaseCR): ReleaseCR {
    cr.(state := STATE_DEPRECATED)
  }

  function Ignore(cr: ReleaseCR): ReleaseCR {
    cr.(annotations := cr.annotations[IGNORE_ANNOTATION := "true"])
  }

  lemma MarkedStaysListed(items: seq<ReleaseCR>, i: nat, marked: ReleaseCR, v: Version)
    requires i < |items| && (marked == Deprecate(items[i]) || marked == Ignore(items[i]))
    ensures IsListed(items, v) ==> IsListed(items[i := marked], v)
    ensures IsIgnoredVersion(items, v) ==> IsIgnoredVersion(items[i := marked], v)
  {
    var after := items[i := marked];
    if IsListed(items, v) {
      var k :| 0 <= k < |items| && Matches(items[k], v);
      assert Matches(after[k], v);
    }
    if IsIgnoredVersion(items, v) {
      var k :| 0 <= k < |items| && IsIgnored(items[k]) && Matches(items[k], v);
      assert IsIgnored(after[k]) && Matches(after[k], v);
    }
  }

  /** Deprecating or ignoring a release never turns an accepted change into a rejected one. */
  lemma MarkingIsMonotone(items: seq<ReleaseCR>, i: nat, marked: ReleaseCR, a: Version, b: Version)
    requires i < |items| && (marked == Deprecate(items[i]) || marked == Ignore(items[i]))
    requires Step(items, a, b)
    ensures Step(items[i := marked], a, b)
  {
    var after := items[i := marked];
    VerdictExactly(items, a, b);
    VerdictExactly(after, a, b);
    MarkedStaysListed(items, i, marked, a);
    MarkedStaysListed(items, i, marked, b);
    MarkedStaysParsed(items, i, marked, a, b);
  }

  lemma MarkedStaysParsed(items: seq<ReleaseCR>, i: nat, marked: ReleaseCR, a: Version, b: Version)
    requires i < |items| && (marked == Deprecate(items[i]) || marked == Ignore(items[i]))
    ensures AllParse(items) ==> AllParse(items[i := marked])
    ensures SkipsNoLine(items, a, b) ==> SkipsNoLine(items[i := marked], a, b)
  {
  }

  lemma MarkedIsInactive(cr: ReleaseCR, marked: ReleaseCR)
    requires marked == Deprecate(cr) || marked == Ignore(cr)
    ensures !IsActiveCR(marked) && marked.parsed == cr.parsed
  {
  }

  lemma AllStillParse(items: seq<ReleaseCR>, i: nat, marked: ReleaseCR)
    requires AllParse(items) && i < |items| && marked.parsed == items[i].parsed
    ensures AllParse(items[i := marked])
  {
  }

  lemma SkipsWithout(items: seq<ReleaseCR>, i: nat, marked: ReleaseCR, a: Version, b: Version)
    requires i < |items| && !IsActiveCR(marked)
    requires forall k :: 0 <= k < |items| && k != i && IsActiveCR(items[k]) ==> !IsSkipped(items[k].parsed.value, a, b)
    ensures SkipsNoLine(items[i := marked], a, b)
  {
  }

  lemma StepWithoutSkip(items: seq<ReleaseCR>, a: Version, b: Version)
    requires AllParse(items) && IsListed(items, b) && Lt(a, b) && !IsAlpha(a) && !IsAlpha(b)
    requires SkipsNoLine(items, a, b)
    ensures Step(items, a, b)
  {
    VerdictExactly(items, a, b);
  }

  /** Ignoring the only release that is jumped over makes the change legal, as deprecating it does. */
  lemma MarkingFrees(items: seq<ReleaseCR>, i: nat, marked: ReleaseCR, a: Version, b: Version)
    requires AllParse(items) && IsListed(items, b) && Lt(a, b) && !IsAlpha(a) && !IsAlpha(b)
    requires i < |items| && (marked == Deprecate(items[i]) || marked == Ignore(items[i]))
    requires forall k :: 0 <= k < |items| && k != i && IsActiveCR(items[k]) ==> !IsSkipped(items[k].parsed.value, a, b)
    ensures Step(items[i := marked], a, b)
  {
    MarkedIsInactive(items[i], marked);
    MarkedStaysListed(items, i, marked, b);
    AllStillParse(items, i, marked);
    SkipsWithout(items, i, marked, a, b);
    StepWithoutSkip(items[i := marked], a, b);
  }

  /** A change that skips nothing can be interrupted at any listed release on the way. */
  lemma Interpolation(items: seq<ReleaseCR>, a: Version, b: Version, c: Version)
    requires Step(items, a, c) && Lt(a, c)
    requires !IsIgnoredVersion(items, a) && !IsIgnoredVersion(items, c)
    requires IsListed(items, b) && !IsAlpha(b) && Lt(a, b) && Lt(b, c)
    ensures Step(items, a, b) && Step(items, b, c)
  {
    VerdictExactly(items, a, b);
    VerdictExactly(items, b, c);
    VerdictExactly(items, a, c);
    Trichotomy(a, c);
    Interpolated(items, a, b, c);
  }

  lemma Interpolated(items: seq<ReleaseCR>, a: Version, b: Version, c: Version)
    requires Lt(a, b) && Lt(b, c) && SkipsNoLine(items, a, c)
    ensures SkipsNoLine(items, a, b) && SkipsNoLine(items, b, c)
  {
  }

  /** A chain of versions in which every change is accepted against one catalogue. */
  ghost predicate IsRun(items: seq<ReleaseCR>, run: seq<Version>) {
    |run| > 0 && forall i :: 0 <= i < |run| - 1 ==> StepAt(items, run, i)
  }

  predicate StepAt(items: seq<ReleaseCR>, run: seq<Version>, i: nat)
    requires i + 1 < |run|
  {
    Step(items, run[i], run[i + 1])
  }

  ghost predicate NoneIgnored(items: seq<ReleaseCR>, run: seq<Version>) {
    forall i :: 0 <= i < |run| ==> !IsIgnoredVersion(items, run[i])
  }

  lemma StepRises(items: seq<ReleaseCR>, a: Version, b: Version)
    requires Step(items, a, b) && !IsIgnoredVersion(items, a) && !IsIgnoredVersion(items, b)
    ensures Leq(a, b)
  {
    VerdictExactly(items, a, b);
    Antisymmetric(a, b);
  }

  lemma RunRises(items: seq<ReleaseCR>, run: seq<Version>, i: nat)
    requires IsRun(items, run) && NoneIgnored(items, run) && i + 1 < |run|
    ensures Leq(run[i], run[i + 1])
  {
    assert StepAt(items, run, i);
    StepRises(items, run[i], run[i + 1]);
  }

  /** Without ignored releases a run never goes down. */
  lemma {:induction false} RunsNeverGoDown(items: seq<ReleaseCR>, run: seq<Version>, i: nat, j: nat)
    requires IsRun(items, run) && NoneIgnored(items, run) && i <= j < |run|
    ensures Leq(run[i], run[j])
    decreases j - i
  {
    if i < j {
      RunsNeverGoDown(items, run, i, j - 1);
      RunRises(items, run, j - 1);
      Chain(run[i], run[j - 1], run[j]);
    } else {
      Trichotomy(run[i], run[i]);
    }
  }

  lemma StepVisitsLine(items: seq<ReleaseCR>, a: Version, b: Version, cr: ReleaseCR)
    requires Step(items, a, b) && !IsIgnoredVersion(items, a) && !IsIgnoredVersion(items, b)
    requires cr in items && IsActiveCR(cr) && Lt(a, cr.parsed.value) && !Lt(b, cr.parsed.value)
    ensures SameLine(a, cr.parsed.value) || SameLine(b, cr.parsed.value)
  {
    var v := cr.parsed.value;
    VerdictExactly(items, a, b);
    Chain(a, v, b);
    Trichotomy(a, b);
    if !Lt(v, b) {
      Trichotomy(v, b);
    }
  }

  lemma TailRun(items: seq<ReleaseCR>, run: seq<Version>)
    requires IsRun(items, run) && |run| > 1
    ensures IsRun(items, run[1..])
    ensures NoneIgnored(items, run) ==> NoneIgnored(items, run[1..])
  {
    var rest := run[1..];
    forall i | 0 <= i < |rest| - 1
      ensures StepAt(items, rest, i)
    {
      assert StepAt(items, run, i + 1);
    }
  }

  /**
   * No run jumps over a release line: the line of every active release strictly between the ends of
   * the run is the line of some version in the run.
   */
  lemma {:induction false} NoLineIsSkipped(items: seq<ReleaseCR>, run: seq<Version>, cr: ReleaseCR)
    requires IsRun(items, run) && NoneIgnored(items, run)
    requires cr in items && IsActiveCR(cr)
    requires Lt(run[0], cr.parsed.value) && Lt(cr.parsed.value, run[|run| - 1])
    ensures exists i :: 0 <= i < |run| && SameLine(run[i], cr.parsed.value)
    decreases |run|
  {
    var v := cr.parsed.value;
    Trichotomy(run[0], v);
    Chain(run[0], v, run[0]);
    if Lt(run[1], v) {
      var rest := run[1..];
      TailRun(items, run);
      NoLineIsSkipped(items, rest, cr);
      var i :| 0 <= i < |rest| && SameLine(rest[i], v);
      assert SameLine(run[i + 1], v);
    } else {
      assert StepAt(items, run, 0);
      StepVisitsLine(items, run[0], run[1], cr);
    }
  }

  predicate IsAhead(a: Version, b: Version, cr: ReleaseCR) {
    IsActiveCR(cr) && Lt(a, cr.parsed.value) && Leq(cr.parsed.value, b)
  }

  /** How many active releases lie above `a` and not above `b`. */
  function CountAhead(items: seq<ReleaseCR>, a: Version, b: Version): nat {
    if |items| == 0 then 0
    else (if IsAhead(a, b, items[0]) then 1 else 0) + CountAhead(items[1..], a, b)
  }

  lemma {:induction false} CountShrinks(items: seq<ReleaseCR>, a: Version, m: ReleaseCR, b: Version)
    requires m.parsed.Some? && Lt(a, m.parsed.value)
    ensures CountAhead(items, m.parsed.value, b) <= CountAhead(items, a, b)
    ensures m in items && IsAhead(a, b, m) ==> CountAhead(items, m.parsed.value, b) < CountAhead(items, a, b)
  {
    if |items| > 0 {
      var cr := items[0];
      CountShrinks(items[1..], a, m, b);
      assert items == [cr] + items[1..];
      if cr.parsed.Some? {
        Chain(a, m.parsed.value, cr.parsed.value);
        Trichotomy(m.parsed.value, m.parsed.value);
      }
    }
  }

  /** The least active release above `a`, when there is one. */
  lemma {:induction false} NextActive(items: seq<ReleaseCR>, a: Version) returns (next: ReleaseCR)
    requires exists cr | cr in items :: IsActiveCR(cr) && Lt(a, cr.parsed.value)
    ensures next in items && IsActiveCR(next) && Lt(a, next.parsed.value)
    ensures forall cr | cr in items ::
              IsActiveCR(cr) && Lt(a, cr.parsed.value) ==> Leq(next.parsed.value, cr.parsed.value)
  {
    var head, tail := items[0], items[1..];
    assert items == [head] + tail;
    if exists cr | cr in tail :: IsActiveCR(cr) && Lt(a, cr.parsed.value) {
      var best := NextActive(tail, a);
      next := best;
      if IsActiveCR(head) && Lt(a, head.parsed.value) {
        Trichotomy(head.parsed.value, best.parsed.value);
        if Lt(head.parsed.value, best.parsed.value) {
          next := head;
          forall cr | cr in tail && IsActiveCR(cr) && Lt(a, cr.parsed.value)
            ensures Leq(head.parsed.value, cr.parsed.value)
          {
            Chain(head.parsed.value, best.parsed.value, cr.parsed.value);
          }
        }
      }
      Trichotomy(next.parsed.value, next.parsed.value);
    } else {
      next := head;
      Trichotomy(head.parsed.value, head.parsed.value);
    }
  }

  /** From a non-alpha version the next active release is always one accepted change away. */
  lemma StepToNext(items: seq<ReleaseCR>, a: Version, b: Version)
    requires AllParse(items) && !IsAlpha(a) && !IsAlpha(b) && IsListed(items, b) && Lt(a, b)
    requires forall cr | cr in items :: IsActiveCR(cr) && Lt(a, cr.parsed.value) ==> Leq(b, cr.parsed.value)
    ensures Step(items, a, b)
  {
    VerdictExactly(items, a, b);
  }

  lemma PrependStep(items: seq<ReleaseCR>, a: Version, rest: seq<Version>)
    requires IsRun(items, rest) && Step(items, a, rest[0])
    ensures IsRun(items, [a] + rest)
  {
    var run := [a] + rest;
    forall i | 0 <= i < |run| - 1
      ensures StepAt(items, run, i)
    {
      if i > 0 {
        assert StepAt(items, rest, i - 1);
      }
    }
  }

  /**
   * Every active release above a non-alpha version can be reached by accepted changes, in no more
   * steps than there are active releases on the way.
   */
  lemma {:induction false} Reachable(items: seq<ReleaseCR>, a: Version, goal: ReleaseCR) returns (run: seq<Version>)
    requires AllParse(items) && !IsAlpha(a)
    requires goal in items && IsActiveCR(goal) && Lt(a, goal.parsed.value)
    ensures IsRun(items, run) && run[0] == a && run[|run| - 1] == goal.parsed.value
    ensures |run| - 1 <= CountAhead(items, a, goal.parsed.value)
    decreases CountAhead(items, a, goal.parsed.value)
  {
    var b := goal.parsed.value;
    var next := NextActive(items, a);
    var v := next.parsed.value;
    CountShrinks(items, a, next, b);
    Trichotomy(v, b);
    Trichotomy(b, b);
    if Lt(v, b) {
      assert IsListed(items, v) by {
        assert Matches(next, v);
      }
      StepToNext(items, a, v);
      var rest := Reachable(items, v, goal);
      run := [a] + rest;
      PrependStep(items, a, rest);
    } else {
      assert IsListed(items, b) by {
        assert Matches(goal, b);
      }
      forall cr | cr in items && IsActiveCR(cr) && Lt(a, cr.parsed.value)
        ensures Leq(b, cr.parsed.value)
      {
        Chain(b, v, cr.parsed.value);
      }
      StepToNext(items, a, b);
      CountShrinks(items, a, goal, b);
      run := [a, b];
    }
  }

  /** An ignored release lifts every other rule: it may even be the goal of a downgrade. */
  lemma IgnoredLiftsTheRules(items: seq<ReleaseCR>, a: Version, b: Version)
    requires AllParse(items) && IsListed(items, b)
    requires IsIgnoredVersion(items, a) || IsIgnoredVersion(items, b)
    ensures Step(items, a, b)
  {
    VerdictExactly(items, a, b);
  }

  /**
   * Accepted upgrades need not compose: two of them in a row can be made in one step exactly when the
   * pair skips no line, so not when the version in between is an active release on a line of its own.
   */
  lemma StepsComposeExactly(items: seq<ReleaseCR>, a: Version, b: Version, c: Version)
    requires Step(items, a, b) && Step(items, b, c) && Lt(a, b) && Lt(b, c)
    requires !IsIgnoredVersion(items, a) && !IsIgnoredVersion(items, b) && !IsIgnoredVersion(items, c)
    ensures Step(items, a, c) <==> SkipsNoLine(items, a, c)
    ensures (exists cr | cr in items :: IsActiveCR(cr) && Same(cr.parsed.value, b))
            && !SameLine(a, b) && !SameLine(b, c) ==>
              !Step(items, a, c)
  {
    VerdictExactly(items, a, b);
    VerdictExactly(items, b, c);
    VerdictExactly(items, a, c);
    Chain(a, b, c);
    Trichotomy(a, b);
    Trichotomy(b, c);
    Trichotomy(a, c);
    forall cr | cr in items && IsActiveCR(cr) && Same(cr.parsed.value, b) && !SameLine(a, b) && !SameLine(b, c)
      ensures IsSkipped(cr.parsed.value, a, c)
    {
      SameIsSkipped(cr.parsed.value, a, b, c);
    }
  }

  lemma SameIsSkipped(v: Version, a: Version, b: Version, c: Version)
    requires Same(v, b) && Lt(a, b) && Lt(b, c) && !SameLine(a, b) && !SameLine(b, c)
    ensures IsSkipped(v, a, c)
  {
  }

  /** A release that is neither deprecated nor ignored. */
  function ActiveRelease(v: Version): ReleaseCR {
    ReleaseCR(VersionText(v), Some(v), map[], "active")
  }

  function ThreeReleases(a: Version, b: Version, c: Version): seq<ReleaseCR> {
    [ActiveRelease(a), ActiveRelease(b), ActiveRelease(c)]
  }

  /** Three non-alpha versions in ascending order, on release lines of their own. */
  predicate OnThreeLines(a: Version, b: Version, c: Version) {
    && !IsAlpha(a) && !IsAlpha(b) && !IsAlpha(c)
    && Lt(a, b) && Lt(b, c) && !SameLine(a, b) && !SameLine(b, c)
  }

  lemma ActiveReleaseIsActive(v: Version)
    requires !IsAlpha(v)
    ensures IsActiveCR(ActiveRelease(v)) && !IsIgnored(ActiveRelease(v)) && Matches(ActiveRelease(v), v)
  {
    Trichotomy(v, v);
    assert "active" != STATE_DEPRECATED;
  }

  /** A change to a listed release is accepted when no release lies in between. */
  lemma StepToNeighbour(items: seq<ReleaseCR>, a: Version, b: Version)
    requires AllParse(items) && IsListed(items, b) && Lt(a, b) && !IsAlpha(a) && !IsAlpha(b)
    requires forall cr | cr in items :: !(Lt(a, cr.parsed.value) && Lt(cr.parsed.value, b))
    ensures Step(items, a, b)
  {
    VerdictExactly(items, a, b);
  }

  lemma NeighboursOfThree(a: Version, b: Version, c: Version)
    requires Lt(a, b) && Lt(b, c)
    ensures forall cr | cr in ThreeReleases(a, b, c) :: !(Lt(a, cr.parsed.value) && Lt(cr.parsed.value, b))
    ensures forall cr | cr in ThreeReleases(a, b, c) :: !(Lt(b, cr.parsed.value) && Lt(cr.parsed.value, c))
  {
    Trichotomy(a, a);
    Trichotomy(b, b);
    Trichotomy(c, c);
    Trichotomy(a, b);
    Trichotomy(b, c);
  }

  lemma NoneOfThreeIsIgnored(a: Version, b: Version, c: Version, v: Version)
    ensures !IsIgnoredVersion(ThreeReleases(a, b, c), v)
  {
  }

  /** Against the catalogue of three such releases both single steps are accepted and the double step is not. */
  lemma ThreeLinesDoNotCompose(a: Version, b: Version, c: Version)
    requires OnThreeLines(a, b, c)
    ensures Step(ThreeReleases(a, b, c), a, b) && Step(ThreeReleases(a, b, c), b, c)
    ensures !Step(ThreeReleases(a, b, c), a, c)
  {
    var items := ThreeReleases(a, b, c);
    ActiveReleaseIsActive(b);
    ActiveReleaseIsActive(c);
    assert items[1] in items && items[2] in items;
    NeighboursOfThree(a, b, c);
    StepToNeighbour(items, a, b);
    StepToNeighbour(items, b, c);
    NoneOfThreeIsIgnored(a, b, c, a);
    NoneOfThreeIsIgnored(a, b, c, b);
    NoneOfThreeIsIgnored(a, b, c, c);
    StepsComposeExactly(items, a, b, c);
  }

  lemma NumbersAreNotAlpha(major: nat, minor: nat)
    ensures !IsAlpha(Version(major, minor, 0, [], []))
  {
    AlphaExactly(Version(major, minor, 0, [], []));
  }

  /** For instance 1.0.0 may become 1.1.0 and that 1.2.0, but 1.0.0 may not become 1.2.0. */
  lemma StepsNeedNotCompose(items: seq<ReleaseCR>, a: Version, b: Version, c: Version)
    requires a == Version(1, 0, 0, [], []) && b == Version(1, 1, 0, [], []) && c == Version(1, 2, 0, [], [])
    requires items == ThreeReleases(a, b, c)
    ensures Step(items, a, b) && Step(items, b, c) && !Step(items, a, c)
  {
    NumbersAreNotAlpha(1, 0);
    NumbersAreNotAlpha(1, 1);
    NumbersAreNotAlpha(1, 2);
    ThreeLinesDoNotCompose(a, b, c);
  }

  /** With the middle release of three marked as ignored, the change that jumps over it is accepted. */
  lemma IgnoredDoesNotBlock(items: seq<ReleaseCR>, ignored: ReleaseCR, a: Version, b: Version, c: Version)
    requires a == Version(1, 0, 0, [], []) && b == Version(1, 1, 0, [], []) && c == Version(1, 2, 0, [], [])
    requires ignored == ReleaseCR(VersionText(b), Some(b), map["release.giantswarm.io/ignore" := "true"], "active")
    requires items == [ActiveRelease(a), ignored, ActiveRelease(c)]
    ensures Step(items, a, c)
  {
    NumbersAreNotAlpha(1, 0);
    NumbersAreNotAlpha(1, 2);
    var plain := ThreeReleases(a, b, c);
    ActiveReleaseIsActive(c);
    assert plain[2] in plain;
    Trichotomy(a, a);
    Trichotomy(c, c);
    MarkingFrees(plain, 1, Ignore(plain[1]), a, c);
    assert items == plain[1 := Ignore(plain[1])];
  }
}
