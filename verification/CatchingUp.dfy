/** When an AzureCluster can take over the release of its Cluster, and when it never can again. */
module CatchingUp {
  import opened Wrappers
  import opened Semver
  import ReleaseVersion
  import opened ReleaseRuns
  import opened Conditions
  import opened Clusters
  import opened Upgrades

  /** The state after the AzureCluster has taken over the release of the Cluster. */
  function CaughtUp(s: System): System {
    s.(azure := s.azure.(release := s.cluster.release, deleting := false))
  }

  /** Versions with the same precedence cannot be told apart by comparing them with others. */
  lemma SameAlike(a: Version, b: Version, v: Version)
    requires Same(a, b)
    ensures SameLine(a, b)
    ensures Lt(a, v) == Lt(b, v) && Lt(v, a) == Lt(v, b) && Same(v, a) == Same(v, b)
  {
    SameExactly(a, b);
    SameExactly(v, a);
    SameExactly(v, b);
  }

  lemma IgnoredAlike(items: Catalogue, a: Version, b: Version)
    requires Same(a, b)
    ensures IsIgnoredVersion(items, a) <==> IsIgnoredVersion(items, b)
    ensures IsListed(items, a) <==> IsListed(items, b)
  {
    forall cr | cr in items && cr.parsed.Some?
      ensures Same(cr.parsed.value, a) == Same(cr.parsed.value, b)
    {
      SameAlike(a, b, cr.parsed.value);
    }
    assert forall cr | cr in items :: Matches(cr, a) == Matches(cr, b);
  }

  lemma NeverIgnored(items: Catalogue, states: seq<System>, i: nat)
    requires ClusterAvoidsIgnored(items, states) && i < |states| && states[i].cluster.release.Some?
    ensures !IsIgnoredVersion(items, states[i].cluster.release.value)
  {
  }

  /** As long as the Cluster has no ignored release, the AzureCluster has none either. */
  lemma AzureAvoidsIgnored(items: Catalogue, states: seq<System>, writes: seq<Write>, i: nat)
    requires IsTrace(items, states, writes) && StartsEqual(states[0]) && i < |states|
    requires ClusterAvoidsIgnored(items, states)
    ensures HasReleases(states[i]) && !IsIgnoredVersion(items, states[i].azure.release.value)
  {
    ReleasesStay(items, states, writes, i);
    var j := AzureFollowsCluster(items, states, writes, i);
    NeverIgnored(items, states, j);
    IgnoredAlike(items, states[i].azure.release.value, states[j].cluster.release.value);
  }

  /** A Cluster that has moved since `j` has a release of the catalogue. */
  lemma {:induction false} MovedClusterIsListed(
      items: Catalogue, states: seq<System>, writes: seq<Write>, j: nat, i: nat)
    requires IsTrace(items, states, writes) && HasReleases(states[0]) && j <= i < |states|
    ensures HasReleases(states[j]) && HasReleases(states[i])
    ensures || Same(states[i].cluster.release.value, states[j].cluster.release.value)
            || (ReleaseVersion.AllParse(items) && IsListed(items, states[i].cluster.release.value))
    decreases i - j
  {
    ReleasesStay(items, states, writes, j);
    if j == i {
      Trichotomy(states[i].cluster.release.value, states[i].cluster.release.value);
    } else {
      MovedClusterIsListed(items, states, writes, j, i - 1);
      assert NextAt(items, states, writes, i - 1);
      NextKeepsReleases(items, states[i - 1], writes[i - 1], states[i]);
      var was, now := states[i - 1].cluster.release.value, states[i].cluster.release.value;
      VerdictExactly(items, was, now);
      if Same(was, now) {
        Trichotomy(was, now);
        SameAlike(now, was, states[j].cluster.release.value);
        Trichotomy(now, states[j].cluster.release.value);
        Trichotomy(was, states[j].cluster.release.value);
        IgnoredAlike(items, now, was);
      }
    }
  }

  /** An AzureCluster that differs from its Cluster is behind it, and the Cluster's release is in the catalogue. */
  lemma BehindAListedRelease(items: Catalogue, states: seq<System>, writes: seq<Write>, i: nat)
    requires IsTrace(items, states, writes) && StartsEqual(states[0]) && i < |states|
    requires ClusterAvoidsIgnored(items, states) && HasReleases(states[i])
    requires !Same(states[i].azure.release.value, states[i].cluster.release.value)
    ensures Lt(states[i].azure.release.value, states[i].cluster.release.value)
    ensures ReleaseVersion.AllParse(items) && IsListed(items, states[i].cluster.release.value)
  {
    var a, c := states[i].azure.release.value, states[i].cluster.release.value;
    AzureNeverAhead(items, states, writes, i);
    Trichotomy(a, c);
    var j := AzureFollowsCluster(items, states, writes, i);
    MovedClusterIsListed(items, states, writes, j, i);
    SameAlike(a, states[j].cluster.release.value, c);
    Trichotomy(a, c);
  }

  /**
   * When the AzureCluster can catch up with the Cluster, in any interleaving without ignored releases:
   * when it has caught up already, or neither release is alpha and no active release line between the
   * two is left out.
   */
  lemma CatchingUpExactly(items: Catalogue, states: seq<System>, writes: seq<Write>, i: nat, others: Externals)
    requires IsTrace(items, states, writes) && StartsEqual(states[0]) && i < |states|
    requires ClusterAvoidsIgnored(items, states)
    requires others.libraryAllows && states[i].azure.organization.Some?
    ensures HasReleases(states[i])
    ensures Next(items, states[i], AzureClusterWrite(others, false), CaughtUp(states[i])) <==>
              || Same(states[i].azure.release.value, states[i].cluster.release.value)
              || (&& !IsAlpha(states[i].azure.release.value) && !IsAlpha(states[i].cluster.release.value)
                  && SkipsNoLine(items, states[i].azure.release.value, states[i].cluster.release.value))
  {
    AzureAvoidsIgnored(items, states, writes, i);
    var s, t := states[i], CaughtUp(states[i]);
    var a, c := s.azure.release.value, s.cluster.release.value;
    NeverIgnored(items, states, i);
    Trichotomy(c, c);
    AzureClusterUpdateExactly(items, s.azure, t.azure, Owner(s.cluster.release), others);
    VerdictExactly(items, a, c);
    if !Same(a, c) {
      BehindAListedRelease(items, states, writes, i);
    }
  }

  lemma SkipsAlike(items: Catalogue, a: Version, b: Version, c: Version)
    requires Same(a, b)
    ensures SkipsNoLine(items, a, c) <==> SkipsNoLine(items, b, c)
  {
    forall cr | cr in items && IsActiveCR(cr)
      ensures ReleaseVersion.IsSkipped(cr.parsed.value, a, c) == ReleaseVersion.IsSkipped(cr.parsed.value, b, c)
    {
      SameAlike(a, b, cr.parsed.value);
    }
  }

  lemma StepAlike(items: Catalogue, a: Version, b: Version, c: Version)
    requires Same(a, b) && !IsAlpha(a) && Step(items, b, c)
    ensures Step(items, a, c)
  {
    VerdictExactly(items, b, c);
    VerdictExactly(items, a, c);
    SameAlike(a, b, c);
    Trichotomy(a, c);
    Trichotomy(b, c);
    IgnoredAlike(items, a, b);
    SkipsAlike(items, a, b, c);
  }

  /** A Cluster that waits for its AzureCluster does not leave it behind, unless that has an alpha release. */
  lemma InStepNeverLeftBehind(items: Catalogue, s: System, others: Externals, t: System)
    requires HasReleases(s) && Same(s.azure.release.value, s.cluster.release.value)
    requires Next(items, s, ClusterWrite(others), t) && !IsAlpha(s.azure.release.value)
    ensures HasReleases(t) && Step(items, t.azure.release.value, t.cluster.release.value)
  {
    NextKeepsReleases(items, s, ClusterWrite(others), t);
    StepAlike(items, s.azure.release.value, s.cluster.release.value, t.cluster.release.value);
  }

  /** Nothing but the release rules stands in the way of a release change. */
  predicate IsReady(s: System) {
    && !s.cluster.deleting && !s.azure.deleting
    && s.cluster.organization.Some? && s.azure.organization.Some? && HasPort(s.cluster.network)
    && ClusterObjection(s.cluster.conditions, s.cluster.conditions).None?
    && !IsTrue(s.cluster.conditions, CREATING) && !IsTrue(s.cluster.conditions, UPGRADING)
  }

  function WithReleases(s: System, cluster: Version, azure: Version): System {
    System(s.cluster.(release := Some(cluster)), s.azure.(release := Some(azure)))
  }

  const ALLOWED := Externals(true, true)

  lemma ClusterMoves(items: Catalogue, s: System, to: Version)
    requires IsReady(s) && HasReleases(s) && Step(items, s.cluster.release.value, to)
    ensures Next(items, s, ClusterWrite(ALLOWED), WithReleases(s, to, s.azure.release.value))
  {
    ClusterUpdateExactly(items, s.cluster, s.cluster.(release := Some(to)), ALLOWED);
  }

  lemma AzureMoves(items: Catalogue, s: System, to: Version)
    requires IsReady(s) && HasReleases(s) && Step(items, s.azure.release.value, to) && s.cluster.release.value == to
    ensures Next(items, s, AzureClusterWrite(ALLOWED, false), WithReleases(s, to, to))
  {
    Trichotomy(to, to);
    AzureClusterUpdateExactly(
      items, s.azure, s.azure.(release := Some(to)), Owner(s.cluster.release), ALLOWED);
  }

  /** First the Cluster, then the AzureCluster. */
  lemma BothMove(items: Catalogue, s: System, to: Version)
    requires IsReady(s) && HasReleases(s)
    requires Step(items, s.cluster.release.value, to) && Step(items, s.azure.release.value, to)
    ensures Next(items, s, ClusterWrite(ALLOWED), WithReleases(s, to, s.azure.release.value))
    ensures Next(items, WithReleases(s, to, s.azure.release.value), AzureClusterWrite(ALLOWED, false),
                 WithReleases(s, to, to))
    ensures IsReady(WithReleases(s, to, to)) && HasReleases(WithReleases(s, to, to))
  {
    ClusterMoves(items, s, to);
    AzureMoves(items, WithReleases(s, to, s.azure.release.value), to);
  }

  lemma FirstSteps(items: Catalogue, run: seq<Version>)
    requires IsRun(items, run) && |run| > 1
    ensures IsRun(items, run[1..]) && Step(items, run[0], run[1])
    ensures |run| > 2 ==> Step(items, run[1], run[2])
  {
    TailRun(items, run);
    assert StepAt(items, run, 0);
    assert |run| > 2 ==> StepAt(items, run, 1);
  }

  lemma PrependTwo(
      items: Catalogue, s: System, w: Write, t: System, x: Write, states: seq<System>, writes: seq<Write>)
    requires IsTrace(items, states, writes) && Next(items, s, w, t) && Next(items, t, x, states[0])
    ensures IsTrace(items, [s, t] + states, [w, x] + writes)
  {
    var all, ws := [s, t] + states, [w, x] + writes;
    forall i | 0 <= i < |ws|
      ensures NextAt(items, all, ws, i)
    {
      if i >= 2 {
        assert NextAt(items, states, writes, i - 2);
      }
    }
  }

  /** An admitted interleaving from `s` that brings both objects to the version. */
  ghost predicate LeadsTo(items: Catalogue, s: System, v: Version, states: seq<System>, writes: seq<Write>) {
    && IsTrace(items, states, writes) && states[0] == s
    && states[|writes|] == WithReleases(s, v, v)
  }

  lemma Stay(items: Catalogue, s: System, v: Version)
    requires s == WithReleases(s, v, v)
    ensures LeadsTo(items, s, v, [s], [])
  {
  }

  lemma LeadsOn(items: Catalogue, s: System, to: Version, v: Version, states: seq<System>, writes: seq<Write>)
    requires IsReady(s) && HasReleases(s)
    requires Step(items, s.cluster.release.value, to) && Step(items, s.azure.release.value, to)
    requires LeadsTo(items, WithReleases(s, to, to), v, states, writes)
    ensures LeadsTo(items, s, v, [s, WithReleases(s, to, s.azure.release.value)] + states,
                    [ClusterWrite(ALLOWED), AzureClusterWrite(ALLOWED, false)] + writes)
  {
    BothMove(items, s, to);
    PrependTwo(items, s, ClusterWrite(ALLOWED), WithReleases(s, to, s.azure.release.value),
               AzureClusterWrite(ALLOWED, false), states, writes);
  }

  /** Along a run the two objects can go together, the AzureCluster one write behind the Cluster. */
  lemma {:induction false} GoTogether(items: Catalogue, s: System, run: seq<Version>)
    returns (states: seq<System>, writes: seq<Write>)
    requires IsRun(items, run) && |run| > 1 && IsReady(s) && HasReleases(s)
    requires s.cluster.release.value == run[0] && Step(items, s.azure.release.value, run[1])
    ensures LeadsTo(items, s, run[|run| - 1], states, writes) && |writes| == 2 * (|run| - 1)
    decreases |run|
  {
    var to := run[1];
    var u := WithReleases(s, to, to);
    FirstSteps(items, run);
    if |run| == 2 {
      states, writes := [u], [];
      Stay(items, u, to);
    } else {
      states, writes := GoTogether(items, u, run[1..]);
    }
    LeadsOn(items, s, to, run[|run| - 1], states, writes);
    states := [s, WithReleases(s, to, s.azure.release.value)] + states;
    writes := [ClusterWrite(ALLOWED), AzureClusterWrite(ALLOWED, false)] + writes;
  }

  /**
   * From equal non-alpha releases both objects can reach every newer active release, by no more than two
   * admitted writes for every active release on the way.
   */
  lemma BothReach(items: Catalogue, s: System, goal: ReleaseVersion.ReleaseCR)
    returns (states: seq<System>, writes: seq<Write>)
    requires ReleaseVersion.AllParse(items) && IsReady(s) && StartsEqual(s)
    requires !IsAlpha(s.cluster.release.value) && !IsAlpha(s.azure.release.value)
    requires goal in items && IsActiveCR(goal) && Lt(s.cluster.release.value, goal.parsed.value)
    ensures LeadsTo(items, s, goal.parsed.value, states, writes)
    ensures |writes| <= 2 * CountAhead(items, s.cluster.release.value, goal.parsed.value)
  {
    var a, b := s.azure.release.value, s.cluster.release.value;
    var run := Reachable(items, b, goal);
    Trichotomy(b, b);
    assert |run| > 1;
    assert StepAt(items, run, 0);
    StepAlike(items, a, b, run[1]);
    states, writes := GoTogether(items, s, run);
  }

  /** Some active release lies between the two objects, on a release line of its own. */
  predicate LiesBetween(cr: ReleaseVersion.ReleaseCR, s: System) {
    HasReleases(s) && IsActiveCR(cr)
    && ReleaseVersion.IsSkipped(cr.parsed.value, s.azure.release.value, s.cluster.release.value)
  }

  lemma SkippingIsRejected(items: Catalogue, cr: ReleaseVersion.ReleaseCR, a: Version, c: Version)
    requires cr in items && IsActiveCR(cr) && ReleaseVersion.IsSkipped(cr.parsed.value, a, c)
    requires !IsIgnoredVersion(items, a) && !IsIgnoredVersion(items, c)
    ensures !Step(items, a, c)
  {
    VerdictExactly(items, a, c);
    Chain(a, cr.parsed.value, c);
    Trichotomy(a, c);
  }

  /** What is skipped stays skipped when the lower version stays and the upper one rises. */
  lemma StillSkipped(v: Version, a: Version, a': Version, c: Version, c': Version)
    requires ReleaseVersion.IsSkipped(v, a, c) && Same(a', a) && Leq(c, c')
    ensures ReleaseVersion.IsSkipped(v, a', c')
  {
    SameAlike(a', a, v);
    Chain(v, c, c');
    Trichotomy(v, c);
    LinesAreMonotone(v, c);
    LinesAreMonotone(c, c');
  }

  /** A change of the AzureCluster to the release `c` of the Cluster, or to its own, when `v` is skipped. */
  lemma BehindStays(
      items: Catalogue, cr: ReleaseVersion.ReleaseCR, a: Version, a': Version, c: Version, c': Version)
    requires cr in items && IsActiveCR(cr) && ReleaseVersion.IsSkipped(cr.parsed.value, a, c)
    requires !IsIgnoredVersion(items, a) && !IsIgnoredVersion(items, a') && Step(items, a, a')
    requires (Same(a', a) || Same(a', c)) && Leq(c, c')
    ensures Same(a', a) && ReleaseVersion.IsSkipped(cr.parsed.value, a', c')
  {
    if !Same(a', a) {
      Trichotomy(a, a);
      Trichotomy(c, a');
      StillSkipped(cr.parsed.value, a, a, c, a');
      SkippingIsRejected(items, cr, a, a');
    }
    StillSkipped(cr.parsed.value, a, a', c, c');
  }

  /** A write cannot help an AzureCluster that has been left behind. */
  lemma NextKeepsBehind(
      items: Catalogue, states: seq<System>, writes: seq<Write>, cr: ReleaseVersion.ReleaseCR, j: nat)
    requires IsTrace(items, states, writes) && StartsEqual(states[0]) && 0 < j < |states|
    requires ClusterAvoidsIgnored(items, states)
    requires cr in items && LiesBetween(cr, states[j - 1])
    ensures HasReleases(states[j]) && Same(states[j].azure.release.value, states[j - 1].azure.release.value)
    ensures LiesBetween(cr, states[j])
  {
    var s, t := states[j - 1], states[j];
    AzureAvoidsIgnored(items, states, writes, j - 1);
    AzureAvoidsIgnored(items, states, writes, j);
    AzureStep(items, states, writes, j);
    ClusterNeverGoesDown(items, states, writes, j - 1, j);
    BehindStays(
      items, cr, s.azure.release.value, t.azure.release.value, s.cluster.release.value, t.cluster.release.value);
  }

  /**
   * Once an active release lies between the two objects, on a line of its own, the AzureCluster keeps
   * its release for ever: no later write changes it, and the Cluster's release stays out of its reach.
   */
  lemma {:induction false} LeftBehindForever(
      items: Catalogue, states: seq<System>, writes: seq<Write>, cr: ReleaseVersion.ReleaseCR, i: nat, j: nat)
    requires IsTrace(items, states, writes) && StartsEqual(states[0]) && i <= j < |states|
    requires ClusterAvoidsIgnored(items, states)
    requires cr in items && LiesBetween(cr, states[i])
    ensures HasReleases(states[j]) && Same(states[j].azure.release.value, states[i].azure.release.value)
    ensures LiesBetween(cr, states[j])
    ensures !Step(items, states[j].azure.release.value, states[j].cluster.release.value)
    decreases j - i
  {
    if i == j {
      Trichotomy(states[i].azure.release.value, states[i].azure.release.value);
    } else {
      LeftBehindForever(items, states, writes, cr, i, j - 1);
      NextKeepsBehind(items, states, writes, cr, j);
      SameTransitive(states[j].azure.release.value, states[j - 1].azure.release.value, states[i].azure.release.value);
    }
    AzureAvoidsIgnored(items, states, writes, j);
    NeverIgnored(items, states, j);
    SkippingIsRejected(items, cr, states[j].azure.release.value, states[j].cluster.release.value);
  }

  /** A Cluster and its AzureCluster with the given releases, and nothing else worth mentioning. */
  function Objects(cluster: Version, azure: Version): System {
    var endpoint := Endpoint("", CONTROL_PLANE_ENDPOINT_PORT);
    System(Cluster("", Some(""), Some(cluster), None, endpoint, [], false),
           AzureCluster(Some(""), Some(azure), endpoint, false))
  }

  /** The Cluster moves twice while the AzureCluster stays. */
  lemma TwoMoves(items: Catalogue, a: Version, b: Version, c: Version, states: seq<System>, writes: seq<Write>)
    requires Step(items, a, b) && Step(items, b, c)
    requires states == [Objects(a, a), Objects(b, a), Objects(c, a)]
    requires writes == [ClusterWrite(ALLOWED), ClusterWrite(ALLOWED)]
    ensures IsTrace(items, states, writes) && StartsEqual(states[0])
  {
    ConditionsExactly([], []);
    ClusterMoves(items, states[0], b);
    ClusterMoves(items, states[1], c);
    assert NextAt(items, states, writes, 0) && NextAt(items, states, writes, 1);
    Trichotomy(a, a);
  }

  /**
   * It does happen: with three active releases on lines of their own the Cluster may go through all of
   * them, by two admitted writes, after which the AzureCluster at the first can never follow.
   */
  lemma AzureMayBeLeftBehind(
      a: Version, b: Version, c: Version, items: Catalogue, states: seq<System>, writes: seq<Write>)
    requires OnThreeLines(a, b, c) && items == ThreeReleases(a, b, c)
    requires states == [Objects(a, a), Objects(b, a), Objects(c, a)]
    requires writes == [ClusterWrite(ALLOWED), ClusterWrite(ALLOWED)]
    ensures IsTrace(items, states, writes) && StartsEqual(states[0]) && ClusterAvoidsIgnored(items, states)
    ensures ActiveRelease(b) in items && LiesBetween(ActiveRelease(b), states[2])
    ensures !Step(items, states[2].azure.release.value, states[2].cluster.release.value)
  {
    ThreeLinesDoNotCompose(a, b, c);
    TwoMoves(items, a, b, c, states, writes);
    forall v
      ensures !IsIgnoredVersion(items, v)
    {
      NoneOfThreeIsIgnored(a, b, c, v);
    }
    assert items[1] in items;
    ActiveReleaseIsActive(b);
    SameIsSkipped(b, a, b, c);
  }

  /** For instance with the releases 0.0.0, 1.0.0 and 2.0.0. */
  lemma LeavingBehindExample()
    ensures exists items: Catalogue, states: seq<System>, writes: seq<Write> ::
              && IsTrace(items, states, writes) && |states| == 3 && StartsEqual(states[0])
              && ClusterAvoidsIgnored(items, states) && HasReleases(states[2])
              && !Step(items, states[2].azure.release.value, states[2].cluster.release.value)
  {
    var a, b, c := Version(0, 0, 0, [], []), Version(1, 0, 0, [], []), Version(2, 0, 0, [], []);
    var states := [Objects(a, a), Objects(b, a), Objects(c, a)];
    var writes := [ClusterWrite(ALLOWED), ClusterWrite(ALLOWED)];
    NumbersAreNotAlpha(0, 0);
    NumbersAreNotAlpha(1, 0);
    NumbersAreNotAlpha(2, 0);
    AzureMayBeLeftBehind(a, b, c, ThreeReleases(a, b, c), states, writes);
  }
}
