/**
 * Parsed release versions with the precedence of Semantic Versioning 2.0.0, section 11, as the
 * controller's version library computes it.
 */
module Semver {
  import opened Orders
  import opened Text

  datatype Identifier = Numeric(n: nat) | AlphaNumeric(s: string)

  datatype Version = Version(major: nat, minor: nat, patch: nat, pre: seq<Identifier>, build: seq<string>)

  function CompareNats(a: nat, b: nat): Sign {
    if a < b then -1 else if a > b then 1 else 0
  }

  function CompareIdentifiers(a: Identifier, b: Identifier): Sign {
    match (a, b)
    case (Numeric(_), AlphaNumeric(_)) => -1
    case (AlphaNumeric(_), Numeric(_)) => 1
    case (Numeric(m), Numeric(n)) => CompareNats(m, n)
    case (AlphaNumeric(s), AlphaNumeric(t)) => CompareStrings(s, t)
  }

  /** A version without pre-release identifiers is above those with the same numbers that have some. */
  function ComparePreReleases(a: seq<Identifier>, b: seq<Identifier>): Sign {
    if a == [] && b == [] then 0
    else if a == [] then 1
    else if b == [] then -1
    else LexCompare(CompareIdentifiers, a, b)
  }

  function Compare(a: Version, b: Version): Sign {
    if a.major != b.major then CompareNats(a.major, b.major)
    else if a.minor != b.minor then CompareNats(a.minor, b.minor)
    else if a.patch != b.patch then CompareNats(a.patch, b.patch)
    else ComparePreReleases(a.pre, b.pre)
  }

  predicate Lt(a: Version, b: Version) {
    Compare(a, b) == -1
  }

  /** Equality by precedence. */
  predicate Same(a: Version, b: Version) {
    Compare(a, b) == 0
  }

  predicate Leq(a: Version, b: Version) {
    !Lt(b, a)
  }

  lemma IdentifiersAreTotallyOrdered()
    ensures IsTotalOrder(CompareIdentifiers)
  {
    StringsAreTotallyOrdered();
    forall a: Identifier, b: Identifier
      ensures CompareIdentifiers(a, b) == -CompareIdentifiers(b, a)
      ensures CompareIdentifiers(a, b) == 0 <==> a == b
    {
      if a.AlphaNumeric? && b.AlphaNumeric? {
        assert CompareStrings(a.s, b.s) == -CompareStrings(b.s, a.s);
      }
    }
    forall a: Identifier, b: Identifier, c: Identifier
      | CompareIdentifiers(a, b) <= 0 && CompareIdentifiers(b, c) <= 0
      ensures CompareIdentifiers(a, c) <= 0
    {
      if a.AlphaNumeric? && b.AlphaNumeric? && c.AlphaNumeric? {
        assert CompareStrings(a.s, b.s) <= 0 && CompareStrings(b.s, c.s) <= 0;
      }
    }
  }

  /** Precedence ignores build metadata and nothing else. */
  lemma SameExactly(a: Version, b: Version)
    ensures Same(a, b) <==> a.(build := []) == b.(build := [])
  {
    IdentifiersAreTotallyOrdered();
    LexZero(CompareIdentifiers, a.pre, b.pre);
  }

  lemma Antisymmetric(a: Version, b: Version)
    ensures Compare(a, b) == -Compare(b, a)
  {
    IdentifiersAreTotallyOrdered();
    LexAntisymmetric(CompareIdentifiers, a.pre, b.pre);
  }

  lemma Transitive(a: Version, b: Version, c: Version)
    requires Compare(a, b) <= 0 && Compare(b, c) <= 0
    ensures Compare(a, c) <= 0
  {
    IdentifiersAreTotallyOrdered();
    if a.pre != [] && b.pre != [] && c.pre != [] && LexCompare(CompareIdentifiers, a.pre, b.pre) <= 0
       && LexCompare(CompareIdentifiers, b.pre, c.pre) <= 0 {
      LexTransitive(CompareIdentifiers, a.pre, b.pre, c.pre);
    }
  }

  /** Precedence is a total preorder: `Lt` is its strict part and `Same` its equivalence. */
  lemma PrecedenceIsTotalPreorder()
    ensures forall a, b :: Lt(a, b) <==> !Same(a, b) && !Lt(b, a)
    ensures forall a, b :: Same(a, b) <==> Same(b, a)
    ensures forall a :: Same(a, a)
    ensures forall a, b, c :: Leq(a, b) && Leq(b, c) ==> Leq(a, c)
  {
    forall a, b
      ensures Compare(a, b) == -Compare(b, a)
    {
      Antisymmetric(a, b);
    }
    forall a, b, c | Leq(a, b) && Leq(b, c)
      ensures Leq(a, c)
    {
      assert Compare(a, b) == -Compare(b, a) && Compare(b, c) == -Compare(c, b) && Compare(a, c) == -Compare(c, a);
      Transitive(a, b, c);
    }
  }

  /** Exactly one of below, same and above holds. */
  lemma Trichotomy(a: Version, b: Version)
    ensures Lt(a, b) <==> !Same(a, b) && !Lt(b, a)
    ensures Same(a, b) <==> Same(b, a)
    ensures Same(a, a)
  {
    PrecedenceIsTotalPreorder();
  }

  lemma Chain(a: Version, b: Version, c: Version)
    ensures Leq(a, b) && Leq(b, c) ==> Leq(a, c)
    ensures Leq(a, b) && Lt(b, c) ==> Lt(a, c)
    ensures Lt(a, b) && Leq(b, c) ==> Lt(a, c)
    ensures Lt(a, b) && Lt(b, c) ==> Lt(a, c)
  {
    PrecedenceIsTotalPreorder();
    if Leq(a, b) && Leq(b, c) && !Lt(a, c) {
      assert Leq(c, a);
      assert Leq(c, b) && Leq(b, a);
    }
  }

  /** The rules 11.2 and 11.3: numbers decide from major to patch, and a pre-release comes before its release. */
  lemma NumbersDecide(a: Version, b: Version)
    ensures a.major < b.major ==> Lt(a, b)
    ensures a.major == b.major && a.minor < b.minor ==> Lt(a, b)
    ensures a.major == b.major && a.minor == b.minor && a.patch < b.patch ==> Lt(a, b)
    ensures a.pre != [] ==> Lt(a, a.(pre := []))
  {
  }

  /**
   * The rules 11.4: the first different identifier decides, numeric ones by value and below the others,
   * which compare as strings; with no difference the shorter list comes first.
   */
  lemma PreReleasesDecide(
      v: Version, p: seq<Identifier>, x: Identifier, s: seq<Identifier>, y: Identifier, t: seq<Identifier>)
    ensures x != y ==> Compare(v.(pre := p + [x] + s), v.(pre := p + [y] + t)) == CompareIdentifiers(x, y)
    ensures x.Numeric? && y.AlphaNumeric? ==> Lt(v.(pre := p + [x] + s), v.(pre := p + [y] + t))
    ensures x.Numeric? && y.Numeric? && x.n < y.n ==> Lt(v.(pre := p + [x] + s), v.(pre := p + [y] + t))
    ensures p != [] ==> Lt(v.(pre := p), v.(pre := p + [x] + s))
  {
    IdentifiersAreTotallyOrdered();
    if x != y {
      LexFirstDifference(CompareIdentifiers, p, x, s, y, t);
    }
    if p != [] {
      LexPrefix(CompareIdentifiers, p, [x] + s);
      assert p + [x] + s == p + ([x] + s);
    }
  }

  /** Identifiers that are words compare by their first different character. */
  lemma WordsDecide(
      v: Version, front: seq<Identifier>, p: string, x: char, s: string, y: char, t: string,
      a: seq<Identifier>, b: seq<Identifier>)
    requires x < y
    ensures Lt(v.(pre := front + [AlphaNumeric(p + [x] + s)] + a), v.(pre := front + [AlphaNumeric(p + [y] + t)] + b))
  {
    StringsByFirstDifference(p, x, s, y, t);
    PreReleasesDecide(v, front, AlphaNumeric(p + [x] + s), a, AlphaNumeric(p + [y] + t), b);
  }

  /** Two versions are on the same release line when major and minor agree. */
  predicate SameLine(a: Version, b: Version) {
    a.major == b.major && a.minor == b.minor
  }

  predicate LineLeq(a: Version, b: Version) {
    a.major < b.major || (a.major == b.major && a.minor <= b.minor)
  }

  /** Release lines follow precedence. */
  lemma LinesAreMonotone(a: Version, b: Version)
    requires Leq(a, b)
    ensures LineLeq(a, b)
  {
  }

  function IdentifierText(i: Identifier): string {
    match i
    case Numeric(n) => PrintNat(n)
    case AlphaNumeric(s) => s
  }

  function JoinIdentifiers(parts: seq<Identifier>): string {
    if |parts| == 0 then "" else if |parts| == 1 then IdentifierText(parts[0])
    else IdentifierText(parts[0]) + ['.'] + JoinIdentifiers(parts[1..])
  }

  function JoinBuild(parts: seq<string>): string {
    if |parts| == 0 then "" else if |parts| == 1 then parts[0]
    else parts[0] + ['.'] + JoinBuild(parts[1..])
  }

  function NumbersText(v: Version): string {
    PrintNat(v.major) + ['.'] + PrintNat(v.minor) + ['.'] + PrintNat(v.patch)
  }

  function WithPreRelease(v: Version): string {
    if v.pre == [] then NumbersText(v) else NumbersText(v) + ['-'] + JoinIdentifiers(v.pre)
  }

  /** The canonical text of a version, build metadata included. */
  function VersionText(v: Version): string {
    if v.build == [] then WithPreRelease(v) else WithPreRelease(v) + ['+'] + JoinBuild(v.build)
  }

  /** How versions are printed. */
  lemma VersionTextExactly(v: Version, x: Identifier, y: Identifier, a: string, b: string)
    requires v.pre == [] && v.build == []
    ensures var numbers := PrintNat(v.major) + ['.'] + PrintNat(v.minor) + ['.'] + PrintNat(v.patch);
      && VersionText(v) == numbers
      && VersionText(v.(pre := [x])) == numbers + ['-'] + IdentifierText(x)
      && VersionText(v.(pre := [x, y])) == numbers + ['-'] + (IdentifierText(x) + ['.'] + IdentifierText(y))
      && VersionText(v.(build := [a])) == numbers + ['+'] + a
      && VersionText(v.(pre := [x], build := [a, b]))
      == numbers + ['-'] + IdentifierText(x) + ['+'] + (a + ['.'] + b)
  {
    assert [x, y][1..] == [y] && [a, b][1..] == [b];
    assert JoinIdentifiers([y]) == IdentifierText(y) && JoinBuild([b]) == b;
    assert JoinIdentifiers([x, y]) == IdentifierText(x) + ['.'] + IdentifierText(y);
    assert JoinBuild([a, b]) == a + ['.'] + b;
  }

  const ALPHA := "alpha"

  predicate IsAlpha(v: Version) {
    Contains(VersionText(v), ALPHA)
  }

  lemma DigitsHaveNoAlpha(n: nat)
    ensures !Contains(PrintNat(n), ALPHA)
  {
    var s := PrintNat(n);
    if Contains(s, ALPHA) {
      var i :| 0 <= i <= |s| && OccursAt(s, ALPHA, i);
      OccurrenceStart(s, ALPHA, i);
      assert false;
    }
  }

  lemma {:induction false} AlphaInIdentifiers(parts: seq<Identifier>)
    ensures Contains(JoinIdentifiers(parts), ALPHA)
       <==> exists i :: 0 <= i < |parts| && Contains(IdentifierText(parts[i]), ALPHA)
  {
    if |parts| > 1 {
      AlphaInIdentifiers(parts[1..]);
      ContainsAcross(IdentifierText(parts[0]), '.', JoinIdentifiers(parts[1..]), ALPHA);
      assert forall i :: 1 <= i < |parts| ==> parts[i] == parts[1..][i - 1];
    }
  }

  lemma {:induction false} AlphaInBuild(parts: seq<string>)
    ensures Contains(JoinBuild(parts), ALPHA) <==> exists i :: 0 <= i < |parts| && Contains(parts[i], ALPHA)
  {
    if |parts| > 1 {
      AlphaInBuild(parts[1..]);
      ContainsAcross(parts[0], '.', JoinBuild(parts[1..]), ALPHA);
      assert forall i :: 1 <= i < |parts| ==> parts[i] == parts[1..][i - 1];
    }
  }

  predicate HasAlphaIdentifier(v: Version) {
    || (exists i :: 0 <= i < |v.pre| && v.pre[i].AlphaNumeric? && Contains(v.pre[i].s, ALPHA))
    || (exists i :: 0 <= i < |v.build| && Contains(v.build[i], ALPHA))
  }

  /** Searching the printed version finds exactly the pre-release and build identifiers that contain the word. */
  lemma AlphaExactly(v: Version)
    ensures IsAlpha(v) <==> HasAlphaIdentifier(v)
  {
    DigitsHaveNoAlpha(v.major);
    DigitsHaveNoAlpha(v.minor);
    DigitsHaveNoAlpha(v.patch);
    ContainsAcross(PrintNat(v.major), '.', PrintNat(v.minor), ALPHA);
    ContainsAcross(PrintNat(v.major) + ['.'] + PrintNat(v.minor), '.', PrintNat(v.patch), ALPHA);
    AlphaInIdentifiers(v.pre);
    ContainsAcross(NumbersText(v), '-', JoinIdentifiers(v.pre), ALPHA);
    AlphaInBuild(v.build);
    ContainsAcross(WithPreRelease(v), '+', JoinBuild(v.build), ALPHA);
    forall i | 0 <= i < |v.pre| && v.pre[i].Numeric?
      ensures !Contains(IdentifierText(v.pre[i]), ALPHA)
    {
      DigitsHaveNoAlpha(v.pre[i].n);
    }
  }

  /** Versions that precedence cannot tell apart may differ in being alpha, through build metadata only. */
  lemma AlphaDespiteSamePrecedence(a: Version, b: Version)
    requires Same(a, b) && IsAlpha(a) && !IsAlpha(b)
    ensures exists i :: 0 <= i < |a.build| && Contains(a.build[i], ALPHA)
  {
    AlphaExactly(a);
    AlphaExactly(b);
    SameExactly(a, b);
  }
}
