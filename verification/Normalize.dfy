/** Normalisation of a name to a DNS label (section 2.1 of RFC 1123). */
module Normalize {
  import opened Sorting

  const MAX_DNS_LABEL_LENGTH := 63

  /** The Unicode tables of Go: the lower-case form of a rune, and whether it is a decimal digit. */
  datatype UnicodeTables = UnicodeTables(lower: char -> char, isDigit: char -> bool)

  predicate IsLetter(c: char) {
    'a' <= c <= 'z'
  }

  /** What the tables say of the characters that may end up in a label. */
  ghost predicate AreProper(u: UnicodeTables) {
    && u.lower('-') == '-' && !u.isDigit('-')
    && (forall c :: IsLetter(c) ==> u.lower(c) == c && !u.isDigit(c))
    && (forall c :: u.isDigit(c) ==> u.lower(c) == c)
    && (forall c :: '0' <= c <= '9' ==> u.isDigit(c))
  }

  type Unicode = u: UnicodeTables | AreProper(u)
    ghost witness UnicodeTables(c => c, c => '0' <= c <= '9')

  predicate IsAllowed(u: Unicode, c: char) {
    c == '-' || u.isDigit(c) || IsLetter(c)
  }

  function Lower(u: Unicode, v: string): string {
    seq(|v|, i requires 0 <= i < |v| => u.lower(v[i]))
  }

  /** Allowed runes are kept; a run of others becomes one dash, except at the start and after a dash. */
  function Collect(u: Unicode, s: string): string {
    if |s| == 0 then ""
    else
      var xs, x := Collect(u, s[..|s| - 1]), s[|s| - 1];
      if IsAllowed(u, x) then xs + [x]
      else if |xs| > 0 && xs[|xs| - 1] != '-' then xs + ['-']
      else xs
  }

  function TrimRight(s: string): string {
    if |s| > 0 && s[|s| - 1] == '-' then TrimRight(s[..|s| - 1]) else s
  }

  function TrimLeft(s: string): string {
    if |s| > 0 && s[0] == '-' then TrimLeft(s[1..]) else s
  }

  function Trim(s: string): string {
    TrimRight(TrimLeft(s))
  }

  function Truncate(s: string): string {
    if |s| > MAX_DNS_LABEL_LENGTH then s[..MAX_DNS_LABEL_LENGTH] else s
  }

  /** The trimmed name before it is cut to length. */
  function Trimmed(u: Unicode, v: string): string {
    Trim(Collect(u, Lower(u, v)))
  }

  function Normalized(u: Unicode, v: string): string {
    Truncate(Trimmed(u, v))
  }

  method AsDNSLabelName(u: Unicode, v: string) returns (name: string)
    ensures name == Normalized(u, v)
  {
    var lowered := Lower(u, v);
    var xs: string := "";
    for i := 0 to |lowered|
      invariant xs == Collect(u, lowered[..i])
    {
      var x := lowered[i];
      assert lowered[..i + 1][..i] == lowered[..i];
      if x == '-' || u.isDigit(x) || ('a' <= x && x <= 'z') {
        xs := xs + [x];
      } else if |xs| > 0 && xs[|xs| - 1] != '-' {
        xs := xs + ['-'];
      }
    }
    assert lowered[..|lowered|] == lowered;
    while |xs| > 0
      invariant Trim(xs) == Trimmed(u, v)
      decreases |xs|
    {
      if xs[0] == '-' {
        xs := xs[1..];
        continue;
      }
      if xs[|xs| - 1] == '-' {
        TrimLast(xs);
        xs := xs[..|xs| - 1];
        continue;
      }
      break;
    }
    if |xs| > MAX_DNS_LABEL_LENGTH {
      xs := xs[..MAX_DNS_LABEL_LENGTH];
    }
    return xs;
  }

  /** Behind a first character that stays, trailing dashes are all there is to trim. */
  lemma TrimLast(s: string)
    requires |s| > 0 && s[0] != '-' && s[|s| - 1] == '-'
    ensures Trim(s) == Trim(s[..|s| - 1])
  {
  }

  predicate AllAllowed(u: Unicode, s: string) {
    forall i :: 0 <= i < |s| ==> IsAllowed(u, s[i])
  }

  lemma {:induction false} CollectIsAllowed(u: Unicode, s: string)
    ensures AllAllowed(u, Collect(u, s))
  {
    if |s| > 0 {
      CollectIsAllowed(u, s[..|s| - 1]);
    }
  }

  lemma {:induction false} CollectKeepsAllowed(u: Unicode, s: string)
    requires AllAllowed(u, s)
    ensures Collect(u, s) == s
  {
    if |s| > 0 {
      var n := |s| - 1;
      CollectKeepsAllowed(u, s[..n]);
      assert IsAllowed(u, s[n]) && s == s[..n] + [s[n]];
    }
  }

  lemma LowerKeepsAllowed(u: Unicode, s: string)
    requires AllAllowed(u, s)
    ensures Lower(u, s) == s
  {
  }

  /** What trimming keeps is a contiguous part without dashes at its ends; it is empty when only dashes are there. */
  lemma {:induction false} TrimRightPart(s: string)
    ensures TrimRight(s) <= s
    ensures forall i :: |TrimRight(s)| <= i < |s| ==> s[i] == '-'
    ensures |TrimRight(s)| > 0 ==> TrimRight(s)[|TrimRight(s)| - 1] != '-'
    ensures TrimRight(s) == "" <==> forall i :: 0 <= i < |s| ==> s[i] == '-'
  {
    if |s| > 0 && s[|s| - 1] == '-' {
      TrimRightPart(s[..|s| - 1]);
      assert forall i :: 0 <= i < |s| - 1 ==> s[i] == s[..|s| - 1][i];
    }
  }

  lemma {:induction false} TrimLeftPart(s: string) returns (k: nat)
    ensures k <= |s| && TrimLeft(s) == s[k..]
    ensures |TrimLeft(s)| > 0 ==> TrimLeft(s)[0] != '-'
    ensures forall i :: 0 <= i < k ==> s[i] == '-'
  {
    if |s| > 0 && s[0] == '-' {
      k := TrimLeftPart(s[1..]);
      assert s[1..][k..] == s[k + 1..];
      assert forall i :: 1 <= i < k + 1 ==> s[i] == s[1..][i - 1];
      k := k + 1;
    } else {
      k := 0;
    }
  }

  lemma TrimPart(s: string) returns (k: nat)
    ensures k + |Trim(s)| <= |s| && Trim(s) == s[k..k + |Trim(s)|]
    ensures forall i :: 0 <= i < |s| && !(k <= i < k + |Trim(s)|) ==> s[i] == '-'
    ensures |Trim(s)| > 0 ==> Trim(s)[0] != '-' && Trim(s)[|Trim(s)| - 1] != '-'
    ensures Trim(s) == "" <==> forall i :: 0 <= i < |s| ==> s[i] == '-'
  {
    k := TrimLeftPart(s);
    TrimRightPart(TrimLeft(s));
    var t := Trim(s);
    assert t == TrimLeft(s)[..|t|] == s[k..][..|t|];
    assert forall i :: 0 <= i < |TrimLeft(s)| ==> TrimLeft(s)[i] == s[k + i];
    assert forall i :: k <= i < |s| ==> s[i] == TrimLeft(s)[i - k];
  }

  /** The characters and the length of a normalised name. */
  lemma NormalizedShape(u: Unicode, v: string)
    ensures Normalized(u, v) <= Trimmed(u, v) && AllAllowed(u, Normalized(u, v))
    ensures |Normalized(u, v)| == if |Trimmed(u, v)| <= 63 then |Trimmed(u, v)| else 63
    ensures |Normalized(u, v)| > 0 ==> Normalized(u, v)[0] != '-'
    ensures |Normalized(u, v)| > 0 && Normalized(u, v)[|Normalized(u, v)| - 1] == '-' ==>
              |Trimmed(u, v)| > MAX_DNS_LABEL_LENGTH
  {
    var s := Collect(u, Lower(u, v));
    CollectIsAllowed(u, Lower(u, v));
    var k := TrimPart(s);
    var t := Trimmed(u, v);
    assert forall i :: 0 <= i < |t| ==> t[i] == s[k + i];
  }

  lemma {:induction false} CollectOnlyDashes(u: Unicode, s: string)
    ensures (forall i :: 0 <= i < |Collect(u, s)| ==> Collect(u, s)[i] == '-')
       <==> (forall i :: 0 <= i < |s| ==> IsAllowed(u, s[i]) ==> s[i] == '-')
  {
    if |s| > 0 {
      var n := |s| - 1;
      CollectOnlyDashes(u, s[..n]);
      var xs, r := Collect(u, s[..n]), Collect(u, s);
      assert forall i :: 0 <= i < |xs| ==> r[i] == xs[i];
      assert forall i :: 0 <= i < n ==> s[..n][i] == s[i];
      if IsAllowed(u, s[n]) {
        assert r[|xs|] == s[n];
      }
    }
  }

  /** The result is empty exactly when the lowered input has no allowed character but dashes. */
  lemma EmptyExactly(u: Unicode, v: string)
    ensures Normalized(u, v) == "" <==> forall c | c in Lower(u, v) :: IsAllowed(u, c) ==> c == '-'
  {
    var lowered := Lower(u, v);
    CollectOnlyDashes(u, lowered);
    var k := TrimPart(Collect(u, lowered));
    assert (forall c | c in lowered :: IsAllowed(u, c) ==> c == '-')
      <==> (forall i :: 0 <= i < |lowered| ==> IsAllowed(u, lowered[i]) ==> lowered[i] == '-');
  }

  /** Normalising a second time only removes the dashes that the cut left at the end. */
  lemma NormalizeTwice(u: Unicode, v: string)
    ensures Normalized(u, Normalized(u, v)) == TrimRight(Normalized(u, v))
  {
    var once := Normalized(u, v);
    NormalizedShape(u, v);
    LowerKeepsAllowed(u, once);
    CollectKeepsAllowed(u, once);
    assert TrimLeft(once) == once;
    TrimRightPart(once);
  }

  /** Normalising twice gives a fixed point, which once does only without a trailing dash. */
  lemma NormalizeTwiceIsFixedPoint(u: Unicode, v: string)
    ensures var twice := Normalized(u, Normalized(u, v)); Normalized(u, twice) == twice
    ensures Normalized(u, Normalized(u, v)) == Normalized(u, v) <==>
              Normalized(u, v) == "" || Normalized(u, v)[|Normalized(u, v)| - 1] != '-'
  {
    var once := Normalized(u, v);
    NormalizeTwice(u, v);
    NormalizeTwice(u, once);
    TrimRightPart(once);
  }

  predicate IsLabelChar(c: char) {
    IsLetter(c) || '0' <= c <= '9'
  }

  /** The syntax of a label, with the length limit of section 2.3.4 of RFC 1035. */
  predicate IsLabel(s: string) {
    && 0 < |s| <= MAX_DNS_LABEL_LENGTH
    && IsLabelChar(s[0]) && IsLabelChar(s[|s| - 1])
    && forall i :: 0 <= i < |s| ==> IsLabelChar(s[i]) || s[i] == '-'
  }

  /**
   * The result is a DNS label exactly when something is left, the cut does not fall behind a dash, and
   * the part that is kept has no digits from outside ASCII.
   */
  lemma IsLabelExactly(u: Unicode, v: string)
    ensures IsLabel(Normalized(u, v)) <==>
              && Trimmed(u, v) != ""
              && (|Trimmed(u, v)| > MAX_DNS_LABEL_LENGTH ==> Trimmed(u, v)[MAX_DNS_LABEL_LENGTH - 1] != '-')
              && forall i :: 0 <= i < |Trimmed(u, v)| && i < MAX_DNS_LABEL_LENGTH && u.isDigit(Trimmed(u, v)[i]) ==>
                               '0' <= Trimmed(u, v)[i] <= '9'
  {
    var t, r := Trimmed(u, v), Normalized(u, v);
    NormalizedShape(u, v);
    assert forall i :: 0 <= i < |r| ==> r[i] == t[i];
    assert forall i :: 0 <= i < |r| ==> IsAllowed(u, r[i]);
  }

  /** A name whose normalised form is no label, although it consists of letters and dashes. */
  lemma TrailingDashIsPossible(u: Unicode)
    ensures exists v :: !IsLabel(Normalized(u, v)) && Trimmed(u, v) != ""
                        && forall c | c in v :: IsLetter(c) || c == '-'
  {
    var v := seq(62, _ => 'a') + "-a";
    assert AllAllowed(u, v);
    LowerKeepsAllowed(u, v);
    CollectKeepsAllowed(u, v);
    assert TrimLeft(v) == v && TrimRight(v) == v;
    assert Trimmed(u, v) == v && v[62] == '-';
    IsLabelExactly(u, v);
    assert forall c | c in v :: IsLetter(c) || c == '-';
  }

  /** The characters that carry content: letters and digits. */
  function IsContent(u: Unicode): char -> bool {
    c => IsAllowed(u, c) && c != '-'
  }

  lemma {:induction false} CollectKeepsContent(u: Unicode, s: string)
    ensures Filter(IsContent(u), Collect(u, s)) == Filter(IsContent(u), s)
  {
    if |s| > 0 {
      var n := |s| - 1;
      CollectKeepsContent(u, s[..n]);
      var xs := Collect(u, s[..n]);
      FilterPush(IsContent(u), xs, s[n]);
      FilterPush(IsContent(u), xs, '-');
    }
  }

  /** Up to the cut, the letters and digits of the lowered input come through, all of them and in order. */
  lemma TrimmedKeepsContent(u: Unicode, v: string)
    ensures Filter(IsContent(u), Trimmed(u, v)) == Filter(IsContent(u), Lower(u, v))
  {
    var s := Collect(u, Lower(u, v));
    CollectKeepsContent(u, Lower(u, v));
    TrimLeftContent(u, s);
    TrimRightContent(u, TrimLeft(s));
  }

  lemma {:induction false} TrimLeftContent(u: Unicode, s: string)
    ensures Filter(IsContent(u), TrimLeft(s)) == Filter(IsContent(u), s)
  {
    if |s| > 0 && s[0] == '-' {
      TrimLeftContent(u, s[1..]);
      FilterConcat(IsContent(u), ['-'], s[1..]);
      FilterNone(IsContent(u), ['-']);
      assert s == ['-'] + s[1..];
    }
  }

  lemma {:induction false} TrimRightContent(u: Unicode, s: string)
    ensures Filter(IsContent(u), TrimRight(s)) == Filter(IsContent(u), s)
  {
    if |s| > 0 && s[|s| - 1] == '-' {
      TrimRightContent(u, s[..|s| - 1]);
    }
  }

  lemma {:induction false} CollectIsNoLonger(u: Unicode, s: string)
    ensures |Collect(u, s)| <= |s|
  {
    if |s| > 0 {
      CollectIsNoLonger(u, s[..|s| - 1]);
    }
  }

  lemma ContentComesThrough(u: Unicode, v: string, c: char)
    requires IsContent(u)(c)
    ensures c in Trimmed(u, v) <==> c in Lower(u, v)
  {
    TrimmedKeepsContent(u, v);
    FilterMembers(IsContent(u), Trimmed(u, v));
    FilterMembers(IsContent(u), Lower(u, v));
  }

  /**
   * For a name that is short enough: the result is a DNS label exactly when the lowered name has a
   * letter or digit, and no digit from outside ASCII.
   */
  lemma ShortNamesExactly(u: Unicode, v: string)
    requires |v| <= 63
    ensures IsLabel(Normalized(u, v)) <==>
              && (exists c | c in Lower(u, v) :: IsContent(u)(c))
              && (forall c | c in Lower(u, v) :: u.isDigit(c) ==> '0' <= c <= '9')
  {
    var t, lowered := Trimmed(u, v), Lower(u, v);
    IsLabelExactly(u, v);
    EmptyExactly(u, v);
    CollectIsNoLonger(u, lowered);
    var k := TrimPart(Collect(u, lowered));
    assert |t| <= |v| && Normalized(u, v) == t;
    forall c | u.isDigit(c)
      ensures c in t <==> c in lowered
    {
      ContentComesThrough(u, v, c);
    }
  }

  /** A letter or digit, which comes through. */
  predicate ComesThrough(u: Unicode, c: char) {
    u.isDigit(c) || 'a' <= c <= 'z'
  }

  /** How many dashes a gap between two such characters leaves: its own, and one if it starts with something else. */
  function DashesOf(gap: string): nat {
    multiset(gap)['-'] + if |gap| > 0 && gap[0] != '-' then 1 else 0
  }

  function Dashes(n: nat): string {
    seq(n, _ => '-')
  }

  lemma OneMoreDash(xs: string, n: nat)
    ensures (xs + Dashes(n)) + ['-'] == xs + Dashes(n + 1)
  {
  }

  lemma EndsInDash(xs: string, n: nat)
    requires |xs| > 0 && xs[|xs| - 1] != '-'
    ensures |xs + Dashes(n)| == |xs| + n && ((xs + Dashes(n))[|xs| + n - 1] == '-' <==> n > 0)
  {
  }

  lemma DashesPush(gap: string, c: char)
    ensures DashesOf(gap + [c]) == DashesOf(gap) + if c == '-' || gap == "" then 1 else 0
  {
    var more := gap + [c];
    assert multiset(more) == multiset(gap) + multiset{c};
    if |gap| > 0 {
      assert more[0] == gap[0];
    }
  }

  lemma {:induction false} CollectExtends(u: Unicode, s: string, t: string)
    ensures Collect(u, s) <= Collect(u, s + t)
  {
    if |t| == 0 {
      assert s + t == s;
    } else {
      var init := t[..|t| - 1];
      CollectExtends(u, s, init);
      assert (s + t)[..|s + t| - 1] == s + init;
    }
  }

  lemma CollectKept(u: Unicode, s: string, c: char)
    requires ComesThrough(u, c)
    ensures Collect(u, s + [c]) == Collect(u, s) + [c]
  {
    assert (s + [c])[..|s|] == s;
  }

  lemma DashesArePositive(gap: string)
    ensures |gap| > 0 ==> DashesOf(gap) > 0
  {
    if |gap| > 0 && gap[0] == '-' {
      assert '-' in multiset(gap);
    }
  }

  lemma CollectOther(u: Unicode, s: string, c: char)
    requires !ComesThrough(u, c) && |Collect(u, s)| > 0
    ensures Collect(u, s + [c])
         == if c == '-' || Collect(u, s)[|Collect(u, s)| - 1] != '-' then Collect(u, s) + ['-'] else Collect(u, s)
  {
    assert (s + [c])[..|s|] == s;
  }

  lemma NoDashes(xs: string, gap: string)
    requires |gap| == 0
    ensures xs + Dashes(DashesOf(gap)) == xs
  {
  }

  lemma GapStep(u: Unicode, s: string, xs: string, gap: string, c: char)
    requires |xs| > 0 && xs[|xs| - 1] != '-' && !ComesThrough(u, c)
    requires Collect(u, s) == xs + Dashes(DashesOf(gap))
    ensures Collect(u, s + [c]) == xs + Dashes(DashesOf(gap + [c]))
  {
    var n := DashesOf(gap);
    EndsInDash(xs, n);
    CollectOther(u, s, c);
    DashesPush(gap, c);
    DashesArePositive(gap);
    OneMoreDash(xs, n);
  }

  lemma {:induction false} CollectGap(u: Unicode, s: string, gap: string)
    requires |Collect(u, s)| > 0 && Collect(u, s)[|Collect(u, s)| - 1] != '-'
    requires forall c | c in gap :: !ComesThrough(u, c)
    ensures Collect(u, s + gap) == Collect(u, s) + Dashes(DashesOf(gap))
  {
    if |gap| == 0 {
      assert s + gap == s;
      NoDashes(Collect(u, s), gap);
    } else {
      var init, c := gap[..|gap| - 1], gap[|gap| - 1];
      assert gap == init + [c] && c in gap;
      forall x | x in init
        ensures !ComesThrough(u, x)
      {
        assert x in gap;
      }
      CollectGap(u, s, init);
      GapStep(u, s + init, Collect(u, s), init, c);
      assert s + gap == (s + init) + [c];
    }
  }

  /** What is collected from a text with a gap. */
  lemma CollectAround(u: Unicode, front: string, x: char, gap: string, y: char, back: string)
    requires ComesThrough(u, x) && ComesThrough(u, y) && forall c | c in gap :: !ComesThrough(u, c)
    ensures Collect(u, front) + [x] + Dashes(DashesOf(gap)) + [y]
         <= Collect(u, front + [x] + gap + [y] + back)
  {
    CollectKept(u, front, x);
    CollectGap(u, front + [x], gap);
    CollectKept(u, front + [x] + gap, y);
    CollectExtends(u, front + [x] + gap + [y], back);
  }

  lemma DropDashes(u: Unicode, s: string, t: nat)
    requires t <= |s| && forall i :: 0 <= i < t ==> s[i] == '-'
    ensures Filter(IsContent(u), s[t..]) == Filter(IsContent(u), s)
  {
    FilterConcat(IsContent(u), s[..t], s[t..]);
    assert s == s[..t] + s[t..];
    forall c | c in s[..t]
      ensures !IsContent(u)(c)
    {
    }
    FilterNone(IsContent(u), s[..t]);
  }

  lemma Slices(s: string, t: nat, l: nat, b: nat, e: nat)
    requires t <= b <= e <= t + l <= |s|
    ensures s[t..t + l][b - t..e - t] == s[b..e] && s[t..t + l][..b - t] == s[t..b]
  {
    var part := s[t..t + l];
    assert forall i :: 0 <= i < l ==> part[i] == s[t + i];
    assert forall i :: 0 <= i < e - b ==> part[b - t..e - t][i] == s[b + i] == s[b..e][i];
    assert |part[b - t..e - t]| == |s[b..e]|;
  }

  /** Trimming dashes at both ends keeps what begins and ends with something else. */
  lemma PartInside(before: string, x: char, n: nat, y: char, s: string, t: nat, l: nat)
    requires before + [x] + Dashes(n) + [y] <= s && x != '-' && y != '-'
    requires t + l <= |s| && forall i :: 0 <= i < |s| && !(t <= i < t + l) ==> s[i] == '-'
    ensures t <= |before| && |before| + n + 2 <= t + l
    ensures s[t..t + l][|before| - t..|before| - t + n + 2] == [x] + Dashes(n) + [y]
    ensures s[t..t + l][..|before| - t] == before[t..] && forall i :: 0 <= i < t ==> before[i] == '-'
  {
    var all := before + [x] + Dashes(n) + [y];
    assert s[..|all|] == all;
    assert forall i :: 0 <= i < |all| ==> s[i] == all[i];
    assert s[|before|] == x && s[|before| + n + 1] == y;
    Slices(s, t, l, |before|, |before| + n + 2);
    assert s[|before|..|before| + n + 2] == [x] + Dashes(n) + [y];
    assert forall i :: 0 <= i < |before| ==> before[i] == all[i] == s[i];
    assert s[t..|before|] == before[t..];
  }

  lemma TrimmedAround(u: Unicode, before: string, x: char, n: nat, y: char, collected: string) returns (k: nat)
    requires before + [x] + Dashes(n) + [y] <= collected && x != '-' && y != '-'
    ensures k + n + 2 <= |Trim(collected)| && Trim(collected)[k..k + n + 2] == [x] + Dashes(n) + [y]
    ensures Filter(IsContent(u), Trim(collected)[..k]) == Filter(IsContent(u), before)
  {
    var t := TrimPart(collected);
    PartInside(before, x, n, y, collected, t, |Trim(collected)|);
    k := |before| - t;
    DropDashes(u, before, t);
  }

  /**
   * What becomes of the text between two consecutive letters or digits: nothing when they are adjacent,
   * and otherwise its own dashes, with one more when it starts with something else. So a gap without a
   * dash of its own becomes exactly one dash.
   */
  lemma GapsExactly(u: Unicode, v: string, front: string, x: char, gap: string, y: char, back: string)
    returns (k: nat)
    requires Lower(u, v) == front + [x] + gap + [y] + back
    requires ComesThrough(u, x) && ComesThrough(u, y) && forall c | c in gap :: !ComesThrough(u, c)
    ensures k + DashesOf(gap) + 2 <= |Trimmed(u, v)|
    ensures Trimmed(u, v)[k..k + DashesOf(gap) + 2] == [x] + Dashes(DashesOf(gap)) + [y]
    ensures Filter(IsContent(u), Trimmed(u, v)[..k]) == Filter(IsContent(u), front)
  {
    CollectAround(u, front, x, gap, y, back);
    k := TrimmedAround(u, Collect(u, front), x, DashesOf(gap), y, Collect(u, Lower(u, v)));
    CollectKeepsContent(u, front);
  }

  /** Adjacent letters and digits stay adjacent, and only they do. */
  lemma AdjacentExactly(gap: string)
    ensures DashesOf(gap) == 0 <==> gap == ""
    ensures |gap| > 0 && '-' !in gap ==> DashesOf(gap) == 1
  {
    DashesArePositive(gap);
    assert '-' !in gap ==> '-' !in multiset(gap);
  }

  /** Names that differ in case only are normalised alike. */
  lemma CaseDoesNotMatter(u: Unicode, v: string, w: string)
    requires |v| == |w| && forall i :: 0 <= i < |v| ==> u.lower(v[i]) == u.lower(w[i])
    ensures Normalized(u, v) == Normalized(u, w)
  {
    assert Lower(u, v) == Lower(u, w);
  }

  /** For instance "A b" becomes "a-b". */
  lemma NormalizeExample(u: Unicode, v: string)
    requires v == "A b" && u.lower('A') == 'a' && u.lower(' ') == ' ' && !u.isDigit(' ')
    ensures Normalized(u, v) == "a-b"
  {
    var lowered := Lower(u, v);
    assert lowered == "" + ['a'] + " " + ['b'] + "";
    var k := GapsExactly(u, v, "", 'a', " ", 'b', "");
    AdjacentExactly(" ");
    CollectIsNoLonger(u, lowered);
    var t := TrimPart(Collect(u, lowered));
    assert Trimmed(u, v) == ['a'] + Dashes(1) + ['b'];
  }

  /** A name that is a DNS label already is left alone. */
  lemma LabelsAreFixed(u: Unicode, v: string)
    requires IsLabel(v)
    ensures Normalized(u, v) == v
  {
    forall i | 0 <= i < |v|
      ensures IsAllowed(u, v[i])
    {
      assert IsLabelChar(v[i]) || v[i] == '-';
    }
    LowerKeepsAllowed(u, v);
    CollectKeepsAllowed(u, v);
    assert TrimLeft(v) == v && TrimRight(v) == v;
  }
}
