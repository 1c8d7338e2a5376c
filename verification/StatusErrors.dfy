/** Dropping the causes of an upstream validation error that concern certain fields. */
module StatusErrors {
  import opened Wrappers
  import opened Sorting
  import opened Text

  const REASON_INVALID := "Invalid"
  const HEADER := "is invalid:"

  datatype Cause = Cause(kind: string, field: string, message: string)

  /** The details of a status, which errors share by reference. */
  class StatusDetails {
    var causes: seq<Cause>

    constructor (causes: seq<Cause>)
      ensures this.causes == causes
    {
      this.causes := causes;
    }
  }

  datatype Err = Plain(text: string) | Status(reason: string, message: string, details: StatusDetails?)

  /** What a call gives back; `Panicked` is an index out of range. */
  datatype Outcome = Returned(err: Option<Err>) | Panicked

  predicate IsSpace(c: char) {
    c == ' ' || c == '\t' || c == '\n' || c == '\r' || c == '\U{0C}'
  }

  predicate HasNoNewline(s: string) {
    forall i :: 0 <= i < |s| ==> s[i] != '\n'
  }

  /** The part of the pattern behind the header: anything up to a closing bracket or the end, on one line. */
  predicate TailMatches(t: string) {
    exists j :: 0 <= j <= |t| && HasNoNewline(t[..j]) && (j == |t| || t[j] == ']')
  }

  /** A header with its white space at `h`, from where the rest of the pattern matches. */
  predicate IsCandidate(s: string, h: nat) {
    && OccursAt(s, HEADER, h)
    && h + |HEADER| < |s| && IsSpace(s[h + |HEADER|])
    && TailMatches(s[h + |HEADER| + 1..])
  }

  predicate MatchesFrom(s: string, i: nat, h: nat) {
    i <= h <= |s| && HasNoNewline(s[i..h]) && IsCandidate(s, h)
  }

  /** The greedy choice: the last header that can be reached from `i`, not behind `h`. */
  function LastFrom(s: string, i: nat, h: nat): (r: Option<nat>)
    ensures r.Some? ==> MatchesFrom(s, i, r.value) && r.value <= h
  {
    if h < i then None
    else if MatchesFrom(s, i, h) then Some(h)
    else if h == 0 then None
    else LastFrom(s, i, h - 1)
  }

  /** The leftmost match that starts at `i` or later, as its start and its header. */
  function FirstMatch(s: string, i: nat): (r: Option<(nat, nat)>)
    ensures r.Some? ==> MatchesFrom(s, r.value.0, r.value.1)
    decreases |s| + 1 - i
  {
    if i > |s| then None
    else match LastFrom(s, i, |s|)
      case Some(h) => Some((i, h))
      case None => FirstMatch(s, i + 1)
  }

  lemma {:induction false} LastFromIsLast(s: string, i: nat, h: nat)
    ensures forall k :: i <= k <= h && MatchesFrom(s, i, k) ==> LastFrom(s, i, h).Some? && k <= LastFrom(s, i, h).value
  {
    if h >= i && !MatchesFrom(s, i, h) && h > 0 {
      LastFromIsLast(s, i, h - 1);
    }
  }

  /** The first group of the first match of `(.*is invalid:\s)(\[)?(.*?)(\]|$)`. */
  function Header(message: string): Option<string> {
    match FirstMatch(message, 0)
    case None => None
    case Some((i, h)) => Some(message[i..h + |HEADER| + 1])
  }

  function Entry(c: Cause): string {
    c.field + ": " + c.message
  }

  function Render(causes: seq<Cause>): string {
    if |causes| == 0 then ""
    else if |causes| == 1 then Entry(causes[0])
    else Entry(causes[0]) + ", " + Render(causes[1..])
  }

  function Message(header: string, causes: seq<Cause>): string {
    header + "[" + Render(causes) + "]"
  }

  function Survives(field: string): Cause -> bool {
    (c: Cause) => !HasPrefix(c.field, field)
  }

  /** What remains of an error: nothing, or fewer causes with a new message; without a header the call panics. */
  datatype Remainder = Cleared | Remaining(message: string, causes: seq<Cause>) | NoHeader

  function Ignored(field: string, message: string, causes: seq<Cause>): Remainder {
    var survivors := Filter(Survives(field), causes);
    if survivors == [] then Cleared
    else match Header(message)
      case None => NoHeader
      case Some(header) => Remaining(Message(header, survivors), survivors)
  }

  /** Whether the call looks at the causes at all. */
  predicate IsFiltered(err: Option<Err>) {
    err.Some? && err.value.Status? && err.value.reason == "Invalid" && err.value.details != null
  }

  method BuildMessage(header: string, causes: seq<Cause>) returns (message: string)
    ensures message == Message(header, causes)
  {
    message := header + "[";
    for i := 0 to |causes|
      invariant header + "[" + Render(causes) == message + Render(causes[i..])
    {
      ghost var rest := causes[i..];
      assert rest[0] == causes[i] && rest[1..] == causes[i + 1..];
      ghost var was := message;
      message := message + causes[i].field;
      message := message + ": ";
      message := message + causes[i].message;
      assert message == was + Entry(causes[i]);
      if |causes| - i > 1 {
        message := message + ", ";
        assert was + (Entry(causes[i]) + ", " + Render(rest[1..])) == message + Render(rest[1..]);
      }
    }
    message := message + "]";
  }

  /** The causes that survive replace the old ones in the shared details; the message is rebuilt from them. */
  method IgnoreCAPIErrorForField(field: string, err: Option<Err>) returns (outcome: Outcome)
    modifies if IsFiltered(err) then {err.value.details} else {}
    ensures err.None? || err.value.Plain? || err.value.reason != "Invalid" || err.value.details == null ==>
              outcome == Returned(err)
    ensures err.Some? && err.value.Status? && err.value.reason == "Invalid" && err.value.details != null ==>
      match Ignored(field, err.value.message, old(err.value.details.causes)) {
        case Cleared => outcome == Returned(None) && err.value.details.causes == old(err.value.details.causes)
        case NoHeader => outcome == Panicked && err.value.details.causes == old(err.value.details.causes)
        case Remaining(message, causes) =>
          outcome == Returned(Some(err.value.(message := message))) && err.value.details.causes == causes
      }
  {
    if err.None? || !err.value.Status? {
      return Returned(err);
    }
    if err.value.reason != REASON_INVALID {
      return Returned(err);
    }
    var details := err.value.details;
    if details == null {
      return Returned(err);
    }
    var all := details.causes;
    var causes: seq<Cause> := [];
    for i := 0 to |all|
      invariant details.causes == all && causes == Filter(Survives(field), all[..i])
    {
      FilterPush(Survives(field), all[..i], all[i]);
      assert all[..i + 1] == all[..i] + [all[i]];
      if !HasPrefix(all[i].field, field) {
        causes := causes + [all[i]];
      }
    }
    assert all[..|all|] == all;
    if |causes| < 1 {
      return Returned(None);
    }
    var header := Header(err.value.message);
    if header.None? {
      return Panicked;
    }
    var message := BuildMessage(header.value, causes);
    details.causes := causes;
    return Returned(Some(err.value.(message := message)));
  }

  lemma RenderTwo(a: Cause, b: Cause)
    ensures Render([a, b]) == Entry(a) + ", " + Entry(b)
  {
    assert [a, b][1..] == [b];
  }

  /** How messages are rendered. */
  lemma MessageExamples(h: string, a: Cause, b: Cause)
    ensures Message(h, [a]) == h + "[" + (a.field + ": " + a.message) + "]"
    ensures Message(h, [a, b]) == h + "[" + (a.field + ": " + a.message + ", " + (b.field + ": " + b.message)) + "]"
  {
    RenderTwo(a, b);
  }

  /** From `b` on a closing bracket or the end comes before the next line break. */
  predicate ReachesEnd(s: string, b: nat) {
    exists j :: b <= j <= |s| && '\n' !in s[b..j] && (j == |s| || s[j] == ']')
  }

  /** Where the rest of the pattern `is invalid:\s(\[)?(.*?)(\]|$)` matches. */
  lemma CandidateExactly(s: string, h: nat)
    ensures IsCandidate(s, h) <==>
              && h + 12 <= |s| && s[h..h + 11] == "is invalid:" && s[h + 11] in " \t\n\r\U{0C}"
              && ReachesEnd(s, h + 12)
  {
    assert |HEADER| == 11;
    if h + 12 <= |s| {
      assert s[h + |HEADER| + 1..] == s[h + 12..];
      TailExactly(s, h + 12);
      SpaceExactly(s[h + 11]);
      assert OccursAt(s, HEADER, h) <==> s[h..h + 11] == "is invalid:";
      assert IsCandidate(s, h) <==> OccursAt(s, HEADER, h) && IsSpace(s[h + 11]) && TailMatches(s[h + 12..]);
    }
  }

  lemma SpaceExactly(c: char)
    ensures IsSpace(c) <==> c in " \t\n\r\U{0C}"
  {
    var spaces := " \t\n\r\U{0C}";
    assert spaces[0] == ' ' && spaces[1] == '\t' && spaces[2] == '\n' && spaces[3] == '\r' && spaces[4] == '\U{0C}';
  }

  lemma TailExactly(s: string, b: nat)
    requires b <= |s|
    ensures TailMatches(s[b..]) <==> ReachesEnd(s, b)
  {
    var t := s[b..];
    forall j | 0 <= j <= |t|
      ensures HasNoNewline(t[..j]) && (j == |t| || t[j] == ']')
         <==> '\n' !in s[b..b + j] && (b + j == |s| || s[b + j] == ']')
    {
      assert t[..j] == s[b..b + j];
    }
    if ReachesEnd(s, b) {
      var j :| b <= j <= |s| && '\n' !in s[b..j] && (j == |s| || s[j] == ']');
      assert s[b..b + (j - b)] == s[b..j];
      assert HasNoNewline(t[..j - b]);
    }
    if TailMatches(t) {
      var j :| 0 <= j <= |t| && HasNoNewline(t[..j]) && (j == |t| || t[j] == ']');
      assert '\n' !in s[b..b + j];
    }
  }

  lemma {:induction false} FirstMatchIsFirst(s: string, i: nat)
    requires FirstMatch(s, i).Some?
    ensures i <= FirstMatch(s, i).value.0
    ensures forall j: nat, k: nat :: i <= j < FirstMatch(s, i).value.0 ==> !MatchesFrom(s, j, k)
    ensures forall k: nat :: MatchesFrom(s, FirstMatch(s, i).value.0, k) ==> k <= FirstMatch(s, i).value.1
    decreases |s| + 1 - i
  {
    LastFromIsLast(s, i, |s|);
    if LastFrom(s, i, |s|).None? {
      FirstMatchIsFirst(s, i + 1);
    }
  }

  /**
   * The header is the part of a line from its start up to the last words of the pattern on it, and the
   * white space behind them; no earlier position has a match.
   */
  lemma HeaderSpan(message: string) returns (i: nat, h: nat)
    requires Header(message).Some?
    ensures i <= h && IsCandidate(message, h) && Header(message) == Some(message[i..h + 12])
    ensures '\n' !in message[i..h] && (i == 0 || message[i - 1] == '\n')
    ensures forall k: nat :: h < k <= |message| && '\n' !in message[i..k] ==> !IsCandidate(message, k)
    ensures forall j: nat, k: nat :: j < i ==> !MatchesFrom(message, j, k)
  {
    i, h := FirstMatch(message, 0).value.0, FirstMatch(message, 0).value.1;
    FirstMatchIsFirst(message, 0);
    forall k: nat | h < k <= |message| && '\n' !in message[i..k]
      ensures !IsCandidate(message, k)
    {
      assert HasNoNewline(message[i..k]);
      assert !MatchesFrom(message, i, k);
    }
    if i > 0 && message[i - 1] != '\n' {
      assert message[i - 1..h] == [message[i - 1]] + message[i..h];
      assert MatchesFrom(message, i - 1, h);
    }
  }

  /** A header on one line, with the words of the pattern at its end and nowhere else. */
  ghost predicate IsProperHeader(h: string) {
    && HasNoNewline(h)
    && |h| > |HEADER| && OccursAt(h, HEADER, |h| - |HEADER| - 1) && IsSpace(h[|h| - 1])
    && forall k: nat :: OccursAt(h, HEADER, k) ==> k == |h| - |HEADER| - 1
  }

  /** A cause whose rendering stays on one line and does not contain the words of the pattern. */
  predicate IsProperCause(c: Cause) {
    HasNoNewline(Entry(c)) && !Contains(Entry(c), HEADER)
  }

  lemma OccurrenceHead(s: string, pattern: string, i: nat)
    requires OccursAt(s, pattern, i) && pattern != []
    ensures s[i] == pattern[0]
  {
  }

  lemma ContainsPrepended(c: char, s: string, pattern: string)
    requires pattern != [] && c != pattern[0] && !Contains(s, pattern)
    ensures !Contains([c] + s, pattern)
  {
    if Contains([c] + s, pattern) {
      var i :| 0 <= i <= |[c] + s| && OccursAt([c] + s, pattern, i);
      OccurrenceHead([c] + s, pattern, i);
      OccursInConcat([c], s, pattern, i);
      assert false;
    }
  }

  lemma {:induction false} RenderHasNoHeader(causes: seq<Cause>)
    requires forall c | c in causes :: !Contains(Entry(c), HEADER)
    ensures !Contains(Render(causes), HEADER)
  {
    if |causes| == 0 {
      assert forall i :: 0 <= i <= 0 ==> !OccursAt("", HEADER, i);
    } else {
      var c, rest := causes[0], causes[1..];
      assert c in causes;
      if |causes| > 1 {
        RenderHasNoHeader(rest);
        var r := Render(rest);
        ContainsPrepended(' ', r, HEADER);
        ContainsAcross(Entry(c), ',', [' '] + r, HEADER);
        assert Render(causes) == Entry(c) + [','] + ([' '] + r);
      }
    }
  }

  lemma {:induction false} RenderIsOneLine(causes: seq<Cause>)
    requires forall c | c in causes :: HasNoNewline(Entry(c))
    ensures HasNoNewline(Render(causes))
  {
    if |causes| > 0 {
      assert causes[0] in causes;
      RenderIsOneLine(causes[1..]);
    }
  }

  /** What follows the header in a rebuilt message. */
  function Tail(causes: seq<Cause>): string {
    ['['] + Render(causes) + [']']
  }

  /**
   * In a rebuilt message the pattern finds the header exactly when the list of causes has a closing
   * bracket before its first line break.
   */
  lemma HeaderFoundExactly(h: string, causes: seq<Cause>)
    requires IsProperHeader(h) && forall c | c in causes :: !Contains(Entry(c), HEADER)
    ensures Header(Message(h, causes)) == if TailMatches(Tail(causes)) then Some(h) else None
  {
    RenderHasNoHeader(causes);
    var tail := Tail(causes);
    var m := Message(h, causes);
    var at := |h| - |HEADER| - 1;
    assert m == h + tail;
    OnlyHeader(h, causes, tail);
    OccursInConcat(h, tail, HEADER, at);
    assert m[at + |HEADER| + 1..] == tail;
    if TailMatches(tail) {
      assert HasNoNewline(m[0..at]);
      assert MatchesFrom(m, 0, at);
      LastFromIsLast(m, 0, |m|);
      assert m[0..at + |HEADER| + 1] == h;
    } else {
      NoMatchFrom(m, 0);
    }
  }

  /** The message that was built has the header it was built with. */
  lemma HeaderOfMessage(h: string, causes: seq<Cause>)
    requires IsProperHeader(h) && forall c | c in causes :: IsProperCause(c)
    ensures Header(Message(h, causes)) == Some(h)
  {
    RenderIsOneLine(causes);
    HeaderFoundExactly(h, causes);
    var tail := Tail(causes);
    assert HasNoNewline(tail) && tail[..|tail|] == tail;
  }

  lemma ContainsClosed(s: string)
    requires !Contains(s, HEADER)
    ensures !Contains(s + [']'], HEADER)
  {
    ContainsAcross(s, ']', "", HEADER);
    assert s + [']'] + "" == s + [']'];
    assert forall i :: 0 <= i <= 0 ==> !OccursAt("", HEADER, i);
  }

  lemma OnlyHeader(h: string, causes: seq<Cause>, tail: string)
    requires IsProperHeader(h) && tail == Tail(causes)
    requires !Contains(Render(causes), HEADER)
    ensures forall k: nat :: OccursAt(h + tail, HEADER, k) ==> k == |h| - |HEADER| - 1
  {
    var r := Render(causes);
    ContainsClosed(r);
    forall k: nat | OccursAt(h + tail, HEADER, k)
      ensures k == |h| - |HEADER| - 1
    {
      if k + |HEADER| <= |h| {
        OccursInConcat(h, tail, HEADER, k);
      } else if k <= |h| {
        assert h + tail == h + ['['] + (r + [']']);
        Straddles(h, '[', r + [']'], HEADER, k);
      } else {
        assert h + tail == (h + ['[']) + (r + [']']);
        OccursInConcat(h + ['['], r + [']'], HEADER, k);
      }
    }
  }

  lemma {:induction false} NoMatchFrom(s: string, i: nat)
    ensures FirstMatch(s, i).None? <==> forall h: nat :: i <= h <= |s| ==> !IsCandidate(s, h)
    decreases |s| + 1 - i
  {
    if i <= |s| {
      LastFromIsLast(s, i, |s|);
      NoMatchFrom(s, i + 1);
      if IsCandidate(s, i) {
        assert s[i..i] == [];
        assert MatchesFrom(s, i, i);
      }
    }
  }

  /** A call panics exactly when some cause survives and the message has no header followed by a one-line list. */
  lemma PanicsExactly(field: string, message: string, causes: seq<Cause>)
    ensures Ignored(field, message, causes).NoHeader? <==>
              && (exists c | c in causes :: !(field <= c.field))
              && (forall h: nat :: h <= |message| ==> !IsCandidate(message, h))
  {
    NoMatchFrom(message, 0);
    FilterMembers(Survives(field), causes);
    var survivors := Filter(Survives(field), causes);
    if survivors != [] {
      assert survivors[0] in survivors;
    }
  }

  lemma NoOccurrence(s: string, pattern: string)
    requires pattern != [] && pattern[0] !in s
    ensures !Contains(s, pattern)
  {
    forall i | 0 <= i <= |s|
      ensures !OccursAt(s, pattern, i)
    {
      if OccursAt(s, pattern, i) {
        OccurrenceStart(s, pattern, i);
      }
    }
  }

  lemma LineBreakHidesHeader(tail: string, k: nat)
    requires k < |tail| && tail[k] == '\n' && ']' !in tail[..k]
    ensures !TailMatches(tail)
  {
    forall j | 0 <= j <= |tail|
      ensures !(HasNoNewline(tail[..j]) && (j == |tail| || tail[j] == ']'))
    {
      if j > k {
        assert tail[..j][k] == '\n';
      } else {
        assert j < k ==> tail[j] == tail[..k][j];
      }
    }
  }

  lemma HeaderOfExample(h: string)
    requires h == "x is invalid: "
    ensures IsProperHeader(h)
  {
    assert h[2..13] == HEADER;
    assert OccursAt(h, HEADER, 2);
    forall k: nat | OccursAt(h, HEADER, k)
      ensures k == 2
    {
      OccurrenceHead(h, HEADER, k);
    }
  }

  lemma TailOfExample(a: Cause, b: Cause)
    requires Entry(a) == "a: \n"
    ensures !TailMatches(Tail([a, b]))
  {
    RenderTwo(a, b);
    var tail := Tail([a, b]);
    assert tail[..5] == "[a: \n";
    assert tail[..4] == "[a: ";
    LineBreakHidesHeader(tail, 4);
  }

  /** A message with two causes, the first of which has a line break: ignoring the other one panics. */
  lemma PanicIsPossible(message: string, causes: seq<Cause>)
    requires causes == [Cause("FieldValueInvalid", "a", "\n"), Cause("FieldValueInvalid", "b", "")]
    requires message == Message("x is invalid: ", causes)
    ensures Ignored("b", message, causes).NoHeader?
  {
    var a, b := causes[0], causes[1];
    assert Entry(a) == "a: \n" && Entry(b) == "b: ";
    HeaderOfExample("x is invalid: ");
    NoOccurrence(Entry(a), HEADER);
    NoOccurrence(Entry(b), HEADER);
    TailOfExample(a, b);
    HeaderFoundExactly("x is invalid: ", causes);
    FilterMembers(Survives("b"), causes);
    assert a.field[0] != "b"[0];
    assert a in causes && Survives("b")(a);
  }

  /** Ignoring several fields, one call after the other; a cleared error stays cleared. */
  function IgnoreAll(fields: seq<string>, message: string, causes: seq<Cause>): Remainder {
    if |fields| == 0 then Remaining(message, causes)
    else match IgnoreAll(fields[..|fields| - 1], message, causes)
      case Cleared => Cleared
      case NoHeader => NoHeader
      case Remaining(m, cs) => Ignored(fields[|fields| - 1], m, cs)
  }

  lemma IgnoreAllPush(fields: seq<string>, field: string, message: string, causes: seq<Cause>)
    ensures IgnoreAll(fields + [field], message, causes)
         == match IgnoreAll(fields, message, causes) {
              case Cleared => Cleared
              case NoHeader => NoHeader
              case Remaining(m, cs) => Ignored(field, m, cs)
            }
  {
  }

  /** The chain of calls in an admission check, each of which gets the error that the one before gave back. */
  method IgnoreFields(fields: seq<string>, err: Option<Err>) returns (outcome: Outcome)
    modifies if IsFiltered(err) then {err.value.details} else {}
    ensures err.None? || err.value.Plain? || err.value.reason != "Invalid" || err.value.details == null ==>
              outcome == Returned(err)
    ensures err.Some? && err.value.Status? && err.value.reason == "Invalid" && err.value.details != null ==>
      match IgnoreAll(fields, err.value.message, old(err.value.details.causes)) {
        case Cleared => outcome == Returned(None)
        case NoHeader => outcome == Panicked
        case Remaining(message, causes) =>
          outcome == Returned(Some(err.value.(message := message))) && err.value.details.causes == causes
      }
  {
    var now := err;
    outcome := Returned(now);
    for i := 0 to |fields|
      invariant outcome == Returned(now)
      invariant !IsFiltered(err) ==> now == err
      invariant IsFiltered(err) ==>
        match IgnoreAll(fields[..i], err.value.message, old(err.value.details.causes)) {
          case Cleared => now == None
          case NoHeader => false
          case Remaining(message, causes) =>
            now == Some(err.value.(message := message)) && err.value.details.causes == causes
        }
    {
      if IsFiltered(err) {
        IgnoreAllPush(fields[..i], fields[i], err.value.message, old(err.value.details.causes));
      }
      assert fields[..i + 1] == fields[..i] + [fields[i]];
      outcome := IgnoreCAPIErrorForField(fields[i], now);
      if outcome.Panicked? {
        if IsFiltered(err) {
          PanicStays(fields, i + 1, err.value.message, old(err.value.details.causes));
        }
        return;
      }
      now := outcome.err;
    }
    assert fields[..|fields|] == fields;
  }

  lemma {:induction false} PanicStays(fields: seq<string>, i: nat, message: string, causes: seq<Cause>)
    requires i <= |fields| && IgnoreAll(fields[..i], message, causes).NoHeader?
    ensures IgnoreAll(fields, message, causes).NoHeader?
    decreases |fields|
  {
    if i < |fields| {
      assert fields[..|fields| - 1][..i] == fields[..i];
      PanicStays(fields[..|fields| - 1], i, message, causes);
    } else {
      assert fields[..i] == fields;
    }
  }

  function SurvivesAll(fields: seq<string>): Cause -> bool {
    (c: Cause) => forall f | f in fields :: !HasPrefix(c.field, f)
  }

  /** The causes that survive all the fields. */
  function Survivors(fields: seq<string>, causes: seq<Cause>): seq<Cause> {
    Filter(SurvivesAll(fields), causes)
  }

  lemma FilterAnotherField(fields: seq<string>, field: string, causes: seq<Cause>)
    ensures Filter(Survives(field), Filter(SurvivesAll(fields), causes))
         == Filter(SurvivesAll(fields + [field]), causes)
  {
  }

  /** Call `k` gets a message in which the pattern finds nothing, and has causes to report. */
  predicate PanicsAt(fields: seq<string>, message: string, causes: seq<Cause>, k: nat)
    requires k < |fields|
  {
    var before := IgnoreAll(fields[..k], message, causes);
    before.Remaining? && Survivors(fields[..k + 1], causes) != [] && Header(before.message).None?
  }

  lemma PanicsAtPush(fields: seq<string>, field: string, message: string, causes: seq<Cause>)
    ensures (exists k :: 0 <= k <= |fields| && PanicsAt(fields + [field], message, causes, k)) <==>
              || (exists k :: 0 <= k < |fields| && PanicsAt(fields, message, causes, k))
              || PanicsAt(fields + [field], message, causes, |fields|)
  {
    var more := fields + [field];
    forall k | 0 <= k < |fields|
      ensures PanicsAt(more, message, causes, k) <==> PanicsAt(fields, message, causes, k)
    {
      assert more[..k + 1] == fields[..k + 1] && more[..k] == fields[..k];
    }
  }

  /**
   * What is cleared, which causes remain and which chains panic, whatever the messages and the causes
   * look like.
   */
  lemma {:induction false} RemainingCausesExactly(fields: seq<string>, message: string, causes: seq<Cause>)
    ensures match IgnoreAll(fields, message, causes)
      case Cleared => Survivors(fields, causes) == []
      case Remaining(_, cs) => cs == Survivors(fields, causes) && (|fields| > 0 ==> cs != [])
      case NoHeader => exists k :: 0 <= k < |fields| && PanicsAt(fields, message, causes, k)
    ensures (exists k :: 0 <= k < |fields| && PanicsAt(fields, message, causes, k)) ==>
              IgnoreAll(fields, message, causes).NoHeader?
  {
    if |fields| == 0 {
      FilterAll(SurvivesAll(fields), causes);
    } else {
      var init, last := fields[..|fields| - 1], fields[|fields| - 1];
      assert fields == init + [last];
      RemainingCausesExactly(init, message, causes);
      FilterAnotherField(init, last, causes);
      IgnoreAllPush(init, last, message, causes);
      PanicsAtPush(init, last, message, causes);
      assert fields[..|init|] == init && fields[..|init| + 1] == fields;
    }
  }

  /** The message that the first `k` calls leave hides its header, and call `k` still has causes to report. */
  predicate BreaksAt(fields: seq<string>, causes: seq<Cause>, k: nat)
    requires k < |fields|
  {
    Survivors(fields[..k + 1], causes) != [] && !TailMatches(Tail(Survivors(fields[..k], causes)))
  }

  /** Some call behind the first one breaks. */
  predicate Breaks(fields: seq<string>, causes: seq<Cause>) {
    exists k :: 0 < k < |fields| && BreaksAt(fields, causes, k)
  }

  /** What a chain gives: a panic, nothing, or the survivors rendered behind the header. */
  function Expected(fields: seq<string>, h: string, causes: seq<Cause>): Remainder {
    if Breaks(fields, causes) then NoHeader
    else if Survivors(fields, causes) == [] then Cleared
    else Remaining(Message(h, Survivors(fields, causes)), Survivors(fields, causes))
  }

  lemma BreaksPush(fields: seq<string>, field: string, causes: seq<Cause>)
    requires |fields| > 0
    ensures Breaks(fields + [field], causes) <==>
              Breaks(fields, causes) || BreaksAt(fields + [field], causes, |fields|)
  {
    var more := fields + [field];
    forall k | 0 < k < |fields|
      ensures BreaksAt(more, causes, k) <==> BreaksAt(fields, causes, k)
    {
      assert more[..k + 1] == fields[..k + 1] && more[..k] == fields[..k];
    }
  }

  lemma SurvivorsPush(fields: seq<string>, field: string, causes: seq<Cause>)
    ensures Filter(Survives(field), Survivors(fields, causes)) == Survivors(fields + [field], causes)
    ensures Survivors(fields, causes) == [] ==> Survivors(fields + [field], causes) == []
  {
    FilterAnotherField(fields, field, causes);
  }

  /** The first call of a chain sees the original message. */
  lemma FirstCall(field: string, message: string, h: string, causes: seq<Cause>)
    requires Header(message) == Some(h)
    ensures IgnoreAll([field], message, causes) == Expected([field], h, causes)
  {
    IgnoreAllPush([], field, message, causes);
    SurvivorsPush([], field, causes);
    FilterAll(SurvivesAll([]), causes);
    assert [] + [field] == [field];
  }

  /** A later call sees the message that was rebuilt from the survivors so far. */
  lemma NextCall(fields: seq<string>, field: string, h: string, causes: seq<Cause>)
    requires IsProperHeader(h) && forall c | c in causes :: !Contains(Entry(c), HEADER)
    requires |fields| > 0 && !Breaks(fields, causes) && Survivors(fields, causes) != []
    ensures Ignored(field, Message(h, Survivors(fields, causes)), Survivors(fields, causes))
         == Expected(fields + [field], h, causes)
  {
    BreaksPush(fields, field, causes);
    SurvivorsPush(fields, field, causes);
    FilterMembers(SurvivesAll(fields), causes);
    HeaderFoundExactly(h, Survivors(fields, causes));
    assert (fields + [field])[..|fields|] == fields && (fields + [field])[..|fields| + 1] == fields + [field];
  }

  /**
   * What a chain of calls does, whatever the causes look like, as long as they do not contain the words
   * of the pattern: it panics exactly when some call but the first has causes to report while those that
   * the calls before have left hide the header, and otherwise gives the surviving causes in their order,
   * rendered behind the header, or nothing when there are none.
   */
  lemma {:induction false} IgnoreAllExactly(fields: seq<string>, message: string, h: string, causes: seq<Cause>)
    requires |fields| > 0 && Header(message) == Some(h) && IsProperHeader(h)
    requires forall c | c in causes :: !Contains(Entry(c), HEADER)
    ensures IgnoreAll(fields, message, causes) == Expected(fields, h, causes)
  {
    var init, last := fields[..|fields| - 1], fields[|fields| - 1];
    assert fields == init + [last];
    if |init| == 0 {
      assert fields == [last];
      FirstCall(last, message, h, causes);
    } else {
      IgnoreAllExactly(init, message, h, causes);
      IgnoreAllPush(init, last, message, causes);
      BreaksPush(init, last, causes);
      SurvivorsPush(init, last, causes);
      assert fields[..|init|] == init && fields[..|init| + 1] == fields;
      if !Breaks(init, causes) && Survivors(init, causes) != [] {
        NextCall(init, last, h, causes);
      }
    }
  }

  /** Without a header in the first message the first call decides. */
  lemma {:induction false} IgnoreAllWithoutHeader(fields: seq<string>, message: string, causes: seq<Cause>)
    requires |fields| > 0 && Header(message).None?
    ensures IgnoreAll(fields, message, causes)
         == if Filter(Survives(fields[0]), causes) == [] then Cleared else NoHeader
  {
    if |fields| > 1 {
      IgnoreAllWithoutHeader(fields[..|fields| - 1], message, causes);
    } else {
      assert fields == [] + [fields[0]];
      IgnoreAllPush([], fields[0], message, causes);
    }
  }

  lemma {:induction false} OneLineMatches(causes: seq<Cause>)
    requires forall c | c in causes :: HasNoNewline(Entry(c))
    ensures TailMatches(Tail(causes))
  {
    RenderIsOneLine(causes);
    var tail := Tail(causes);
    assert HasNoNewline(tail) && tail[..|tail|] == tail;
  }

  /** Causes without line breaks never make a chain panic. */
  lemma OneLineNeverBreaks(fields: seq<string>, causes: seq<Cause>)
    requires forall c | c in causes :: HasNoNewline(Entry(c))
    ensures !Breaks(fields, causes)
  {
    forall k | 0 < k < |fields|
      ensures !BreaksAt(fields, causes, k)
    {
      FilterMembers(SurvivesAll(fields[..k]), causes);
      OneLineMatches(Survivors(fields[..k], causes));
    }
  }

  /**
   * When the order and the repetition of the ignored fields do not matter: exactly when both orders break
   * or neither does.
   */
  lemma FieldOrderExactly(fields: seq<string>, others: seq<string>, message: string, h: string, causes: seq<Cause>)
    requires |fields| > 0 && |others| > 0 && (forall f :: f in fields <==> f in others)
    requires Header(message) == Some(h) && IsProperHeader(h)
    requires forall c | c in causes :: !Contains(Entry(c), HEADER)
    ensures IgnoreAll(fields, message, causes) == IgnoreAll(others, message, causes) <==>
              (Breaks(fields, causes) <==> Breaks(others, causes))
  {
    IgnoreAllExactly(fields, message, h, causes);
    IgnoreAllExactly(others, message, h, causes);
    FilterAgrees(SurvivesAll(fields), SurvivesAll(others), causes);
  }

  /** So they do not matter for causes without line breaks. */
  lemma FieldOrderIsIrrelevant(fields: seq<string>, others: seq<string>, message: string, h: string, causes: seq<Cause>)
    requires |fields| > 0 && |others| > 0 && (forall f :: f in fields <==> f in others)
    requires Header(message) == Some(h) && IsProperHeader(h) && forall c | c in causes :: IsProperCause(c)
    ensures IgnoreAll(fields, message, causes) == IgnoreAll(others, message, causes)
  {
    OneLineNeverBreaks(fields, causes);
    OneLineNeverBreaks(others, causes);
    FieldOrderExactly(fields, others, message, h, causes);
  }

  lemma FirstLineMatches(tail: string, k: nat)
    requires k < |tail| && tail[k] == ']' && HasNoNewline(tail[..k])
    ensures TailMatches(tail)
  {
  }

  lemma RenderThree(a: Cause, b: Cause, c: Cause)
    ensures Render([a, b, c]) == Entry(a) + ", " + (Entry(b) + ", " + Entry(c))
  {
    assert [a, b, c][1..] == [b, c];
    RenderTwo(b, c);
    assert Entry(b) + ", " + Entry(c) == Render([b, c]);
  }

  lemma ClosedInFirst(tail: string)
    requires |tail| >= 5 && tail[..5] == "[p: ]"
    ensures TailMatches(tail)
  {
    assert tail[4] == tail[..5][4] && tail[..4] == tail[..5][..4];
    FirstLineMatches(tail, 4);
  }

  lemma TailOfTwoOrThree(p: Cause, c: Cause, a: Cause)
    requires Entry(p) == "p: ]"
    ensures TailMatches(Tail([p, c])) && TailMatches(Tail([p, a, c]))
  {
    RenderTwo(p, c);
    RenderThree(p, a, c);
    ClosedInFirst(Tail([p, c]));
    ClosedInFirst(Tail([p, a, c]));
  }

  lemma SurvivorsOfExample(p: Cause, a: Cause, c: Cause)
    requires p.field == "p" && a.field == "a" && c.field == "c"
    ensures Survivors(["p"], [p, a, c]) == [a, c] && Survivors(["a"], [p, a, c]) == [p, c]
    ensures Survivors(["p", "a"], [p, a, c]) == [c] && Survivors(["a", "p"], [p, a, c]) == [c]
  {
    assert p.field[0] == 'p' && a.field[0] == 'a' && c.field[0] == 'c' && "p"[0] == 'p' && "a"[0] == 'a';
    assert "p" in ["p"] && "a" in ["a"];
    assert "p" in ["p", "a"] && "a" in ["p", "a"] && "p" in ["a", "p"] && "a" in ["a", "p"];
    FilterThree(SurvivesAll(["p"]), p, a, c);
    FilterThree(SurvivesAll(["a"]), p, a, c);
    FilterThree(SurvivesAll(["p", "a"]), p, a, c);
    FilterThree(SurvivesAll(["a", "p"]), p, a, c);
  }

  /** Ignoring "p" before "a" panics in the second call, ignoring "a" before "p" does not. */
  lemma OrderOfExample(p: Cause, a: Cause, c: Cause)
    requires p == Cause("FieldValueInvalid", "p", "]") && a == Cause("FieldValueInvalid", "a", "\n")
    requires c == Cause("FieldValueInvalid", "c", "")
    ensures Breaks(["p", "a"], [p, a, c]) && !Breaks(["a", "p"], [p, a, c])
  {
    SurvivorsOfExample(p, a, c);
    assert Entry(a) == "a: \n" && Entry(p) == "p: ]";
    TailOfExample(a, c);
    TailOfTwoOrThree(p, c, a);
    assert ["p", "a"][..1] == ["p"] && ["p", "a"][..2] == ["p", "a"];
    assert ["a", "p"][..1] == ["a"] && ["a", "p"][..2] == ["a", "p"];
    assert BreaksAt(["p", "a"], [p, a, c], 1);
  }

  /** The order matters: on this message one order panics, although the header is there, and the other does not. */
  lemma FieldOrderMayMatter(message: string, causes: seq<Cause>)
    requires causes == [Cause("FieldValueInvalid", "p", "]"), Cause("FieldValueInvalid", "a", "\n"),
                        Cause("FieldValueInvalid", "c", "")]
    requires message == Message("x is invalid: ", causes)
    ensures Header(message) == Some("x is invalid: ")
    ensures IgnoreAll(["p", "a"], message, causes) == NoHeader
    ensures IgnoreAll(["a", "p"], message, causes).Remaining?
  {
    var p, a, c := causes[0], causes[1], causes[2];
    assert Entry(p) == "p: ]" && Entry(a) == "a: \n" && Entry(c) == "c: ";
    NoOccurrence(Entry(p), HEADER);
    NoOccurrence(Entry(a), HEADER);
    NoOccurrence(Entry(c), HEADER);
    HeaderOfExample("x is invalid: ");
    TailOfTwoOrThree(p, c, a);
    HeaderFoundExactly("x is invalid: ", causes);
    OrderOfExample(p, a, c);
    SurvivorsOfExample(p, a, c);
    IgnoreAllExactly(["p", "a"], message, "x is invalid: ", causes);
    IgnoreAllExactly(["a", "p"], message, "x is invalid: ", causes);
  }
}
