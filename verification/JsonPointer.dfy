/** JSON Pointer (RFC 6901): escaping of reference tokens, and the tokens of a pointer. */
module JsonPointer {
  import opened Wrappers

  /** `strings.ReplaceAll` for a pattern of one character. */
  function ReplaceChar(s: string, c: char, repl: string): string {
    if |s| == 0 then "" else (if s[0] == c then repl else [s[0]]) + ReplaceChar(s[1..], c, repl)
  }

  /** `strings.ReplaceAll` for a pattern of two different characters. */
  function ReplacePair(s: string, c: char, d: char, repl: char): string {
    if |s| < 2 then s
    else if s[0] == c && s[1] == d then [repl] + ReplacePair(s[2..], c, d, repl)
    else [s[0]] + ReplacePair(s[1..], c, d, repl)
  }

  /** The escaping of the controller, after section 3 of RFC 6901. */
  function Escape(s: string): string {
    ReplaceChar(ReplaceChar(s, '~', "~0"), '/', "~1")
  }

  /** Section 4 of RFC 6901: first every "~1" becomes '/', then every "~0" becomes '~'. */
  function Unescape(s: string): string {
    ReplacePair(ReplacePair(s, '~', '1', '/'), '~', '0', '~')
  }

  /** The syntax of a reference token in section 3 of RFC 6901. */
  predicate IsReferenceToken(s: string) {
    forall i :: 0 <= i < |s| ==> IsProperAt(s, i)
  }

  predicate IsProperAt(s: string, i: nat)
    requires i < |s|
  {
    s[i] != '/' && (s[i] == '~' ==> i + 1 < |s| && (s[i + 1] == '0' || s[i + 1] == '1'))
  }

  /** Escaping one character at a time. */
  function Encode(s: string): string {
    if |s| == 0 then ""
    else (if s[0] == '~' then "~0" else if s[0] == '/' then "~1" else [s[0]]) + Encode(s[1..])
  }

  /** Unescaping in one pass. */
  function Decode(s: string): string {
    if |s| == 0 then ""
    else if |s| > 1 && s[0] == '~' then [if s[1] == '0' then '~' else '/'] + Decode(s[2..])
    else [s[0]] + Decode(s[1..])
  }

  lemma {:induction false} ReplaceCharConcat(s: string, t: string, c: char, repl: string)
    ensures ReplaceChar(s + t, c, repl) == ReplaceChar(s, c, repl) + ReplaceChar(t, c, repl)
  {
    if |s| == 0 {
      assert s + t == t;
    } else {
      assert (s + t)[1..] == s[1..] + t;
      ReplaceCharConcat(s[1..], t, c, repl);
    }
  }

  lemma {:induction false} EscapeIsEncode(s: string)
    ensures Escape(s) == Encode(s)
  {
    if |s| > 0 {
      EscapeIsEncode(s[1..]);
      var head := if s[0] == '~' then "~0" else [s[0]];
      ReplaceCharConcat(head, ReplaceChar(s[1..], '~', "~0"), '/', "~1");
      assert s[0] == '~' ==> head[1..] == "0" && head[1..][1..] == "";
      assert s[0] != '~' ==> head[1..] == "";
    }
  }

  lemma TokenTail(s: string, k: nat)
    requires IsReferenceToken(s) && k <= |s|
    ensures IsReferenceToken(s[k..])
    ensures k < |s| ==> IsProperAt(s, k)
  {
    forall i | 0 <= i < |s[k..]|
      ensures IsProperAt(s[k..], i)
    {
      assert IsProperAt(s, k + i);
    }
  }

  lemma {:induction false} EncodeIsReferenceToken(s: string)
    ensures IsReferenceToken(Encode(s))
  {
    if |s| > 0 {
      EncodeIsReferenceToken(s[1..]);
      var rest := Encode(s[1..]);
      var head := if s[0] == '~' then "~0" else if s[0] == '/' then "~1" else [s[0]];
      forall i | 0 <= i < |head + rest|
        ensures IsProperAt(head + rest, i)
      {
        if i >= |head| {
          assert IsProperAt(rest, i - |head|);
        }
      }
    }
  }

  lemma {:induction false} DecodeEncode(s: string)
    ensures Decode(Encode(s)) == s
  {
    if |s| > 0 {
      DecodeEncode(s[1..]);
      var rest := Encode(s[1..]);
      assert ("~0" + rest)[2..] == rest && ("~1" + rest)[2..] == rest && ([s[0]] + rest)[1..] == rest;
    }
  }

  lemma {:induction false} EncodeDecode(s: string)
    requires IsReferenceToken(s)
    ensures Encode(Decode(s)) == s
  {
    if |s| > 0 {
      TokenTail(s, 0);
      if s[0] == '~' {
        TokenTail(s, 2);
        EncodeDecode(s[2..]);
        assert Decode(s)[1..] == Decode(s[2..]);
        assert s == [s[0], s[1]] + s[2..];
      } else {
        TokenTail(s, 1);
        EncodeDecode(s[1..]);
        assert Decode(s)[1..] == Decode(s[1..]);
      }
    }
  }

  lemma PairAtHead(c: char, rest: string, x: char, y: char, repl: char)
    requires c != x
    ensures ReplacePair([c] + rest, x, y, repl) == [c] + ReplacePair(rest, x, y, repl)
  {
  }

  lemma PairMatches(rest: string, x: char, y: char, repl: char)
    ensures ReplacePair([x, y] + rest, x, y, repl) == [repl] + ReplacePair(rest, x, y, repl)
  {
  }

  lemma PairDiffers(rest: string, x: char, z: char, y: char, repl: char)
    requires z != y && z != x
    ensures ReplacePair([x, z] + rest, x, y, repl) == [x, z] + ReplacePair(rest, x, y, repl)
  {
  }

  lemma {:induction false} UnescapeIsDecode(s: string)
    requires IsReferenceToken(s)
    ensures Unescape(s) == Decode(s)
  {
    if |s| > 0 {
      TokenTail(s, 0);
      if s[0] != '~' {
        TokenTail(s, 1);
        UnescapeIsDecode(s[1..]);
        assert s == [s[0]] + s[1..];
        PairAtHead(s[0], s[1..], '~', '1', '/');
        PairAtHead(s[0], ReplacePair(s[1..], '~', '1', '/'), '~', '0', '~');
      } else {
        var rest := s[2..];
        TokenTail(s, 2);
        UnescapeIsDecode(rest);
        assert s == [s[0], s[1]] + rest;
        if s[1] == '0' {
          PairDiffers(rest, '~', '0', '1', '/');
          PairMatches(ReplacePair(rest, '~', '1', '/'), '~', '0', '~');
        } else {
          PairMatches(rest, '~', '1', '/');
          PairAtHead('/', ReplacePair(rest, '~', '1', '/'), '~', '0', '~');
        }
      }
    }
  }

  /** Escaping is undone by unescaping, for every string, and yields a proper reference token. */
  lemma UnescapeEscape(s: string)
    ensures Unescape(Escape(s)) == s && IsReferenceToken(Escape(s))
  {
    EscapeIsEncode(s);
    EncodeIsReferenceToken(s);
    UnescapeIsDecode(Encode(s));
    DecodeEncode(s);
  }

  /** Every reference token is the escaped form of what it unescapes to. */
  lemma EscapeUnescape(s: string)
    requires IsReferenceToken(s)
    ensures Escape(Unescape(s)) == s
  {
    UnescapeIsDecode(s);
    EscapeIsEncode(Decode(s));
    EncodeDecode(s);
  }

  /** What escaping does, character by character. */
  lemma EscapeInWords(s: string, t: string)
    ensures Escape(s + t) == Escape(s) + Escape(t)
    ensures Escape("~") == "~0" && Escape("/") == "~1" && forall c: char :: c != '~' && c != '/' ==> Escape([c]) == [c]
  {
    ReplaceCharConcat(s, t, '~', "~0");
    ReplaceCharConcat(ReplaceChar(s, '~', "~0"), ReplaceChar(t, '~', "~0"), '/', "~1");
    forall c: char
      ensures Escape([c]) == if c == '~' then "~0" else if c == '/' then "~1" else [c]
    {
      EscapeIsEncode([c]);
      assert [c][1..] == [];
    }
    assert "~" == ['~'] && "/" == ['/'];
  }

  lemma EscapeIsInjective(s: string, t: string)
    requires Escape(s) == Escape(t)
    ensures s == t
  {
    UnescapeEscape(s);
    UnescapeEscape(t);
  }

  predicate IsPlain(s: string) {
    forall c | c in s :: c != '~' && c != '/'
  }

  lemma {:induction false} EscapePlain(s: string)
    requires IsPlain(s)
    ensures Escape(s) == s
  {
    EscapeIsEncode(s);
    if |s| > 0 {
      assert s == [s[0]] + s[1..] && s[0] in s;
      assert forall c | c in s[1..] :: c in s;
      EscapePlain(s[1..]);
      EscapeIsEncode(s[1..]);
    }
  }

  /** The pieces between the slashes. */
  function Split(s: string): (r: seq<string>)
    ensures |r| > 0
  {
    if |s| == 0 then [""]
    else
      var rest := Split(s[1..]);
      if s[0] == '/' then [""] + rest else [[s[0]] + rest[0]] + rest[1..]
  }

  function UnescapeAll(raw: seq<string>): seq<string> {
    seq(|raw|, i requires 0 <= i < |raw| => Unescape(raw[i]))
  }

  /** The reference tokens of a pointer, `None` when its syntax is wrong. */
  function Tokens(path: string): Option<seq<string>> {
    if path == "" then Some([])
    else if path[0] != '/' then None
    else
      var raw := Split(path[1..]);
      if forall t | t in raw :: IsReferenceToken(t) then Some(UnescapeAll(raw)) else None
  }

  /** The pointer with the given tokens. */
  function Pointer(tokens: seq<string>): string {
    if |tokens| == 0 then "" else "/" + (Escape(tokens[0]) + Pointer(tokens[1..]))
  }

  lemma {:induction false} SplitNoSlash(s: string, rest: string)
    requires '/' !in s
    ensures Split(s) == [s]
    ensures Split(s + "/" + rest) == [s] + Split(rest)
  {
    if |s| == 0 {
      assert s + "/" + rest == "/" + rest;
      assert ("/" + rest)[1..] == rest;
    } else {
      SplitNoSlash(s[1..], rest);
      assert (s + "/" + rest)[1..] == s[1..] + "/" + rest;
      assert s == [s[0]] + s[1..];
    }
  }

  lemma EscapeHasNoSlash(s: string)
    ensures '/' !in Escape(s)
  {
    UnescapeEscape(s);
    forall i | 0 <= i < |Escape(s)|
      ensures Escape(s)[i] != '/'
    {
      assert IsProperAt(Escape(s), i);
    }
  }

  function EscapeAll(tokens: seq<string>): seq<string> {
    seq(|tokens|, i requires 0 <= i < |tokens| => Escape(tokens[i]))
  }

  lemma SplitHead(head: string, tail: string)
    requires '/' !in head && |tail| > 0 && tail[0] == '/'
    ensures Split(head + tail) == [head] + Split(tail[1..])
  {
    assert head + tail == head + "/" + tail[1..];
    SplitNoSlash(head, tail[1..]);
  }

  lemma PointerTail(tokens: seq<string>)
    requires |tokens| > 0
    ensures |Pointer(tokens)| > 0 && Pointer(tokens)[0] == '/'
    ensures Pointer(tokens)[1..] == Escape(tokens[0]) + Pointer(tokens[1..])
  {
  }

  lemma {:induction false} SplitPointer(tokens: seq<string>)
    requires |tokens| > 0
    ensures Split(Pointer(tokens)[1..]) == EscapeAll(tokens)
  {
    PointerTail(tokens);
    EscapeHasNoSlash(tokens[0]);
    if |tokens| == 1 {
      SplitNoSlash(Escape(tokens[0]), "");
      assert Escape(tokens[0]) + "" == Escape(tokens[0]);
    } else {
      SplitPointer(tokens[1..]);
      PointerTail(tokens[1..]);
      SplitHead(Escape(tokens[0]), Pointer(tokens[1..]));
      assert EscapeAll(tokens) == [Escape(tokens[0])] + EscapeAll(tokens[1..]);
    }
  }

  /** Reading a pointer gives back the tokens it was built from. */
  lemma TokensOfPointer(tokens: seq<string>)
    ensures Tokens(Pointer(tokens)) == Some(tokens)
  {
    if |tokens| > 0 {
      PointerTail(tokens);
      SplitPointer(tokens);
      forall i | 0 <= i < |tokens|
        ensures IsReferenceToken(EscapeAll(tokens)[i]) && Unescape(EscapeAll(tokens)[i]) == tokens[i]
      {
        UnescapeEscape(tokens[i]);
      }
      assert UnescapeAll(EscapeAll(tokens)) == tokens;
    }
  }

  function Join(raw: seq<string>): string {
    if |raw| == 0 then "" else "/" + (raw[0] + Join(raw[1..]))
  }

  lemma JoinCons(c: char, first: string, rest: seq<string>, s: string)
    requires Join([first] + rest) == "/" + s
    ensures Join([[c] + first] + rest) == "/" + ([c] + s)
  {
    assert ([first] + rest)[1..] == rest && ([[c] + first] + rest)[1..] == rest;
    assert s == ("/" + s)[1..] == ("/" + (first + Join(rest)))[1..] == first + Join(rest);
    assert [c] + first + Join(rest) == [c] + (first + Join(rest));
  }

  lemma {:induction false} JoinSplit(s: string)
    ensures Join(Split(s)) == "/" + s
  {
    if |s| > 0 {
      JoinSplit(s[1..]);
      var rest := Split(s[1..]);
      assert s == [s[0]] + s[1..];
      if s[0] == '/' {
        assert Split(s)[1..] == rest;
      } else {
        assert rest == [rest[0]] + rest[1..];
        JoinCons(s[0], rest[0], rest[1..], s[1..]);
      }
    }
  }

  lemma {:induction false} PointerOfUnescaped(raw: seq<string>)
    requires forall t | t in raw :: IsReferenceToken(t)
    ensures Pointer(UnescapeAll(raw)) == Join(raw)
  {
    if |raw| > 0 {
      EscapeUnescape(raw[0]);
      assert UnescapeAll(raw)[1..] == UnescapeAll(raw[1..]);
      PointerOfUnescaped(raw[1..]);
    }
  }

  /** A pointer is the only one with its tokens. */
  lemma PointerOfTokens(path: string)
    requires Tokens(path).Some?
    ensures Pointer(Tokens(path).value) == path
  {
    if path != "" {
      JoinSplit(path[1..]);
      PointerOfUnescaped(Split(path[1..]));
    }
  }

  /** A pointer of two plain members and one escaped name, as the label and annotation patches build it. */
  lemma MemberPointer(prefix: string, a: string, b: string, name: string)
    requires IsPlain(a) && IsPlain(b) && prefix == "/" + a + "/" + b + "/"
    ensures Tokens(prefix + Escape(name)) == Some([a, b, name])
  {
    EscapePlain(a);
    EscapePlain(b);
    var tokens := [a, b, name];
    assert tokens[1..] == [b, name] && tokens[1..][1..] == [name] && tokens[1..][1..][1..] == [];
    assert Pointer([name]) == "/" + Escape(name) by {
      assert [name][1..] == [];
    }
    assert Pointer([b, name]) == "/" + b + ("/" + Escape(name)) by {
      assert [b, name][1..] == [name];
    }
    assert Pointer(tokens) == prefix + Escape(name);
    TokensOfPointer(tokens);
  }

  lemma {:induction false} PointerConcat(a: seq<string>, b: seq<string>)
    ensures Pointer(a + b) == Pointer(a) + Pointer(b)
  {
    if |a| == 0 {
      assert a + b == b;
    } else {
      assert (a + b)[1..] == a[1..] + b;
      PointerConcat(a[1..], b);
    }
  }

  /** What leads to a position or below it starts with the pointer of the position. */
  lemma PathsBelow(path: string, tokens: seq<string>)
    requires Tokens(path).Some? && tokens <= Tokens(path).value
    ensures Pointer(tokens) <= path
  {
    var all := Tokens(path).value;
    PointerOfTokens(path);
    PointerConcat(tokens, all[|tokens|..]);
    assert all == tokens + all[|tokens|..];
  }

  /** The pointers of plain member names are their paths as the webhooks write them. */
  lemma PlainPointer2(tokens: seq<string>, a: string, b: string, path: string)
    requires tokens == [a, b] && IsPlain(a) && IsPlain(b) && path == "/" + a + "/" + b
    ensures Pointer(tokens) == path
  {
    EscapePlain(a);
    EscapePlain(b);
    assert tokens[1..] == [b] && [b][1..] == [];
    assert Pointer([b]) == "/" + b;
  }

  lemma PlainPointer3(tokens: seq<string>, a: string, b: string, c: string, path: string)
    requires tokens == [a, b, c] && IsPlain(a) && IsPlain(b) && IsPlain(c) && path == "/" + a + "/" + b + "/" + c
    ensures Pointer(tokens) == path
  {
    EscapePlain(a);
    PlainPointer2([b, c], b, c, "/" + b + "/" + c);
    assert tokens[1..] == [b, c];
  }

  lemma PlainPointer5(
      tokens: seq<string>, a: string, b: string, c: string, d: string, e: string, front: string, path: string)
    requires tokens == [a, b, c, d, e]
    requires IsPlain(a) && IsPlain(b) && IsPlain(c) && IsPlain(d) && IsPlain(e)
    requires front == "/" + a + "/" + b + "/" + c && path == front + "/" + d + "/" + e
    ensures Pointer(tokens) == path
  {
    PlainPointer3([a, b, c], a, b, c, front);
    PlainPointer2([d, e], d, e, "/" + d + "/" + e);
    PointerConcat([a, b, c], [d, e]);
    assert tokens == [a, b, c] + [d, e];
  }
}
