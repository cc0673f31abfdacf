/** Extraction of the initializer's function name from a human-readable
    signature such as `function initialize(string,string,uint256)`
    (src/commands/deployViaFactory.ts). `deployViaFactory` searches with
    `/function\s+(\w+)\s*\(/`, `deployViaFactoryByVersion` with the looser
    `/function\s+(\w+)/`; both take the leftmost match and its first group.
    Neither pattern can backtrack usefully (`\s` and `\w` are disjoint, and
    neither contains `(`), so each repetition takes its longest run. */
module Signature {
  import opened Basics
  import opened Js

  const Keyword: string := "function"

  /** First index at or after `i` whose character is not a space. */
  function SkipSpaces(s: string, i: nat): (j: nat)
    requires i <= |s|
    ensures i <= j <= |s|
    ensures forall k :: i <= k < j ==> IsSpace(s[k])
    ensures j < |s| ==> !IsSpace(s[j])
    decreases |s| - i
  {
    if i == |s| || !IsSpace(s[i]) then i else SkipSpaces(s, i + 1)
  }

  /** First index at or after `i` whose character is not a word character. */
  function SkipWord(s: string, i: nat): (j: nat)
    requires i <= |s|
    ensures i <= j <= |s|
    ensures forall k :: i <= k < j ==> IsWordChar(s[k])
    ensures j < |s| ==> !IsWordChar(s[j])
    decreases |s| - i
  {
    if i == |s| || !IsWordChar(s[i]) then i else SkipWord(s, i + 1)
  }

  /** The pattern tried at position `p`: `function`, one or more spaces, the
      captured word, and, when `strict`, optional spaces and `(`. */
  function MatchAt(s: string, p: nat, strict: bool): (r: Option<string>)
    requires p <= |s|
  {
    if !(p + |Keyword| <= |s| && s[p..p + |Keyword|] == Keyword) then None
    else
      var a := p + |Keyword|;
      var b := SkipSpaces(s, a);
      if b == a then None
      else
        var c := SkipWord(s, b);
        if c == b then None
        else if !strict then Some(s[b..c])
        else
          var d := SkipSpaces(s, c);
          if d < |s| && s[d] == '(' then Some(s[b..c]) else None
  }

  /** A match yields a non-empty identifier made of word characters. */
  lemma MatchIsIdentifier(s: string, p: nat, strict: bool)
    requires p <= |s|
    requires MatchAt(s, p, strict).Some?
    ensures |MatchAt(s, p, strict).value| > 0
    ensures forall k :: 0 <= k < |MatchAt(s, p, strict).value| ==> IsWordChar(MatchAt(s, p, strict).value[k])
  {
    var b := SkipSpaces(s, p + |Keyword|);
    var c := SkipWord(s, b);
    assert MatchAt(s, p, strict).value == s[b..c];
  }

  /** The strict pattern matches only where the loose one does, with the same capture. */
  lemma StrictMatchIsLooseMatch(s: string, p: nat)
    requires p <= |s|
    ensures MatchAt(s, p, true).Some? ==> MatchAt(s, p, false) == MatchAt(s, p, true)
  {
  }

  /** The position of the leftmost match at or after `p`. */
  function FirstMatchAt(s: string, p: nat, strict: bool): (q: Option<nat>)
    requires p <= |s|
    ensures q.Some? ==> p <= q.value <= |s| && MatchAt(s, q.value, strict).Some?
    ensures q.Some? ==> forall q' :: p <= q' < q.value ==> MatchAt(s, q', strict).None?
    ensures q.None? ==> forall q' :: p <= q' <= |s| ==> MatchAt(s, q', strict).None?
    decreases |s| - p
  {
    if MatchAt(s, p, strict).Some? then Some(p)
    else if p == |s| then None
    else FirstMatchAt(s, p + 1, strict)
  }

  /** The capture of the leftmost match, if there is one. */
  function FirstMatch(s: string, strict: bool): (r: Option<string>)
    ensures r.Some? <==> FirstMatchAt(s, 0, strict).Some?
    ensures r.Some? ==> r == MatchAt(s, FirstMatchAt(s, 0, strict).value, strict)
    ensures r.Some? ==> |r.value| > 0 && forall k :: 0 <= k < |r.value| ==> IsWordChar(r.value[k])
  {
    match FirstMatchAt(s, 0, strict)
    case None => None
    case Some(q) => MatchIsIdentifier(s, q, strict); MatchAt(s, q, strict)
  }

  /** What a match at `p` with capture `n` starting at `b` means, stated on
      the text itself: `function` at `p`, one or more spaces up to `b`, the
      word `n` at `b` ending where the word characters end and, when
      `strict`, optional spaces and then `(`. */
  predicate CapturesAt(s: string, p: nat, b: nat, n: string, strict: bool)
  {
    p + |Keyword| < b && b + |n| <= |s| &&
    s[p..p + |Keyword|] == Keyword &&
    (forall k :: p + |Keyword| <= k < b ==> IsSpace(s[k])) &&
    IsIdentifier(n) && s[b..b + |n|] == n &&
    (b + |n| == |s| || !IsWordChar(s[b + |n|])) &&
    (strict ==> exists d :: b + |n| <= d < |s| && s[d] == '(' && forall k :: b + |n| <= k < d ==> IsSpace(s[k]))
  }

  /** A word character is never a space, so a space run and a word run meet at one point. */
  lemma WordIsNotSpace(c: char)
    requires IsWordChar(c)
    ensures !IsSpace(c)
  {
  }

  /** Every match the scanner reports is a capture in the sense of `CapturesAt`. */
  lemma MatchAtSound(s: string, p: nat, strict: bool)
    requires p <= |s|
    requires MatchAt(s, p, strict).Some?
    ensures exists b :: CapturesAt(s, p, b, MatchAt(s, p, strict).value, strict)
  {
    var a := p + |Keyword|;
    var b := SkipSpaces(s, a);
    var c := SkipWord(s, b);
    var n := MatchAt(s, p, strict).value;
    assert n == s[b..c];
    assert |n| == c - b;
    forall k | 0 <= k < |n| ensures IsWordChar(n[k]) {
      assert n[k] == s[b + k];
    }
    if strict {
      var d := SkipSpaces(s, c);
      assert c <= d < |s| && s[d] == '(';
    }
    assert CapturesAt(s, p, b, n, strict);
  }

  /** Every capture in the sense of `CapturesAt` is found by the scanner. */
  lemma MatchAtComplete(s: string, p: nat, b: nat, n: string, strict: bool)
    requires CapturesAt(s, p, b, n, strict)
    ensures MatchAt(s, p, strict) == Some(n)
  {
    var a := p + |Keyword|;
    var e := b + |n|;
    assert s[b] == n[0];
    WordIsNotSpace(n[0]);
    assert !IsSpace(s[b]);
    assert SkipSpaces(s, a) == b;
    forall k | b <= k < e ensures IsWordChar(s[k]) {
      assert s[k] == n[k - b];
    }
    assert SkipWord(s, b) == e;
    assert s[b..e] == n;
    if strict {
      var d :| e <= d < |s| && s[d] == '(' && forall k :: e <= k < d ==> IsSpace(s[k]);
      assert !IsSpace(s[d]);
      assert SkipSpaces(s, e) == d;
    }
  }

  /** `FirstMatch` finds the leftmost capture: its result is captured at some
      position and no capture starts earlier, and there is no result exactly
      when the text holds no capture at all. */
  lemma FirstMatchSpec(s: string, strict: bool)
    ensures FirstMatch(s, strict).Some? ==>
      exists p, b :: CapturesAt(s, p, b, FirstMatch(s, strict).value, strict) &&
        forall q, b', n' :: CapturesAt(s, q, b', n', strict) ==> p <= q
    ensures FirstMatch(s, strict).None? ==> forall p, b, n :: !CapturesAt(s, p, b, n, strict)
  {
    var first := FirstMatchAt(s, 0, strict);
    forall q: nat, b': nat, n': string | CapturesAt(s, q, b', n', strict)
      ensures q <= |s| && MatchAt(s, q, strict).Some?
    {
      MatchAtComplete(s, q, b', n', strict);
    }
    if first.Some? {
      var p := first.value;
      MatchAtSound(s, p, strict);
      var b :| CapturesAt(s, p, b, MatchAt(s, p, strict).value, strict);
      assert forall q, b', n' :: CapturesAt(s, q, b', n', strict) ==> p <= q;
    }
  }

  /** `fnSignature.match(/function\s+(\w+)\s*\(/)` and its group 1, as in
      `deployViaFactory`: the word of the leftmost capture followed by `(`. */
  function StrictFunctionName(sig: string): (r: Option<string>)
    ensures r.Some? <==> exists p, b, n :: CapturesAt(sig, p, b, n, true)
    ensures r.Some? ==> exists p, b :: (CapturesAt(sig, p, b, r.value, true) &&
      forall q, b', n' :: CapturesAt(sig, q, b', n', true) ==> p <= q)
  {
    FirstMatchSpec(sig, true);
    FirstMatch(sig, true)
  }

  /** `(fnSignature.match(/function\s+(\w+)/) || [])[1]`, as in
      `deployViaFactoryByVersion`: the word of the leftmost capture. */
  function LooseFunctionName(sig: string): (r: Option<string>)
    ensures r.Some? <==> exists p, b, n :: CapturesAt(sig, p, b, n, false)
    ensures r.Some? ==> exists p, b :: (CapturesAt(sig, p, b, r.value, false) &&
      forall q, b', n' :: CapturesAt(sig, q, b', n', false) ==> p <= q)
  {
    FirstMatchSpec(sig, false);
    FirstMatch(sig, false)
  }

  /** The looser pattern accepts every signature the strict one accepts. */
  lemma LooseAcceptsStrict(sig: string)
    ensures StrictFunctionName(sig).Some? ==> LooseFunctionName(sig).Some?
  {
    var q := FirstMatchAt(sig, 0, true);
    if q.Some? {
      StrictMatchIsLooseMatch(sig, q.value);
      assert FirstMatchAt(sig, 0, false).Some?;
    }
  }

  predicate IsIdentifier(name: string)
  {
    |name| > 0 && forall k :: 0 <= k < |name| ==> IsWordChar(name[k])
  }

  /** `function <name> ...` with a word right after the keyword: the loose
      pattern captures exactly that word (this is where both patterns look first). */
  lemma {:induction false} LooseCapturesLeadingName(name: string, rest: string)
    requires IsIdentifier(name)
    requires rest == [] || !IsWordChar(rest[0])
    ensures LooseFunctionName(Keyword + " " + name + rest) == Some(name)
  {
    var s := Keyword + " " + name + rest;
    var e := 9 + |name|;
    assert s[0..8] == Keyword;
    assert s[8] == ' ';
    assert SkipSpaces(s, 8) == 9 by {
      assert !IsSpace(s[9]) by { assert s[9] == name[0]; }
    }
    assert SkipWord(s, 9) == e by {
      forall k | 9 <= k < e ensures IsWordChar(s[k]) { assert s[k] == name[k - 9]; }
      if e < |s| { assert s[e] == rest[0]; }
    }
    assert s[9..e] == name;
    assert MatchAt(s, 0, false) == Some(name);
  }

  /** A signature of the documented shape, `function <name>(<params>)`, is
      accepted by both patterns and yields `<name>`. */
  lemma DocumentedShapeAccepted(name: string, params: string)
    requires IsIdentifier(name)
    ensures StrictFunctionName(Keyword + " " + name + "(" + params) == Some(name)
    ensures LooseFunctionName(Keyword + " " + name + "(" + params) == Some(name)
  {
    var s := Keyword + " " + name + "(" + params;
    DocumentedShapeMatches(name, params);
    assert StrictFunctionName(s) == FirstMatch(s, true);
    assert LooseFunctionName(s) == FirstMatch(s, false);
  }

  lemma DocumentedShapeMatches(name: string, params: string)
    requires IsIdentifier(name)
    ensures FirstMatch(Keyword + " " + name + "(" + params, true) == Some(name)
    ensures FirstMatch(Keyword + " " + name + "(" + params, false) == Some(name)
  {
    var s := Keyword + " " + name + "(" + params;
    var e := 9 + |name|;
    assert CapturesAt(s, 0, 9, name, true) by {
      assert s[0..8] == Keyword;
      assert s[8] == ' ';
      assert s[9..e] == name;
      assert s[e] == '(';
    }
    MatchAtComplete(s, 0, 9, name, true);
    StrictMatchIsLooseMatch(s, 0);
  }

  /** Without any `(` the strict pattern never matches. */
  lemma StrictNeedsParenthesis(sig: string)
    requires '(' !in sig
    ensures StrictFunctionName(sig) == None
  {
  }

  /** So a signature written without its parameter list, `function <name>`,
      is refused by `deployViaFactory` but accepted by `deployViaFactoryByVersion`. */
  lemma LooseAcceptsMore(name: string)
    requires IsIdentifier(name)
    ensures StrictFunctionName(Keyword + " " + name) == None
    ensures LooseFunctionName(Keyword + " " + name) == Some(name)
  {
    var s := Keyword + " " + name;
    assert s == Keyword + " " + name + [];
    LooseCapturesLeadingName(name, []);
    assert '(' !in s by {
      forall k | 0 <= k < |s| ensures s[k] != '(' {
        if k >= 9 { assert s[k] == name[k - 9]; }
      }
    }
    StrictNeedsParenthesis(s);
  }
}
