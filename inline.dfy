/**
 * The inline span tokenizer `renderInline` of the Markdown renderer.
 *
 * The search pattern
 *   (\*\*[^*]+\*\*|\*[^*]+\*|`[^`]+`|\[[^\]]+\]\([^\)]+\))
 * is written out twice: once as the anchored shapes a matched token can have
 * (`IsStrongToken` ... `IsLinkToken`, the reference), and once as the scanners
 * the search performs (`StrongAt` ... `FindSpan`), which are proved to find
 * exactly the leftmost token the reference describes.  `Tokenize` is the
 * specification of the loop, `RenderInline` is the loop itself.
 */
module InlineTokenizer {
  import opened Wrappers
  import opened Strings

  /** The inline nodes `renderInline` produces (plain strings, <strong>, <em>, <code>, <a>). */
  datatype Inline =
    | Text(text: string)
    | Strong(children: seq<Inline>)
    | Emphasis(children: seq<Inline>)
    | Code(code: string)
    | Link(caption: seq<Inline>, href: string)

  /** A match of the search pattern: the token is `s[start..end]`. */
  datatype Span = Span(start: nat, end: nat)

  // ---------------------------------------------------------------------------
  // Reference: the four alternatives, as shapes of the whole token.
  // ---------------------------------------------------------------------------

  /** `\*\*[^*]+\*\*` */
  ghost predicate IsStrongToken(t: string) {
    |t| >= 5 && t[0] == '*' && t[1] == '*' && t[|t| - 2] == '*' && t[|t| - 1] == '*'
    && '*' !in t[2..|t| - 2]
  }

  /** `\*[^*]+\*` */
  ghost predicate IsEmphasisToken(t: string) {
    |t| >= 3 && t[0] == '*' && t[|t| - 1] == '*' && '*' !in t[1..|t| - 1]
  }

  /** `` `[^`]+` `` */
  ghost predicate IsCodeToken(t: string) {
    |t| >= 3 && t[0] == '`' && t[|t| - 1] == '`' && '`' !in t[1..|t| - 1]
  }

  /** `\[[^\]]+\]\([^\)]+\)` with its `]` at index `m`. */
  ghost predicate IsLinkTokenAt(t: string, m: nat) {
    2 <= m && m + 3 < |t| && t[0] == '[' && ']' !in t[1..m] && t[m] == ']' && t[m + 1] == '('
    && ')' !in t[m + 2..|t| - 1] && t[|t| - 1] == ')'
  }

  ghost predicate IsLinkToken(t: string) {
    exists m: nat :: IsLinkTokenAt(t, m)
  }

  ghost predicate IsToken(t: string) {
    IsStrongToken(t) || IsEmphasisToken(t) || IsCodeToken(t) || IsLinkToken(t)
  }

  /** What the dispatch on `token.startsWith(...)` relies on: the first characters decide the alternative. */
  lemma TokenShape(t: string)
    requires IsToken(t)
    ensures |t| >= 3
    ensures t[0] == '*' || t[0] == '`' || t[0] == '['
    ensures t[0] == '*' && t[1] == '*' ==> IsStrongToken(t)
    ensures t[0] == '*' && t[1] != '*' ==> IsEmphasisToken(t)
    ensures t[0] == '`' ==> IsCodeToken(t)
    ensures t[0] == '[' ==> IsLinkToken(t)
  {
    if IsEmphasisToken(t) {
      assert t[1] == t[1..|t| - 1][0];
    }
    if IsLinkToken(t) {
      var m: nat :| IsLinkTokenAt(t, m);
    }
  }

  // ---------------------------------------------------------------------------
  // The search: each alternative tried at one position, then leftmost position.
  // ---------------------------------------------------------------------------

  /** End of a `\*\*[^*]+\*\*` match starting at `i`, if any. */
  function StrongAt(s: string, i: nat): Option<nat>
    requires i < |s|
  {
    if s[i] == '*' && i + 1 < |s| && s[i + 1] == '*' then
      var j := IndexFrom(s, i + 2, '*');
      if j > i + 2 && j + 1 < |s| && s[j + 1] == '*' then Some(j + 2) else None
    else None
  }

  /** End of a `\*[^*]+\*` match starting at `i`, if any. */
  function EmphasisAt(s: string, i: nat): Option<nat>
    requires i < |s|
  {
    if s[i] == '*' then
      var j := IndexFrom(s, i + 1, '*');
      if j > i + 1 && j < |s| then Some(j + 1) else None
    else None
  }

  /** End of a `` `[^`]+` `` match starting at `i`, if any. */
  function CodeAt(s: string, i: nat): Option<nat>
    requires i < |s|
  {
    if s[i] == '`' then
      var j := IndexFrom(s, i + 1, '`');
      if j > i + 1 && j < |s| then Some(j + 1) else None
    else None
  }

  /** End of a `\[[^\]]+\]\([^\)]+\)` match starting at `i`, if any. */
  function LinkAt(s: string, i: nat): Option<nat>
    requires i < |s|
  {
    if s[i] == '[' then
      var j := IndexFrom(s, i + 1, ']');
      if j > i + 1 && j + 1 < |s| && s[j + 1] == '(' then
        var k := IndexFrom(s, j + 2, ')');
        if k > j + 2 && k < |s| then Some(k + 1) else None
      else None
    else None
  }

  // Each scanner finds exactly the tokens of its alternative.

  lemma StrongAtSound(s: string, i: nat)
    requires i < |s| && StrongAt(s, i).Some?
    ensures i < StrongAt(s, i).value <= |s| && IsStrongToken(s[i..StrongAt(s, i).value])
  {
    var e := StrongAt(s, i).value;
    SliceOfSlice(s, i, e, 2, e - i - 2);
  }

  lemma StrongAtComplete(s: string, i: nat, e: nat)
    requires i < e <= |s| && IsStrongToken(s[i..e])
    ensures StrongAt(s, i) == Some(e)
  {
    SliceOfSlice(s, i, e, 2, e - i - 2);
    IndexFromUnique(s, i + 2, '*', e - 2);
  }

  lemma EmphasisAtSound(s: string, i: nat)
    requires i < |s| && EmphasisAt(s, i).Some?
    ensures i < EmphasisAt(s, i).value <= |s| && IsEmphasisToken(s[i..EmphasisAt(s, i).value])
  {
    var e := EmphasisAt(s, i).value;
    SliceOfSlice(s, i, e, 1, e - i - 1);
  }

  lemma EmphasisAtComplete(s: string, i: nat, e: nat)
    requires i < e <= |s| && IsEmphasisToken(s[i..e])
    ensures EmphasisAt(s, i) == Some(e)
  {
    SliceOfSlice(s, i, e, 1, e - i - 1);
    IndexFromUnique(s, i + 1, '*', e - 1);
  }

  lemma CodeAtSound(s: string, i: nat)
    requires i < |s| && CodeAt(s, i).Some?
    ensures i < CodeAt(s, i).value <= |s| && IsCodeToken(s[i..CodeAt(s, i).value])
  {
    var e := CodeAt(s, i).value;
    SliceOfSlice(s, i, e, 1, e - i - 1);
  }

  lemma CodeAtComplete(s: string, i: nat, e: nat)
    requires i < e <= |s| && IsCodeToken(s[i..e])
    ensures CodeAt(s, i) == Some(e)
  {
    SliceOfSlice(s, i, e, 1, e - i - 1);
    IndexFromUnique(s, i + 1, '`', e - 1);
  }

  lemma LinkAtSound(s: string, i: nat)
    requires i < |s| && LinkAt(s, i).Some?
    ensures i < LinkAt(s, i).value <= |s| && IsLinkToken(s[i..LinkAt(s, i).value])
  {
    var e := LinkAt(s, i).value;
    var t := s[i..e];
    var m: nat := IndexFrom(s, i + 1, ']') - i;
    SliceOfSlice(s, i, e, 1, m);
    SliceOfSlice(s, i, e, m + 2, |t| - 1);
    assert IsLinkTokenAt(t, m);
  }

  lemma LinkAtComplete(s: string, i: nat, e: nat)
    requires i < e <= |s| && IsLinkToken(s[i..e])
    ensures LinkAt(s, i) == Some(e)
  {
    var t := s[i..e];
    var m: nat :| IsLinkTokenAt(t, m);
    assert s[i] == '[' && s[i + m] == ']' && s[i + m + 1] == '(' && s[e - 1] == ')' by {
      assert t[0] == s[i] && t[m] == s[i + m] && t[m + 1] == s[i + m + 1] && t[|t| - 1] == s[e - 1];
    }
    IndexInSlice(s, i, e, 1, m, ']');
    IndexInSlice(s, i, e, m + 2, |t| - 1, ')');
  }

  /** A `c` at `i + b` with none in `s[i..e][a..b]` is the first one from `i + a`. */
  lemma IndexInSlice(s: string, i: nat, e: nat, a: nat, b: nat, c: char)
    requires i <= e <= |s| && a <= b < e - i
    requires c !in s[i..e][a..b] && s[i + b] == c
    ensures IndexFrom(s, i + a, c) == i + b
  {
    SliceOfSlice(s, i, e, a, b);
    IndexFromUnique(s, i + a, c, i + b);
  }

  /** The alternation, tried in the pattern's order at position `i`. */
  function MatchAt(s: string, i: nat): (e: Option<nat>)
    requires i < |s|
    ensures e.Some? ==> i < e.value <= |s| && IsToken(s[i..e.value])
  {
    var strong := StrongAt(s, i);
    if strong.Some? then
      StrongAtSound(s, i);
      strong
    else
      var em := EmphasisAt(s, i);
      if em.Some? then
        EmphasisAtSound(s, i);
        em
      else
        var code := CodeAt(s, i);
        if code.Some? then
          CodeAtSound(s, i);
          code
        else
          var link := LinkAt(s, i);
          if link.Some? then
            LinkAtSound(s, i);
            link
          else
            None
  }

  /** The scanner finds every token the reference describes: at most one alternative fits at a position, and it fixes the end. */
  lemma MatchAtComplete(s: string, i: nat, e: nat)
    requires i < e <= |s| && IsToken(s[i..e])
    ensures MatchAt(s, i) == Some(e)
  {
    var t := s[i..e];
    TokenShape(t);
    assert s[i] == t[0] && s[i + 1] == t[1];
    if t[0] == '*' && t[1] == '*' {
      StrongAtComplete(s, i, e);
    } else if t[0] == '*' {
      EmphasisAtComplete(s, i, e);
    } else if t[0] == '`' {
      CodeAtComplete(s, i, e);
    } else {
      LinkAtComplete(s, i, e);
    }
  }

  /** `remaining.match(pattern)`: the first position, from `k` on, where some alternative matches. */
  function FindSpan(s: string, k: nat): (m: Option<Span>)
    requires k <= |s|
    ensures m.Some? ==> k <= m.value.start < m.value.end <= |s|
    ensures m.Some? ==> MatchAt(s, m.value.start) == Some(m.value.end)
    ensures forall i :: k <= i < (if m.Some? then m.value.start else |s|) ==> MatchAt(s, i).None?
    decreases |s| - k
  {
    if k == |s| then None
    else
      match MatchAt(s, k)
      case Some(e) => Some(Span(k, e))
      case None => FindSpan(s, k + 1)
  }

  /** The search returns the leftmost token of the reference, or reports that there is none. */
  lemma FindSpanLeftmost(s: string)
    ensures FindSpan(s, 0).Some? ==> IsToken(s[FindSpan(s, 0).value.start..FindSpan(s, 0).value.end])
    ensures forall i, e :: 0 <= i < e <= |s| && IsToken(s[i..e]) ==>
              FindSpan(s, 0).Some? && FindSpan(s, 0).value.start <= i
  {
    forall i, e | 0 <= i < e <= |s| && IsToken(s[i..e])
      ensures FindSpan(s, 0).Some? && FindSpan(s, 0).value.start <= i
    {
      MatchAtComplete(s, i, e);
    }
  }

  // ---------------------------------------------------------------------------
  // The anchored re-match of a link token, and the tokenizer itself.
  // ---------------------------------------------------------------------------

  /** `token.match(/^\[([^\]]+)\]\(([^)]+)\)$/)`: the caption and href of a whole-token link. */
  function MatchLink(t: string): (r: Option<(string, string)>)
    ensures r.Some? ==> t == "[" + r.value.0 + "](" + r.value.1 + ")"
    ensures r.Some? ==> r.value.0 != [] && ']' !in r.value.0 && r.value.1 != [] && ')' !in r.value.1
  {
    if |t| >= 1 && t[0] == '[' then
      var j := IndexFrom(t, 1, ']');
      if j > 1 && j + 1 < |t| && t[j + 1] == '(' then
        var k := IndexFrom(t, j + 2, ')');
        if k > j + 2 && k == |t| - 1 then
          assert t == "[" + t[1..j] + "](" + t[j + 2..k] + ")" by {
            var u := "[" + t[1..j] + "](" + t[j + 2..k] + ")";
            assert |u| == |t|;
            forall m | 0 <= m < |t| ensures u[m] == t[m] {
              if m == 0 {
              } else if m < j {
                assert u[m] == t[1..j][m - 1];
              } else if m < j + 2 {
              } else if m < k {
                assert u[m] == t[j + 2..k][m - j - 2];
              }
            }
          }
          Some((t[1..j], t[j + 2..k]))
        else None
      else None
    else None
  }

  /** The `nodes.push(token)` fallback cannot be reached: a link token always re-matches, with the caption and href the search saw. */
  lemma LinkFallbackUnreachable(t: string, m: nat)
    requires IsLinkTokenAt(t, m)
    ensures MatchLink(t) == Some((t[1..m], t[m + 2..|t| - 1]))
  {
    IndexFromUnique(t, 1, ']', m);
    IndexFromUnique(t, m + 2, ')', |t| - 1);
  }

  /** The nodes pushed for one matched token. */
  function TokenNodes(token: string): seq<Inline>
    requires IsToken(token)
    decreases |token|, 0
  {
    TokenShape(token);
    if token[0] == '*' && token[1] == '*' then
      [Strong(Tokenize(token[2..|token| - 2]))]
    else if token[0] == '*' then
      [Emphasis(Tokenize(token[1..|token| - 1]))]
    else if token[0] == '`' then
      [Code(token[1..|token| - 1])]
    else if token[0] == '[' then
      match MatchLink(token)
      case Some((caption, href)) => [Link(Tokenize(caption), href)]
      case None => [Text(token)]
    else
      []
  }

  /** What `renderInline(text)` returns. */
  function Tokenize(s: string): (r: seq<Inline>)
    decreases |s|, 1
  {
    if s == [] then []
    else
      match FindSpan(s, 0)
      case None => [Text(s)]
      case Some(m) =>
        (if m.start > 0 then [Text(s[..m.start])] else [])
        + TokenNodes(s[m.start..m.end])
        + Tokenize(s[m.end..])
  }

  lemma AppendAssoc<T>(a: seq<T>, b: seq<T>, c: seq<T>, d: seq<T>)
    ensures a + b + c + d == a + (b + c + d)
  {
  }

  /** The loop of `renderInline`: cut the text before the leftmost span, push the span, go on with the rest. */
  method RenderInline(text: string) returns (nodes: seq<Inline>)
    ensures nodes == Tokenize(text)
    decreases |text|, 1
  {
    nodes := [];
    var remaining := text;
    while |remaining| > 0
      invariant |remaining| <= |text|
      invariant nodes + Tokenize(remaining) == Tokenize(text)
      decreases |remaining|
    {
      var found := FindSpan(remaining, 0);
      if found.None? {
        nodes := nodes + [Text(remaining)];
        break;
      }
      var m := found.value;
      var token := remaining[m.start..m.end];
      ghost var before := nodes;
      ghost var prefix := if m.start > 0 then [Text(remaining[..m.start])] else [];
      var rest := remaining[m.end..];
      assert Tokenize(remaining) == prefix + TokenNodes(token) + Tokenize(rest);
      if m.start > 0 {
        nodes := nodes + [Text(remaining[..m.start])];
      }
      var pushed := RenderToken(token);
      nodes := nodes + pushed;
      AppendAssoc(before, prefix, pushed, Tokenize(rest));
      remaining := rest;
    }
  }

  /** The nodes for one matched token, chosen by its first characters. */
  method RenderToken(token: string) returns (pushed: seq<Inline>)
    requires IsToken(token)
    ensures pushed == TokenNodes(token)
    decreases |token|, 0
  {
    TokenShape(token);
    if token[0] == '*' && token[1] == '*' {
      var inner := RenderInline(token[2..|token| - 2]);
      pushed := [Strong(inner)];
    } else if token[0] == '*' {
      var inner := RenderInline(token[1..|token| - 1]);
      pushed := [Emphasis(inner)];
    } else if token[0] == '`' {
      pushed := [Code(token[1..|token| - 1])];
    } else {
      var linkMatch := MatchLink(token);
      if linkMatch.Some? {
        var caption := RenderInline(linkMatch.value.0);
        pushed := [Link(caption, linkMatch.value.1)];
      } else {
        pushed := [Text(token)];
      }
    }
  }
}
