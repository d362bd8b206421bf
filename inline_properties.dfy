/**
 * What `renderInline` promises, stated against the reference shapes of the
 * search pattern: the tokens partition the input (the inverse `Source` gives
 * it back), the result is the leftmost-span split, and the nesting is the
 * one the pattern allows (no `*` span inside a `*` span, code and hrefs literal).
 */
module InlineProperties {
  import opened Wrappers
  import opened Strings
  import opened InlineTokenizer

  /** The Markdown text a node sequence was read from: the inverse of `Tokenize`. */
  function Source(ns: seq<Inline>): string
    decreases ns
  {
    if ns == [] then "" else NodeSource(ns[0]) + Source(ns[1..])
  }

  function NodeSource(n: Inline): string
    decreases n
  {
    match n
    case Text(t) => t
    case Strong(c) => "**" + Source(c) + "**"
    case Emphasis(c) => "*" + Source(c) + "*"
    case Code(x) => "`" + x + "`"
    case Link(c, h) => "[" + Source(c) + "](" + h + ")"
  }

  lemma {:induction false} SourceAppend(a: seq<Inline>, b: seq<Inline>)
    ensures Source(a + b) == Source(a) + Source(b)
    decreases |a|
  {
    if a != [] {
      assert (a + b)[0] == a[0];
      assert (a + b)[1..] == a[1..] + b;
      SourceAppend(a[1..], b);
    } else {
      assert a + b == b;
    }
  }

  /** Prefix, token and suffix partition the input: reading the nodes back gives exactly the text. */
  lemma {:induction false} TokenizeSource(s: string)
    ensures Source(Tokenize(s)) == s
    decreases |s|, 2
  {
    if s == [] {
    } else if FindSpan(s, 0).None? {
      SourceSingleton(Text(s));
    } else {
      var m := FindSpan(s, 0).value;
      var prefix: seq<Inline> := if m.start > 0 then [Text(s[..m.start])] else [];
      var token := s[m.start..m.end];
      var pushed := TokenNodes(token);
      var rest := Tokenize(s[m.end..]);
      assert Tokenize(s) == prefix + pushed + rest;
      SourceAppend(prefix + pushed, rest);
      SourceAppend(prefix, pushed);
      SourceSingleton(Text(s[..m.start]));
      assert Source(prefix) == s[..m.start];
      TokenNodesSource(token);
      TokenizeSource(s[m.end..]);
      Delimited(s, m.start, m.end);
    }
  }

  lemma SourceSingleton(n: Inline)
    ensures Source([n]) == NodeSource(n)
  {
    assert [n][1..] == [];
  }

  // The node each alternative yields, one lemma per alternative.

  lemma StrongNodes(t: string)
    requires IsStrongToken(t)
    ensures IsToken(t) && TokenNodes(t) == [Strong(Tokenize(t[2..|t| - 2]))]
  {
  }

  lemma EmphasisNodes(t: string)
    requires IsEmphasisToken(t)
    ensures IsToken(t) && TokenNodes(t) == [Emphasis(Tokenize(t[1..|t| - 1]))]
  {
    assert t[1] == t[1..|t| - 1][0];
  }

  lemma CodeNodes(t: string)
    requires IsCodeToken(t)
    ensures IsToken(t) && TokenNodes(t) == [Code(t[1..|t| - 1])]
  {
  }

  lemma LinkNodes(t: string, m: nat)
    requires IsLinkTokenAt(t, m)
    ensures IsToken(t) && TokenNodes(t) == [Link(Tokenize(t[1..m]), t[m + 2..|t| - 1])]
  {
    assert IsLinkToken(t);
    LinkFallbackUnreachable(t, m);
  }

  /** Each matched token is read back as itself. */
  lemma {:induction false} TokenNodesSource(t: string)
    requires IsToken(t)
    ensures Source(TokenNodes(t)) == t
    decreases |t|, 1
  {
    TokenShape(t);
    if t[0] == '*' && t[1] == '*' {
      StrongSource(t);
    } else if t[0] == '*' {
      EmphasisSource(t);
    } else if t[0] == '`' {
      CodeSource(t);
    } else {
      var m: nat :| IsLinkTokenAt(t, m);
      LinkSource(t, m);
    }
  }

  lemma Delimited(t: string, a: nat, b: nat)
    requires a <= b <= |t|
    ensures t == t[..a] + t[a..b] + t[b..]
  {
  }

  lemma {:induction false} StrongSource(t: string)
    requires IsStrongToken(t)
    ensures IsToken(t) && Source(TokenNodes(t)) == t
    decreases |t|, 0
  {
    var body := t[2..|t| - 2];
    StrongNodes(t);
    SourceSingleton(Strong(Tokenize(body)));
    TokenizeSource(body);
    Delimited(t, 2, |t| - 2);
    assert t[..2] == "**" && t[|t| - 2..] == "**";
  }

  lemma {:induction false} EmphasisSource(t: string)
    requires IsEmphasisToken(t)
    ensures IsToken(t) && Source(TokenNodes(t)) == t
    decreases |t|, 0
  {
    var body := t[1..|t| - 1];
    EmphasisNodes(t);
    SourceSingleton(Emphasis(Tokenize(body)));
    TokenizeSource(body);
    Delimited(t, 1, |t| - 1);
    assert t[..1] == "*" && t[|t| - 1..] == "*";
  }

  lemma CodeSource(t: string)
    requires IsCodeToken(t)
    ensures IsToken(t) && Source(TokenNodes(t)) == t
  {
    var body := t[1..|t| - 1];
    CodeNodes(t);
    SourceSingleton(Code(body));
    Delimited(t, 1, |t| - 1);
    assert t[..1] == "`" && t[|t| - 1..] == "`";
  }

  lemma LinkParts(t: string, m: nat)
    requires IsLinkTokenAt(t, m)
    ensures t == "[" + t[1..m] + "](" + t[m + 2..|t| - 1] + ")"
  {
    var r := "[" + t[1..m] + "](" + t[m + 2..|t| - 1] + ")";
    assert |r| == |t|;
    forall k | 0 <= k < |t|
      ensures r[k] == t[k]
    {
      if k == 0 {
      } else if k < m {
        assert r[k] == t[1..m][k - 1];
      } else if k < m + 2 {
      } else if k < |t| - 1 {
        assert r[k] == t[m + 2..|t| - 1][k - m - 2];
      }
    }
  }

  lemma {:induction false} LinkSource(t: string, m: nat)
    requires IsLinkTokenAt(t, m)
    ensures IsToken(t) && Source(TokenNodes(t)) == t
    decreases |t|, 0
  {
    var caption, href := t[1..m], t[m + 2..|t| - 1];
    LinkNodes(t, m);
    SourceSingleton(Link(Tokenize(caption), href));
    TokenizeSource(caption);
    LinkParts(t, m);
  }

  /** Empty input gives no nodes, and only empty input does. */
  lemma TokenizeEmpty(s: string)
    ensures Tokenize(s) == [] <==> s == []
  {
    TokenizeSource(s);
  }

  /** Input in which the pattern matches nowhere is one `Text` node equal to the input. */
  lemma NoSpanIsText(s: string)
    requires s != []
    requires forall i, e :: 0 <= i < e <= |s| ==> !IsToken(s[i..e])
    ensures Tokenize(s) == [Text(s)]
  {
    FindSpanLeftmost(s);
  }

  /** Otherwise the text before the leftmost token comes first, then the token's node, then the rest, tokenized again. */
  lemma LeftmostSplit(s: string, i: nat, e: nat)
    requires i < e <= |s| && IsToken(s[i..e])
    requires forall i', e' :: 0 <= i' < i && i' < e' <= |s| ==> !IsToken(s[i'..e'])
    ensures Tokenize(s) ==
              (if i > 0 then [Text(s[..i])] else []) + TokenNodes(s[i..e]) + Tokenize(s[e..])
  {
    FindSpanLeftmost(s);
    var m := FindSpan(s, 0).value;
    MatchAtComplete(s, i, e);
  }

  // ---------------------------------------------------------------------------
  // The nesting the pattern allows.
  // ---------------------------------------------------------------------------

  /** No `Strong` or `Emphasis` node anywhere in the tree. */
  predicate StarFree(ns: seq<Inline>)
    decreases ns
  {
    ns == [] || (NodeStarFree(ns[0]) && StarFree(ns[1..]))
  }

  predicate NodeStarFree(n: Inline)
    decreases n
  {
    match n
    case Strong(_) => false
    case Emphasis(_) => false
    case Link(c, _) => StarFree(c)
    case _ => true
  }

  /**
   * The shape of every tree the tokenizer builds: text pieces are never empty,
   * strong and emphasis bodies are non-empty and hold no strong or emphasis,
   * code spans are non-empty and hold no backtick, links have a non-empty
   * caption and a non-empty href without `)`.
   */
  predicate WellFormed(ns: seq<Inline>)
    decreases ns
  {
    ns == [] || (NodeWellFormed(ns[0]) && WellFormed(ns[1..]))
  }

  predicate NodeWellFormed(n: Inline)
    decreases n
  {
    match n
    case Text(t) => t != []
    case Strong(c) => c != [] && StarFree(c) && WellFormed(c)
    case Emphasis(c) => c != [] && StarFree(c) && WellFormed(c)
    case Code(x) => x != [] && '`' !in x
    case Link(c, h) => c != [] && WellFormed(c) && h != [] && ')' !in h
  }

  lemma {:induction false} AppendShapes(a: seq<Inline>, b: seq<Inline>)
    ensures WellFormed(a + b) <==> WellFormed(a) && WellFormed(b)
    ensures StarFree(a + b) <==> StarFree(a) && StarFree(b)
    decreases |a|
  {
    if a != [] {
      assert (a + b)[0] == a[0];
      assert (a + b)[1..] == a[1..] + b;
      AppendShapes(a[1..], b);
    } else {
      assert a + b == b;
    }
  }

  lemma NotInSlice(s: string, c: char, a: nat, b: nat)
    requires a <= b <= |s| && c !in s
    ensures c !in s[a..b]
  {
  }

  lemma ShapesSingleton(n: Inline)
    ensures WellFormed([n]) <==> NodeWellFormed(n)
    ensures StarFree([n]) <==> NodeStarFree(n)
  {
    assert [n][1..] == [];
  }

  /** Every tokenization is well formed, and text without `*` yields no strong or emphasis at all. */
  lemma {:induction false} TokenizeWellFormed(s: string)
    ensures WellFormed(Tokenize(s))
    ensures '*' !in s ==> StarFree(Tokenize(s))
    decreases |s|, 2
  {
    if s == [] {
    } else if FindSpan(s, 0).None? {
      ShapesSingleton(Text(s));
    } else {
      var m := FindSpan(s, 0).value;
      var prefix: seq<Inline> := if m.start > 0 then [Text(s[..m.start])] else [];
      var token := s[m.start..m.end];
      var pushed := TokenNodes(token);
      var rest := Tokenize(s[m.end..]);
      assert Tokenize(s) == prefix + pushed + rest;
      AppendShapes(prefix + pushed, rest);
      AppendShapes(prefix, pushed);
      ShapesSingleton(Text(s[..m.start]));
      TokenNodesWellFormed(token);
      TokenizeWellFormed(s[m.end..]);
      if '*' !in s {
        NotInSlice(s, '*', m.start, m.end);
        NotInSlice(s, '*', m.end, |s|);
        assert s[m.end..|s|] == s[m.end..];
      }
    }
  }

  lemma {:induction false} TokenNodesWellFormed(t: string)
    requires IsToken(t)
    ensures WellFormed(TokenNodes(t))
    ensures '*' !in t ==> StarFree(TokenNodes(t))
    decreases |t|, 1
  {
    TokenShape(t);
    if t[0] == '*' && t[1] == '*' {
      StrongWellFormed(t);
    } else if t[0] == '*' {
      EmphasisWellFormed(t);
    } else if t[0] == '`' {
      CodeNodes(t);
      ShapesSingleton(Code(t[1..|t| - 1]));
    } else {
      var m: nat :| IsLinkTokenAt(t, m);
      LinkWellFormed(t, m);
    }
  }

  lemma {:induction false} StrongWellFormed(t: string)
    requires IsStrongToken(t)
    ensures IsToken(t) && WellFormed(TokenNodes(t))
    decreases |t|, 0
  {
    var body := t[2..|t| - 2];
    StrongNodes(t);
    ShapesSingleton(Strong(Tokenize(body)));
    TokenizeWellFormed(body);
    TokenizeEmpty(body);
  }

  lemma {:induction false} EmphasisWellFormed(t: string)
    requires IsEmphasisToken(t)
    ensures IsToken(t) && WellFormed(TokenNodes(t))
    decreases |t|, 0
  {
    var body := t[1..|t| - 1];
    EmphasisNodes(t);
    ShapesSingleton(Emphasis(Tokenize(body)));
    TokenizeWellFormed(body);
    TokenizeEmpty(body);
  }

  lemma {:induction false} LinkWellFormed(t: string, m: nat)
    requires IsLinkTokenAt(t, m)
    ensures IsToken(t) && WellFormed(TokenNodes(t))
    ensures '*' !in t ==> StarFree(TokenNodes(t))
    decreases |t|, 0
  {
    var caption, href := t[1..m], t[m + 2..|t| - 1];
    LinkNodes(t, m);
    ShapesSingleton(Link(Tokenize(caption), href));
    TokenizeWellFormed(caption);
    TokenizeEmpty(caption);
    if '*' !in t {
      NotInSlice(t, '*', 1, m);
    }
  }

  // ---------------------------------------------------------------------------
  // Worked examples.
  // ---------------------------------------------------------------------------

  /** An unterminated `**` is not a span: the whole text stays one `Text`. */
  lemma UnterminatedStrongIsText()
    ensures Tokenize("a ** b") == [Text("a ** b")]
  {
    var s := "a ** b";
    assert MatchAt(s, 0) == None;
    assert MatchAt(s, 1) == None;
    assert MatchAt(s, 2) == None;
    assert MatchAt(s, 3) == None;
    assert MatchAt(s, 4) == None;
    assert MatchAt(s, 5) == None;
    assert FindSpan(s, 0) == None;
  }

  /** Text with none of the opening characters `*`, `` ` ``, `[` is returned as it is, in one `Text` node. */
  lemma PlainTextIsText(s: string)
    requires s != [] && '*' !in s && '`' !in s && '[' !in s
    ensures Tokenize(s) == [Text(s)]
  {
    forall i, e | 0 <= i < e <= |s| && IsToken(s[i..e])
      ensures false
    {
      TokenShape(s[i..e]);
    }
    NoSpanIsText(s);
  }

  /** One step of the scan: text before the leftmost span, the span's node, then the rest. */
  lemma TokenizeStep(s: string, m: Span)
    requires FindSpan(s, 0) == Some(m) && m.start > 0
    ensures Tokenize(s) == [Text(s[..m.start])] + TokenNodes(s[m.start..m.end]) + Tokenize(s[m.end..])
  {
  }

  lemma LoneStarIsText()
    ensures Tokenize("*") == [Text("*")]
  {
    assert MatchAt("*", 0) == None;
  }

  lemma TailOfNested()
    ensures Tokenize("b* c**") == [Text("b"), Emphasis([Text(" c")]), Text("*")]
  {
    var r := "b* c**";
    assert MatchAt(r, 0) == None;
    assert IndexFrom(r, 3, '*') == 4;
    assert MatchAt(r, 1) == Some(5);
    assert FindSpan(r, 0) == Some(Span(1, 5));
    assert r[..1] == "b" && r[1..5] == "* c*" && r[5..] == "*";
    EmphasisNodes("* c*");
    assert "* c*"[1..3] == " c";
    PlainTextIsText(" c");
    LoneStarIsText();
    TokenizeStep(r, Span(1, 5));
  }

  lemma HeadOfNested()
    ensures FindSpan("**a *b* c**", 0) == Some(Span(1, 5))
  {
    var s := "**a *b* c**";
    assert IndexFrom(s, 2, '*') == 4;
    assert StrongAt(s, 0) == None && EmphasisAt(s, 0) == None;
    assert MatchAt(s, 0) == None;
    assert EmphasisAt(s, 1) == Some(5);
    assert MatchAt(s, 1) == Some(5);
  }

  /** A `*` span cannot sit inside a `**` span: the pattern reads the inner pair as emphasis and leaves stray stars as text. */
  lemma NestedEmphasisSplitsStrong()
    ensures Tokenize("**a *b* c**") ==
              [Text("*"), Emphasis([Text("a ")]), Text("b"), Emphasis([Text(" c")]), Text("*")]
  {
    var head: seq<Inline> := [Text("*"), Emphasis([Text("a ")])];
    var tail: seq<Inline> := [Text("b"), Emphasis([Text(" c")]), Text("*")];
    assert head + tail == [Text("*"), Emphasis([Text("a ")]), Text("b"), Emphasis([Text(" c")]), Text("*")];
    SplitOfNested();
    EmphasisOfNested();
    assert [Text("*")] + TokenNodes("*a *") == head;
    TailOfNested();
  }

  lemma SplitOfNested()
    ensures Tokenize("**a *b* c**") == [Text("*")] + TokenNodes("*a *") + Tokenize("b* c**")
  {
    var s := "**a *b* c**";
    HeadOfNested();
    assert s[..1] == "*";
    assert s[1..5] == "*a *";
    assert s[5..] == "b* c**";
    TokenizeStep(s, Span(1, 5));
  }

  lemma EmphasisOfNested()
    ensures IsToken("*a *") && TokenNodes("*a *") == [Emphasis([Text("a ")])]
  {
    EmphasisNodes("*a *");
    assert "*a *"[1..3] == "a ";
    PlainTextIsText("a ");
  }
}
