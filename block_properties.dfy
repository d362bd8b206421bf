/**
 * What the block parser promises, stated on `BlockSpec`: what each kind of
 * line does to the state, what the flushes emit, how runs of list and fence
 * lines accumulate, and that blocks are only ever appended.
 */
module BlockProperties {
  import opened Wrappers
  import opened Strings
  import opened InlineTokenizer
  import opened InlineProperties
  import opened BlockPatterns
  import opened BlockSpec

  /** The text the classification tests look at: the line without its surrounding whitespace. */
  function LineText(raw: string): string {
    Trim(TrimEnd(raw))
  }

  /** A line is blank exactly when it is whitespace only. */
  lemma BlankIsAllSpace(raw: string)
    ensures LineText(raw) == [] <==> AllSpace(raw)
  {
  }

  /** Outside a fence, a non-blank line goes through the ordered tests. */
  lemma StepOutside(st: State, raw: string)
    requires Inv(st) && st.code.None? && LineText(raw) != []
    ensures Step(st, raw) == StepLine(st, raw, LineText(raw))
  {
  }

  // ---------------------------------------------------------------------------
  // Flushes.
  // ---------------------------------------------------------------------------

  /** Flushing an empty or absent accumulator emits nothing and changes nothing. */
  lemma FlushEmptyIsNoOp(st: State)
    ensures st.paragraph == [] ==> FlushParagraph(st) == st
    ensures st.unordered.None? ==> FlushUnordered(st) == st
    ensures st.ordered.None? ==> FlushOrdered(st) == st
    ensures st.code.None? ==> FlushCode(st) == st
  {
  }

  /** A non-empty paragraph becomes exactly one block, whose text reads back as its lines joined by single spaces. */
  lemma FlushParagraphEmitsOne(st: State)
    requires st.paragraph != []
    ensures var r := FlushParagraph(st);
            |r.elements| == |st.elements| + 1 && st.elements <= r.elements
            && r.elements[|st.elements|].Paragraph?
            && Source(r.elements[|st.elements|].content) == Join(st.paragraph, " ")
            && r == st.(elements := r.elements, paragraph := [])
  {
    TokenizeSource(Join(st.paragraph, " "));
  }

  /** A non-empty list becomes exactly one block with one rendered item per item, and the list is closed. */
  lemma FlushListsEmitOne(st: State)
    ensures st.unordered.Some? && st.unordered.value != [] ==>
              var r := FlushUnordered(st);
              |r.elements| == |st.elements| + 1 && st.elements <= r.elements
              && r.elements[|st.elements|] == UnorderedList(RenderItems(st.unordered.value))
              && |r.elements[|st.elements|].items| == |st.unordered.value|
              && r == st.(elements := r.elements, unordered := None)
    ensures st.ordered.Some? && st.ordered.value.items != [] ==>
              var r := FlushOrdered(st);
              |r.elements| == |st.elements| + 1 && st.elements <= r.elements
              && r.elements[|st.elements|] == OrderedList(st.ordered.value.start, RenderItems(st.ordered.value.items))
              && |r.elements[|st.elements|].items| == |st.ordered.value.items|
              && r == st.(elements := r.elements, ordered := None)
  {
  }

  /** Each rendered list item reads back as its item text, trimmed. */
  lemma RenderItemsSource(items: seq<string>, k: nat)
    requires k < |items|
    ensures |RenderItems(items)| == |items| && Source(RenderItems(items)[k]) == Trim(items[k])
  {
    TokenizeSource(Trim(items[k]));
  }

  /** How many blocks the text flushes will emit. */
  function OpenCount(st: State): nat {
    (if st.paragraph != [] then 1 else 0)
    + (if st.unordered.Some? then 1 else 0)
    + (if st.ordered.Some? then 1 else 0)
  }

  /** The text flushes emit one block per open accumulator, paragraph first, and close them all. */
  lemma FlushTextEmits(st: State)
    requires Inv(st)
    ensures var r := FlushText(st);
            st.elements <= r.elements && |r.elements| == |st.elements| + OpenCount(st)
            && r.paragraph == [] && r.unordered.None? && r.ordered.None? && r.code == st.code
            && (st.paragraph != [] ==> r.elements[|st.elements|].Paragraph?)
  {
  }

  // ---------------------------------------------------------------------------
  // One line of each kind.
  // ---------------------------------------------------------------------------

  /** A blank or whitespace-only line flushes the text accumulators and adds no block of its own. */
  lemma BlankLine(st: State, raw: string)
    requires Inv(st) && st.code.None? && AllSpace(raw)
    ensures Step(st, raw) == FlushText(st)
    ensures |Step(st, raw).elements| == |st.elements| + OpenCount(st)
  {
    BlankIsAllSpace(raw);
    FlushTextEmits(st);
  }

  lemma RuleIsNotFence(t: string)
    requires IsRule(t)
    ensures !HasFence(t)
  {
  }

  /** A line of three or more `-` flushes the text accumulators and adds one rule. */
  lemma RuleLine(st: State, raw: string)
    requires Inv(st) && st.code.None? && IsRule(LineText(raw))
    ensures Step(st, raw).elements == FlushText(st).elements + [Rule]
    ensures Step(st, raw) == FlushText(st).(elements := FlushText(st).elements + [Rule])
  {
    RuleIsNotFence(LineText(raw));
  }

  /**
   * A heading line flushes the text accumulators and adds one heading whose
   * level is the number of leading `#` (one to six) and whose content is the
   * rest of the line.
   */
  lemma HeadingLine(st: State, raw: string)
    requires Inv(st) && st.code.None?
    requires var t := LineText(raw); !HasFence(t) && MatchHeading(t).Some?
    ensures var t := LineText(raw);
            var r := Step(st, raw);
            var n := |FlushText(st).elements|;
            r.elements[..n] == FlushText(st).elements && |r.elements| == n + 1
            && r.elements[n].Heading?
            && r.elements[n].level == RunEnd(t, 0, '#')
            && 1 <= r.elements[n].level <= 6
            && Source(r.elements[n].content) == Trim(MatchHeading(t).value.text)
  {
    var t := LineText(raw);
    var h := MatchHeading(t).value;
    var s1 := FlushText(st);
    var level := if h.hashes < 6 then h.hashes else 6;
    var heading := Heading(HeadingTag(level), Tokenize(Trim(h.text)));
    assert Step(st, raw) == s1.(elements := s1.elements + [heading]) by {
      assert !IsRule(t) by {
        assert t[0] == '#';
      }
      StepOutside(st, raw);
    }
    assert (s1.elements + [heading])[..|s1.elements|] == s1.elements;
    assert heading.level == RunEnd(t, 0, '#') by {
      assert h.hashes < |t| && t[h.hashes] != '#';
      RunEndUnique(t, 0, '#', h.hashes);
    }
    assert Source(heading.content) == Trim(h.text) by {
      TokenizeSource(Trim(h.text));
    }
  }

  /** Seven or more `#` are not a heading: with no list open the line joins the paragraph. */
  lemma SevenHashesIsParagraphText(st: State, raw: string)
    requires Inv(st) && st.code.None? && st.unordered.None? && st.ordered.None?
    requires var t := LineText(raw); |t| >= 7 && (forall m :: 0 <= m < 7 ==> t[m] == '#') && !HasFence(t)
    ensures Step(st, raw) == st.(paragraph := st.paragraph + [LineText(raw)])
  {
    var t := LineText(raw);
    SevenHashesNoHeading(t);
    assert !IsRule(t) by {
      assert t[0] == '#';
    }
    assert DigitsEnd(t, 0) == 0;
  }

  /**
   * An unordered-marker line flushes the paragraph and any ordered list,
   * keeps an open unordered list open, and appends its text as a new item.
   */
  lemma UnorderedLine(st: State, raw: string)
    requires Inv(st) && st.code.None?
    requires var t := LineText(raw); !HasFence(t) && MatchUnordered(t).Some?
    ensures var r := Step(st, raw);
            var s1 := FlushOrdered(FlushParagraph(st));
            r.unordered == Some(st.unordered.GetOr([]) + [MatchUnordered(LineText(raw)).value])
            && r.elements == s1.elements && r.paragraph == [] && r.ordered.None? && r.code.None?
  {
    var t := LineText(raw);
    assert !IsRule(t) by {
      assert IsSpace(t[1]);
    }
    assert MatchHeading(t).None? by {
      assert t[0] != '#';
      assert RunEnd(t, 0, '#') == 0;
    }
  }

  /**
   * An ordered-marker line flushes the paragraph and any unordered list; the
   * list keeps the numeral of its first item and the new item goes last.
   */
  lemma OrderedLine(st: State, raw: string)
    requires Inv(st) && st.code.None?
    requires var t := LineText(raw); !HasFence(t) && MatchOrdered(t).Some?
    ensures var r := Step(st, raw);
            var m := MatchOrdered(LineText(raw)).value;
            var s1 := FlushUnordered(FlushParagraph(st));
            r.ordered.Some?
            && r.ordered.value.start == (if st.ordered.Some? then st.ordered.value.start else m.start)
            && r.ordered.value.items == (if st.ordered.Some? then st.ordered.value.items else []) + [m.item]
            && r.elements == s1.elements && r.paragraph == [] && r.unordered.None? && r.code.None?
  {
    var t := LineText(raw);
    OrderedExcludesOthers(t);
    var m := MatchOrdered(t).value;
    var s1 := FlushUnordered(FlushParagraph(st));
    var acc := if s1.ordered.Some? then s1.ordered.value else OrderedAcc(m.start, []);
    assert Step(st, raw) == StepLine(st, raw, t) == s1.(ordered := Some(acc.(items := acc.items + [m.item])));
  }

  /** A line that matches no marker. */
  predicate PlainText(t: string) {
    t != [] && !HasFence(t) && !IsRule(t) && MatchHeading(t).None?
    && MatchUnordered(t).None? && MatchOrdered(t).None?
  }

  /** An indented plain line under an open list is joined, with one space, onto the last item; nothing else changes. */
  lemma ContinuationLine(st: State, raw: string)
    requires Inv(st) && st.code.None? && PlainText(LineText(raw)) && IsIndented(raw)
    requires st.unordered.Some? || st.ordered.Some?
    ensures var r := Step(st, raw);
            r.elements == st.elements && r.paragraph == st.paragraph && r.code.None?
            && (st.unordered.Some? ==>
                  var old_ := st.unordered.value;
                  r.ordered.None? && r.unordered.Some? && |r.unordered.value| == |old_|
                  && r.unordered.value[..|old_| - 1] == old_[..|old_| - 1]
                  && r.unordered.value[|old_| - 1] == old_[|old_| - 1] + " " + Trim(raw))
            && (st.ordered.Some? ==>
                  var old_ := st.ordered.value.items;
                  r.unordered.None? && r.ordered.Some? && r.ordered.value.start == st.ordered.value.start
                  && |r.ordered.value.items| == |old_|
                  && r.ordered.value.items[..|old_| - 1] == old_[..|old_| - 1]
                  && r.ordered.value.items[|old_| - 1] == old_[|old_| - 1] + " " + Trim(raw))
  {
  }

  /** Any other non-blank line is added, trimmed, to the paragraph. */
  lemma ParagraphLine(st: State, raw: string)
    requires Inv(st) && st.code.None? && PlainText(LineText(raw))
    requires !IsIndented(raw) || (st.unordered.None? && st.ordered.None?)
    ensures Step(st, raw) == st.(paragraph := st.paragraph + [LineText(raw)])
  {
  }

  // ---------------------------------------------------------------------------
  // Fences.
  // ---------------------------------------------------------------------------

  /** A fence line outside a fence flushes the text accumulators and opens a fence with the line's language. */
  lemma FenceOpens(st: State, raw: string)
    requires Inv(st) && st.code.None? && HasFence(LineText(raw))
    ensures Step(st, raw) == FlushText(st).(code := Some(CodeAcc(FenceLanguage(LineText(raw)), [])))
    ensures '`' !in Step(st, raw).code.value.language
  {
    var t := LineText(raw);
    assert Step(st, raw) == FlushText(st).(code := Some(CodeAcc(FenceLanguage(t), []))) by {
      var i :| 0 <= i && FenceAt(t, i);
      assert t != [];
      StepOutside(st, raw);
    }
    assert '`' !in FenceLanguage(t) by {
      var lang := RemoveAll(t, '`');
      assert Trim(lang) == lang[|lang| - |TrimStart(lang)|..][..|Trim(lang)|];
    }
  }

  /** Inside a fence a non-fence line is kept raw, untrimmed, and nothing else happens. */
  lemma LineInFence(st: State, raw: string)
    requires Inv(st) && st.code.Some? && !HasFence(LineText(raw))
    ensures Step(st, raw) == st.(code := Some(st.code.value.(lines := st.code.value.lines + [raw])))
  {
  }

  /** A fence line inside a fence closes it and emits the code block. */
  lemma FenceCloses(st: State, raw: string)
    requires Inv(st) && st.code.Some? && HasFence(LineText(raw))
    ensures Step(st, raw) ==
              st.(elements := st.elements + [CodeBlock(Lower(st.code.value.language), Join(st.code.value.lines, "\n"))],
                  code := None)
  {
  }

  lemma AppendSnoc<T>(a: seq<T>, s: seq<T>)
    requires s != []
    ensures a + s[..|s| - 1] + [s[|s| - 1]] == a + s
  {
    assert s == s[..|s| - 1] + [s[|s| - 1]];
  }

  /** A run of non-fence lines inside a fence is collected verbatim, in order, and emits nothing. */
  lemma {:induction false} FenceCollects(st: State, lines: seq<string>)
    requires Inv(st) && st.code.Some?
    requires forall k :: 0 <= k < |lines| ==> !HasFence(LineText(lines[k]))
    ensures Run(st, lines) == st.(code := Some(st.code.value.(lines := st.code.value.lines + lines)))
    decreases |lines|
  {
    if lines != [] {
      var init := lines[..|lines| - 1];
      var last := lines[|lines| - 1];
      FenceCollects(st, init);
      var mid := st.(code := Some(st.code.value.(lines := st.code.value.lines + init)));
      LineInFence(mid, last);
      AppendSnoc(st.code.value.lines, lines);
    } else {
      assert st.code.value.lines + lines == st.code.value.lines;
    }
  }

  /** At end of input an unterminated fence is still emitted, with all its lines. */
  lemma UnterminatedFenceEmitted(st: State)
    requires Inv(st) && st.code.Some?
    ensures Finish(st).elements ==
              st.elements + [CodeBlock(Lower(st.code.value.language), Join(st.code.value.lines, "\n"))]
  {
  }

  // ---------------------------------------------------------------------------
  // Runs of list lines.
  // ---------------------------------------------------------------------------

  predicate OrderedMarkerLine(raw: string) {
    !HasFence(LineText(raw)) && MatchOrdered(LineText(raw)).Some?
  }

  function ItemOf(raw: string): string {
    match MatchOrdered(LineText(raw))
    case Some(m) => m.item
    case None => ""
  }

  function StartOf(raw: string): nat {
    match MatchOrdered(LineText(raw))
    case Some(m) => m.start
    case None => 0
  }

  lemma ConcatAssoc<T>(a: seq<T>, b: seq<T>, c: seq<T>)
    ensures a + b + c == a + (b + c)
  {
  }

  /** `f` applied to each element, in order. */
  function Map<A, B>(f: A -> B, s: seq<A>): (r: seq<B>)
    ensures |r| == |s|
  {
    if s == [] then [] else [f(s[0])] + Map(f, s[1..])
  }

  lemma {:induction false} MapSnoc<A, B>(f: A -> B, s: seq<A>, x: A)
    ensures Map(f, s + [x]) == Map(f, s) + [f(x)]
    decreases |s|
  {
    if s == [] {
      assert [x][1..] == [];
    } else {
      assert (s + [x])[1..] == s[1..] + [x];
      MapSnoc(f, s[1..], x);
    }
  }

  /** The item texts of a run of lines, in order. */
  function ItemsOf(lines: seq<string>): seq<string> {
    Map(ItemOf, lines)
  }

  /** Every element of `s` satisfies `p`. */
  predicate All<T>(p: T -> bool, s: seq<T>) {
    forall k {:trigger p(s[k])} :: 0 <= k < |s| ==> p(s[k])
  }

  lemma AllSlice<T>(p: T -> bool, s: seq<T>, i: nat, j: nat)
    requires All(p, s) && i <= j <= |s|
    ensures All(p, s[i..j])
  {
    forall k | 0 <= k < j - i
      ensures p(s[i..j][k])
    {
      assert s[i..j][k] == s[i + k];
    }
  }

  /** Reading `a` then `b` is reading `a + b`. */
  lemma {:induction false} RunAppend(st: State, a: seq<string>, b: seq<string>)
    requires Inv(st)
    ensures Run(st, a + b) == Run(Run(st, a), b)
    decreases |b|
  {
    if b == [] {
      assert a + b == a;
    } else {
      var init := b[..|b| - 1];
      assert (a + b)[..|a + b| - 1] == a + init;
      RunAppend(st, a, init);
    }
  }

  /** One more ordered-marker line under an open ordered list: same start, one more item, nothing else changes. */
  lemma OrderedExtend(prev: State, last: string)
    requires Inv(prev) && prev.code.None? && prev.unordered.None? && prev.paragraph == []
    requires prev.ordered.Some? && OrderedMarkerLine(last)
    ensures Step(prev, last) == prev.(ordered := Some(prev.ordered.value.(items := prev.ordered.value.items + [ItemOf(last)])))
  {
    OrderedLine(prev, last);
  }

  /** Under an open ordered list, a run of ordered-marker lines only appends their items. */
  lemma {:induction false} OrderedRunOpen(st: State, lines: seq<string>)
    requires Inv(st) && st.code.None? && st.unordered.None? && st.paragraph == [] && st.ordered.Some?
    requires All(OrderedMarkerLine, lines)
    ensures Run(st, lines) == st.(ordered := Some(st.ordered.value.(items := st.ordered.value.items + ItemsOf(lines))))
    decreases |lines|
  {
    var acc := st.ordered.value;
    if lines == [] {
      assert acc.items + [] == acc.items;
    } else {
      var last := lines[|lines| - 1];
      var init := lines[..|lines| - 1];
      assert init + [last] == lines;
      var prev := st.(ordered := Some(acc.(items := acc.items + ItemsOf(init))));
      assert Run(st, init) == prev by {
        AllSlice(OrderedMarkerLine, lines, 0, |lines| - 1);
        OrderedRunOpen(st, init);
      }
      assert Step(prev, last) == st.(ordered := Some(acc.(items := acc.items + ItemsOf(lines)))) by {
        assert OrderedMarkerLine(lines[|lines| - 1]);
        OrderedExtend(prev, last);
        MapSnoc(ItemOf, init, last);
        ConcatAssoc(acc.items, ItemsOf(init), [ItemOf(last)]);
      }
    }
  }

  /**
   * A run of ordered-marker lines forms one list: its start is the numeral of
   * the first line (or of the list already open), later numerals are ignored,
   * and the items are the lines' texts in order.
   */
  lemma OrderedRun(st: State, lines: seq<string>)
    requires Inv(st) && st.code.None? && lines != []
    requires All(OrderedMarkerLine, lines)
    ensures var r := Run(st, lines);
            r.ordered.Some? && r.code.None? && r.unordered.None? && r.paragraph == []
            && r.ordered.value.start == (if st.ordered.Some? then st.ordered.value.start else StartOf(lines[0]))
            && r.ordered.value.items == (if st.ordered.Some? then st.ordered.value.items else []) + ItemsOf(lines)
  {
    var first := lines[0];
    var rest := lines[1..];
    var before := if st.ordered.Some? then st.ordered.value.items else [];
    var start := if st.ordered.Some? then st.ordered.value.start else StartOf(first);
    var s1 := FlushUnordered(FlushParagraph(st)).(ordered := Some(OrderedAcc(start, before + [ItemOf(first)])));
    assert Run(st, lines) == Run(s1, rest) by {
      assert [first] + rest == lines;
      assert [first][..0] == [];
      RunAppend(st, [first], rest);
      assert OrderedMarkerLine(lines[0]);
      OrderedLine(st, first);
    }
    assert ItemsOf(lines) == [ItemOf(first)] + ItemsOf(rest);
    AllSlice(OrderedMarkerLine, lines, 1, |lines|);
    OrderedRunOpen(s1, rest);
    ConcatAssoc(before, [ItemOf(first)], ItemsOf(rest));
  }

  // ---------------------------------------------------------------------------
  // Order.
  // ---------------------------------------------------------------------------

  /** Each flush keeps the blocks already emitted as a prefix. */
  lemma FlushesExtend(st: State)
    ensures st.elements <= FlushParagraph(st).elements
    ensures st.elements <= FlushUnordered(st).elements
    ensures st.elements <= FlushOrdered(st).elements
    ensures st.elements <= FlushCode(st).elements
    ensures st.elements <= FlushText(st).elements
  {
    var p := FlushParagraph(st);
    var u := FlushUnordered(p);
    assert st.elements <= p.elements <= u.elements <= FlushOrdered(u).elements;
  }

  lemma StepLineExtends(st: State, raw: string, t: string)
    requires Inv(st) && st.code.None?
    ensures st.elements <= StepLine(st, raw, t).elements
  {
    FlushesExtend(st);
    var p := FlushParagraph(st);
    FlushesExtend(p);
    var r := StepLine(st, raw, t);
    var f := FlushText(st);
    if HasFence(t) {
      assert r.elements == f.elements;
    } else if IsRule(t) {
      assert r.elements == f.elements + [Rule];
    } else if MatchHeading(t).Some? {
      var h := MatchHeading(t).value;
      var level := if h.hashes < 6 then h.hashes else 6;
      assert r.elements == f.elements + [Heading(HeadingTag(level), Tokenize(Trim(h.text)))];
    } else if MatchUnordered(t).Some? {
      assert r.elements == FlushOrdered(p).elements;
    } else if MatchOrdered(t).Some? {
      assert r.elements == FlushUnordered(p).elements;
    } else {
      assert r.elements == st.elements;
    }
  }

  /** A line never removes or reorders blocks already emitted. */
  lemma StepExtends(st: State, raw: string)
    requires Inv(st)
    ensures st.elements <= Step(st, raw).elements
  {
    FlushesExtend(st);
    if st.code.None? && LineText(raw) != [] {
      StepOutside(st, raw);
      StepLineExtends(st, raw, LineText(raw));
    }
  }

  /** Blocks are only ever appended, so they come out in the order the parser reaches them. */
  lemma {:induction false} RunExtends(st: State, lines: seq<string>)
    requires Inv(st)
    ensures st.elements <= Run(st, lines).elements
    decreases |lines|
  {
    if lines != [] {
      RunExtends(st, lines[..|lines| - 1]);
      StepExtends(Run(st, lines[..|lines| - 1]), lines[|lines| - 1]);
    }
  }

  /** The blocks emitted while reading the lines come first in the result, followed by what end of input flushes. */
  lemma ParseExtendsRun(markdown: string)
    ensures Run(Init, Lines(markdown)).elements <= Parse(markdown)
    ensures |Parse(markdown)| <= |Run(Init, Lines(markdown)).elements| + 3
  {
    var st := Run(Init, Lines(markdown));
    FlushTextEmits(st);
    FlushesExtend(FlushText(st));
  }

  /**
   * A paragraph line that follows a list item, without a blank line, leaves
   * the list open; the paragraph is flushed first, so its block comes out
   * before the list it followed.
   */
  lemma ParagraphAfterItemComesFirst(st: State, raw: string)
    requires Inv(st) && st.code.None? && st.unordered.Some? && st.paragraph == []
    requires PlainText(LineText(raw)) && !IsIndented(raw)
    ensures var r := Step(st, raw);
            var f := FlushText(r);
            r.unordered == st.unordered && r.paragraph == [LineText(raw)]
            && f.elements == st.elements + [Paragraph(Tokenize(LineText(raw))), UnorderedList(RenderItems(st.unordered.value))]
  {
    var t := LineText(raw);
    assert Step(st, raw) == st.(paragraph := [t]);
    assert Join([t], " ") == t;
    var p := FlushParagraph(st.(paragraph := [t]));
    assert p == st.(elements := st.elements + [Paragraph(Tokenize(t))]);
  }
}
