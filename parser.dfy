/**
 * `parseMarkdown`: one pass over the lines, updating the shared locals in
 * place.  The locals live in a `BlockSegmenter` object; each method is
 * proved to move its state exactly as the matching `BlockSpec` function does.
 */
module MarkdownParser {
  import opened Wrappers
  import opened Strings
  import opened InlineTokenizer
  import opened BlockPatterns
  import opened BlockSpec

  /** Renders the items of a list one by one, trimming each first. */
  method RenderListItems(items: seq<string>) returns (rendered: seq<seq<Inline>>)
    ensures rendered == RenderItems(items)
  {
    rendered := [];
    for i := 0 to |items|
      invariant |rendered| == i
      invariant forall k :: 0 <= k < i ==> rendered[k] == RenderItem(items[k])
    {
      var item := RenderInline(Trim(items[i]));
      rendered := rendered + [item];
    }
  }

  class BlockSegmenter {
    var elements: seq<Block>
    var paragraph: seq<string>
    var unordered: Option<seq<string>>
    var ordered: Option<OrderedAcc>
    var code: Option<CodeAcc>

    function Current(): State
      reads this
    {
      State(elements, paragraph, unordered, ordered, code)
    }

    predicate Valid()
      reads this
    {
      Inv(Current())
    }

    constructor ()
      ensures Valid() && Current() == Init
    {
      elements := [];
      paragraph := [];
      unordered := None;
      ordered := None;
      code := None;
    }

    method FlushParagraph()
      modifies this
      ensures Current() == BlockSpec.FlushParagraph(old(Current()))
    {
      if |paragraph| == 0 {
        return;
      }
      var text := Join(paragraph, " ");
      var content := RenderInline(text);
      elements := elements + [Paragraph(content)];
      paragraph := [];
    }

    method FlushUnordered()
      modifies this
      ensures Current() == BlockSpec.FlushUnordered(old(Current()))
    {
      if unordered.None? || |unordered.value| == 0 {
        return;
      }
      var items := RenderListItems(unordered.value);
      elements := elements + [UnorderedList(items)];
      unordered := None;
    }

    method FlushOrdered()
      modifies this
      ensures Current() == BlockSpec.FlushOrdered(old(Current()))
    {
      if ordered.None? || |ordered.value.items| == 0 {
        return;
      }
      var items := RenderListItems(ordered.value.items);
      elements := elements + [OrderedList(ordered.value.start, items)];
      ordered := None;
    }

    method FlushCode()
      modifies this
      ensures Current() == BlockSpec.FlushCode(old(Current()))
    {
      if code.None? {
        return;
      }
      var language := Lower(code.value.language);
      var content := Join(code.value.lines, "\n");
      elements := elements + [CodeBlock(language, content)];
      code := None;
    }

    /** Paragraph, unordered, ordered: the flushes a blank or structural line starts with. */
    method FlushTextBlocks()
      modifies this
      ensures Current() == FlushText(old(Current()))
    {
      FlushParagraph();
      FlushUnordered();
      FlushOrdered();
    }

    /** The body of the loop over lines. */
    method ProcessLine(raw: string)
      requires Valid()
      modifies this
      ensures Valid()
      ensures Current() == Step(old(Current()), raw)
    {
      ghost var st := Current();
      if code.Some? {
        ProcessFenceLine(raw);
        assert Step(st, raw) == StepInFence(st, raw);
        return;
      }
      var line := TrimEnd(raw);
      var trimmed := Trim(line);
      if |trimmed| == 0 {
        FlushTextBlocks();
        assert Step(st, raw) == FlushText(st);
        return;
      }
      ProcessText(raw, trimmed);
      assert Step(st, raw) == StepLine(st, raw, trimmed);
    }

    /** Inside a fence. */
    method ProcessFenceLine(raw: string)
      requires code.Some?
      modifies this
      ensures Current() == StepInFence(old(Current()), raw)
    {
      var line := TrimEnd(raw);
      if HasFence(Trim(line)) {
        FlushCode();
      } else {
        code := Some(code.value.(lines := code.value.lines + [raw]));
      }
    }

    /** A non-blank line outside a fence. */
    method ProcessText(raw: string, trimmed: string)
      requires Valid() && code.None?
      modifies this
      ensures Current() == StepLine(old(Current()), raw, trimmed)
    {
      if HasFence(trimmed) {
        FlushTextBlocks();
        code := Some(CodeAcc(FenceLanguage(trimmed), []));
        return;
      }
      if IsRule(trimmed) {
        FlushTextBlocks();
        elements := elements + [Rule];
        return;
      }
      var heading := MatchHeading(trimmed);
      if heading.Some? {
        FlushTextBlocks();
        var level := if heading.value.hashes < 6 then heading.value.hashes else 6;
        var content := RenderInline(Trim(heading.value.text));
        elements := elements + [Heading(HeadingTag(level), content)];
        return;
      }
      var bullet := MatchUnordered(trimmed);
      if bullet.Some? {
        FlushParagraph();
        FlushOrdered();
        unordered := Some(unordered.GetOr([]) + [bullet.value]);
        return;
      }
      var numbered := MatchOrdered(trimmed);
      if numbered.Some? {
        FlushParagraph();
        FlushUnordered();
        if ordered.None? {
          ordered := Some(OrderedAcc(numbered.value.start, []));
        }
        ordered := Some(ordered.value.(items := ordered.value.items + [numbered.value.item]));
        return;
      }
      ProcessContinuation(raw, trimmed);
    }

    /** An indented line extends the last item of the open list; anything else joins the paragraph. */
    method ProcessContinuation(raw: string, trimmed: string)
      requires Valid() && code.None?
      requires !HasFence(trimmed) && !IsRule(trimmed)
      requires MatchHeading(trimmed).None? && MatchUnordered(trimmed).None? && MatchOrdered(trimmed).None?
      modifies this
      ensures Current() == StepLine(old(Current()), raw, trimmed)
    {
      if unordered.Some? && IsIndented(raw) {
        var items := unordered.value;
        items := items[|items| - 1 := items[|items| - 1] + " " + Trim(raw)];
        unordered := Some(items);
        return;
      }
      if ordered.Some? && IsIndented(raw) {
        var items := ordered.value.items;
        items := items[|items| - 1 := items[|items| - 1] + " " + Trim(raw)];
        ordered := Some(ordered.value.(items := items));
        return;
      }
      paragraph := paragraph + [trimmed];
    }

    /** The four flushes after the last line. */
    method Finish()
      modifies this
      ensures Current() == BlockSpec.Finish(old(Current()))
    {
      FlushTextBlocks();
      FlushCode();
    }
  }

  /** `parseMarkdown`: split into lines, process each, flush what is still open. */
  method ParseMarkdown(markdown: string) returns (blocks: seq<Block>)
    ensures blocks == Parse(markdown)
  {
    var lines := Split(NormalizeNewlines(markdown), '\n');
    var segmenter := new BlockSegmenter();
    for i := 0 to |lines|
      invariant segmenter.Valid()
      invariant segmenter.Current() == Run(Init, lines[..i])
    {
      RunPrefix(Init, lines, i);
      segmenter.ProcessLine(lines[i]);
    }
    assert lines[..|lines|] == lines;
    segmenter.Finish();
    blocks := segmenter.elements;
  }
}
