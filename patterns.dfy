/**
 * The line patterns of the block parser, written out as scanners over the
 * characters of one line.  JavaScript semantics are kept: `\s` is `IsSpace`,
 * `.` is any character but a line terminator, `$` is the end of the text,
 * `\d` is an ASCII digit, and a greedy run followed by a class it cannot
 * share backtracks to nothing new, so each pattern has at most one match.
 */
module BlockPatterns {
  import opened Wrappers
  import opened Strings

  // ---------------------------------------------------------------------------
  // Fences: `/`{3,}(.*)$/`, searched anywhere in the line.
  // ---------------------------------------------------------------------------

  /** Three backticks at `i`, and no line terminator after them (so `.*` reaches the end). */
  predicate FenceAt(s: string, at: nat) {
    at + 3 <= |s| && s[at] == '`' && s[at + 1] == '`' && s[at + 2] == '`' && NoLineTerminator(s[at + 3..])
  }

  function HasFenceFrom(s: string, k: nat): (b: bool)
    requires k <= |s|
    ensures b <==> exists i :: k <= i && FenceAt(s, i)
    decreases |s| - k
  {
    if k + 3 > |s| then false else FenceAt(s, k) || HasFenceFrom(s, k + 1)
  }

  /** `CODE_FENCE.test(s)`: the pattern matches at some position of the line. */
  predicate HasFence(s: string) {
    HasFenceFrom(s, 0)
  }

  /** The search is not anchored: three backticks anywhere in a line without line terminators make it a fence. */
  lemma FenceAnywhere(s: string, i: nat)
    requires i + 3 <= |s| && s[i..i + 3] == "```" && NoLineTerminator(s)
    ensures HasFence(s)
  {
    assert s[i] == s[i..i + 3][0] && s[i + 1] == s[i..i + 3][1] && s[i + 2] == s[i..i + 3][2];
    assert FenceAt(s, i);
  }

  // ---------------------------------------------------------------------------
  // Rules: `/^-{3,}$/`.
  // ---------------------------------------------------------------------------

  predicate IsRule(t: string) {
    |t| >= 3 && forall k :: 0 <= k < |t| ==> t[k] == '-'
  }

  // ---------------------------------------------------------------------------
  // Headings: `/^(#{1,6})\s+(.*)$/`.
  // ---------------------------------------------------------------------------

  /** End of the run of `c` that starts at `k`. */
  function RunEnd(s: string, k: nat, c: char): (j: nat)
    requires k <= |s|
    ensures k <= j <= |s|
    ensures forall m :: k <= m < j ==> s[m] == c
    ensures j < |s| ==> s[j] != c
    decreases |s| - k
  {
    if k == |s| || s[k] != c then k else RunEnd(s, k + 1, c)
  }

  datatype HeadingMatch = HeadingMatch(hashes: nat, text: string)

  /**
   * `line.match(HEADING)`: the `#` run must be one to six long (a seventh `#`
   * stands where `\s` is needed), then at least one space, then the rest of
   * the line, which may hold no line terminator.
   */
  function MatchHeading(t: string): (r: Option<HeadingMatch>)
    ensures r.Some? ==>
              1 <= r.value.hashes <= 6 && r.value.hashes < |t|
              && (forall m :: 0 <= m < r.value.hashes ==> t[m] == '#')
              && IsSpace(t[r.value.hashes])
              && |r.value.text| < |t| - r.value.hashes
              && r.value.text == t[|t| - |r.value.text|..]
              && AllSpace(t[r.value.hashes..|t| - |r.value.text|])
              && NoLineTerminator(r.value.text)
  {
    var h := RunEnd(t, 0, '#');
    if 1 <= h <= 6 && h < |t| && IsSpace(t[h]) then
      var w := SpaceRunEnd(t, h);
      if NoLineTerminator(t[w..]) then Some(HeadingMatch(h, t[w..])) else None
    else None
  }

  /** Every line that opens with one to six `#`, a space and no line terminator is a heading of that level. */
  lemma HeadingComplete(t: string, h: nat)
    requires 1 <= h <= 6 && h < |t|
    requires forall m :: 0 <= m < h ==> t[m] == '#'
    requires IsSpace(t[h]) && NoLineTerminator(t[h..])
    ensures MatchHeading(t).Some? && MatchHeading(t).value.hashes == h
  {
    assert RunEnd(t, 0, '#') == h by {
      RunEndUnique(t, 0, '#', h);
    }
    var w := SpaceRunEnd(t, h);
    assert t[w..] == t[h..][w - h..];
  }

  lemma RunEndUnique(s: string, k: nat, c: char, j: nat)
    requires k <= j <= |s|
    requires forall m :: k <= m < j ==> s[m] == c
    requires j < |s| ==> s[j] != c
    ensures RunEnd(s, k, c) == j
    decreases |s| - k
  {
    if k < j {
      RunEndUnique(s, k + 1, c, j);
    }
  }

  /** Seven or more `#` never make a heading. */
  lemma SevenHashesNoHeading(t: string)
    requires |t| >= 7 && forall m :: 0 <= m < 7 ==> t[m] == '#'
    ensures MatchHeading(t).None?
  {
  }

  /** `createHeading`: levels 1 to 5 keep their own tag, every other level becomes `h6`. */
  function HeadingTag(level: int): (tag: nat)
    ensures 1 <= tag <= 6
    ensures 1 <= level <= 6 ==> tag == level
    ensures (level < 1 || level > 6) ==> tag == 6
  {
    if 1 <= level <= 5 then level else 6
  }

  // ---------------------------------------------------------------------------
  // List markers: `/^[-*+]\s+(.*)$/` and `/^(\d+)[.)]\s+(.*)$/`.
  // ---------------------------------------------------------------------------

  predicate IsBullet(c: char) {
    c == '-' || c == '*' || c == '+'
  }

  /** `line.match(UNORDERED_LIST)`: the item text after the marker and its spaces. */
  function MatchUnordered(t: string): (r: Option<string>)
    ensures r.Some? ==>
              |t| >= 2 && IsBullet(t[0]) && IsSpace(t[1])
              && |r.value| < |t| - 1 && r.value == t[|t| - |r.value|..]
              && AllSpace(t[1..|t| - |r.value|])
              && (r.value != [] ==> !IsSpace(r.value[0]))
              && NoLineTerminator(r.value)
    ensures r.Some? ==> r.value == TrimStart(t[1..])
  {
    if |t| >= 2 && IsBullet(t[0]) && IsSpace(t[1]) then
      SpaceRunEndTrimStart(t, 1);
      var w := SpaceRunEnd(t, 1);
      if NoLineTerminator(t[w..]) then Some(t[w..]) else None
    else None
  }

  predicate IsDigit(c: char) {
    '0' <= c <= '9'
  }

  /** End of the run of digits that starts at `k`. */
  function DigitsEnd(s: string, k: nat): (j: nat)
    requires k <= |s|
    ensures k <= j <= |s|
    ensures forall m :: k <= m < j ==> IsDigit(s[m])
    ensures j < |s| ==> !IsDigit(s[j])
    decreases |s| - k
  {
    if k == |s| || !IsDigit(s[k]) then k else DigitsEnd(s, k + 1)
  }

  function DigitValue(c: char): nat
    requires IsDigit(c)
  {
    c as int - '0' as int
  }

  /** `parseInt(ds, 10)` on a run of decimal digits, without the precision limit of a double. */
  function DecimalValue(ds: string): nat
    requires forall m :: 0 <= m < |ds| ==> IsDigit(ds[m])
  {
    if ds == [] then 0
    else DecimalValue(ds[..|ds| - 1]) * 10 + DigitValue(ds[|ds| - 1])
  }

  datatype OrderedMatch = OrderedMatch(start: nat, item: string)

  /** `line.match(ORDERED_LIST)`: the value of the numeral and the item text. */
  function MatchOrdered(t: string): (r: Option<OrderedMatch>)
    ensures r.Some? ==>
              var d := DigitsEnd(t, 0);
              1 <= d && d + 1 < |t| && (t[d] == '.' || t[d] == ')') && IsSpace(t[d + 1])
              && r.value.start == DecimalValue(t[..d])
    ensures r.Some? ==> r.value.item == t[SpaceRunEnd(t, DigitsEnd(t, 0) + 1)..] && NoLineTerminator(r.value.item)
  {
    var d := DigitsEnd(t, 0);
    if d >= 1 && d + 1 < |t| && (t[d] == '.' || t[d] == ')') && IsSpace(t[d + 1]) then
      var w := SpaceRunEnd(t, d + 1);
      if NoLineTerminator(t[w..]) then
        Some(OrderedMatch(DecimalValue(t[..d]), t[w..]))
      else None
    else None
  }

  /** The item of a numbered line is the text after the marker with its leading whitespace removed. */
  lemma OrderedItem(t: string)
    requires MatchOrdered(t).Some?
    ensures MatchOrdered(t).value.item == TrimStart(t[DigitsEnd(t, 0) + 1..])
  {
    SpaceRunEndTrimStart(t, DigitsEnd(t, 0) + 1);
  }

  /** Every bullet line is a list line: a marker, whitespace and no line terminator always match, and the item is the rest after the whitespace. */
  lemma UnorderedComplete(t: string)
    requires |t| >= 2 && IsBullet(t[0]) && IsSpace(t[1]) && NoLineTerminator(t)
    ensures MatchUnordered(t) == Some(TrimStart(t[1..]))
  {
    var w := SpaceRunEnd(t, 1);
    assert NoLineTerminator(t[w..]) by {
      forall i | 0 <= i < |t[w..]| ensures !IsLineTerminator(t[w..][i]) {
        assert t[w..][i] == t[w + i];
      }
    }
  }

  /** The digits run is the one that ends at the first non-digit. */
  lemma {:induction false} DigitsEndUnique(s: string, k: nat, j: nat)
    requires k <= j <= |s|
    requires forall m :: k <= m < j ==> IsDigit(s[m])
    requires j < |s| ==> !IsDigit(s[j])
    ensures DigitsEnd(s, k) == j
    decreases j - k
  {
    if k < j {
      DigitsEndUnique(s, k + 1, j);
    }
  }

  /** Every numbered line is a list line: digits, `.` or `)`, whitespace and no line terminator always match. */
  lemma OrderedComplete(t: string, d: nat)
    requires 1 <= d && d + 1 < |t| && (forall m :: 0 <= m < d ==> IsDigit(t[m]))
    requires (t[d] == '.' || t[d] == ')') && IsSpace(t[d + 1]) && NoLineTerminator(t)
    ensures MatchOrdered(t) == Some(OrderedMatch(DecimalValue(t[..d]), TrimStart(t[d + 1..])))
  {
    DigitsEndUnique(t, 0, d);
    var w := SpaceRunEnd(t, d + 1);
    assert NoLineTerminator(t[w..]) by {
      forall i | 0 <= i < |t[w..]| ensures !IsLineTerminator(t[w..][i]) {
        assert t[w..][i] == t[w + i];
      }
    }
    assert MatchOrdered(t) == Some(OrderedMatch(DecimalValue(t[..d]), t[w..]));
    OrderedItem(t);
  }


  /** A numbered line opens with a digit, so it is no rule, heading or bullet. */
  lemma OrderedExcludesOthers(t: string)
    requires MatchOrdered(t).Some?
    ensures IsDigit(t[0]) && !IsRule(t) && MatchHeading(t).None? && MatchUnordered(t).None?
  {
    assert IsDigit(t[0]) by {
      assert 1 <= DigitsEnd(t, 0);
    }
    assert RunEnd(t, 0, '#') == 0;
  }

  // ---------------------------------------------------------------------------
  // Continuation lines: `/^\s{2,}(.*)$/`, tested on the raw line.
  // ---------------------------------------------------------------------------

  predicate IsIndented(raw: string) {
    var w := SpaceRunEnd(raw, 0);
    w >= 2 && NoLineTerminator(raw[w..])
  }

  /** A line opening with two spaces and holding no line terminator is indented. */
  lemma TwoSpacesIndent(raw: string)
    requires |raw| >= 2 && IsSpace(raw[0]) && IsSpace(raw[1]) && NoLineTerminator(raw)
    ensures IsIndented(raw)
  {
    var w := SpaceRunEnd(raw, 0);
    assert raw[w..] == raw[..][w..];
  }
}
