/**
 * The filter-state rules of the company explorer, lifted out of the
 * component: the problem key, the clamp, the difficulty toggle, the range
 * inputs and their restoration, the topic checkboxes, the problem filter and
 * the page window.  Rates and bounds are exact reals, not doubles.
 */
module ExplorerRules {
  import opened Wrappers
  import opened Strings

  // ---------------------------------------------------------------------------
  // Records.
  // ---------------------------------------------------------------------------

  datatype Solution = Solution(language: string, url: string)

  /** `frequency` and `acceptanceRate` are `null` or a number; `solutions` may be absent. */
  datatype Problem = Problem(
    difficulty: string,
    title: string,
    frequency: Option<real>,
    acceptanceRate: Option<real>,
    link: string,
    topics: seq<string>,
    solutions: Option<seq<Solution>>)

  datatype Category = Category(name: string, slug: string, count: nat, problems: seq<Problem>)

  datatype Company = Company(
    name: string,
    slug: string,
    totalCategories: nat,
    totalProblems: nat,
    categories: seq<Category>)

  // ---------------------------------------------------------------------------
  // `clampNumber` and `getProblemKey`.
  // ---------------------------------------------------------------------------

  function Min(a: real, b: real): real {
    if a <= b then a else b
  }

  function Max(a: real, b: real): real {
    if a >= b then a else b
  }

  /** `Math.min(Math.max(value, min), max)`. */
  function ClampNumber(value: real, lo: real, hi: real): (r: real)
    ensures r <= hi
    ensures lo <= hi ==> lo <= r
    ensures lo <= value <= hi ==> r == value
    ensures value < lo <= hi ==> r == lo
    ensures lo <= hi < value ==> r == hi
  {
    Min(Max(value, lo), hi)
  }

  /** `problem.link || `${problem.title}-${problem.difficulty}``: the link when it is not empty. */
  function ProblemKey(p: Problem): (key: string)
    ensures key != []
    ensures p.link != [] ==> key == p.link
    ensures p.link == [] ==> |key| == |p.title| + 1 + |p.difficulty| && key[|p.title|] == '-'
                              && key[..|p.title|] == p.title && key[|p.title| + 1..] == p.difficulty
  {
    if p.link != [] then p.link else p.title + "-" + p.difficulty
  }

  // ---------------------------------------------------------------------------
  // Difficulties.
  // ---------------------------------------------------------------------------

  datatype Difficulty = Easy | Medium | Hard

  datatype Difficulties = Difficulties(easy: bool, medium: bool, hard: bool) {
    function Enabled(d: Difficulty): bool {
      match d
      case Easy => easy
      case Medium => medium
      case Hard => hard
    }

    function With(d: Difficulty, on: bool): (r: Difficulties)
      ensures r.Enabled(d) == on
      ensures forall e :: e != d ==> r.Enabled(e) == Enabled(e)
    {
      match d
      case Easy => this.(easy := on)
      case Medium => this.(medium := on)
      case Hard => this.(hard := on)
    }

    predicate AnyEnabled() {
      easy || medium || hard
    }
  }

  const AllDifficulties := Difficulties(true, true, true)

  /** The only flag left on is `d`. */
  predicate OnlyEnabled(prev: Difficulties, d: Difficulty) {
    prev.Enabled(d) && forall e :: e != d ==> !prev.Enabled(e)
  }

  /**
   * `toggleDifficulty`: flip one flag; when that would switch every flag off,
   * switch them all back on instead.
   */
  function ToggleDifficulty(prev: Difficulties, d: Difficulty): (r: Difficulties)
    ensures r.AnyEnabled()
    ensures OnlyEnabled(prev, d) ==> r == AllDifficulties
    ensures !OnlyEnabled(prev, d) ==>
              r.Enabled(d) == !prev.Enabled(d) && forall e :: e != d ==> r.Enabled(e) == prev.Enabled(e)
  {
    var next := prev.With(d, !prev.Enabled(d));
    if !next.AnyEnabled() then
      assert forall e :: e != d ==> !prev.Enabled(e) by {
        forall e | e != d ensures !prev.Enabled(e) {
          assert next.Enabled(e) == prev.Enabled(e);
        }
      }
      AllDifficulties
    else
      assert OnlyEnabled(prev, d) ==> !next.Enabled(Easy) && !next.Enabled(Medium) && !next.Enabled(Hard);
      next
  }

  /** Toggling the same difficulty twice gives the flags back, unless the first toggle had to reset them. */
  lemma ToggleTwice(prev: Difficulties, d: Difficulty)
    requires !OnlyEnabled(prev, d)
    requires prev.AnyEnabled()
    ensures ToggleDifficulty(ToggleDifficulty(prev, d), d) == prev
  {
    var once := ToggleDifficulty(prev, d);
    if OnlyEnabled(once, d) {
      assert prev.Enabled(Easy) == once.Enabled(Easy) || d == Easy;
    }
  }

  /** The difficulty strings the data uses for the three flags. */
  function DifficultyOf(s: string): Option<Difficulty> {
    if s == "EASY" then Some(Easy)
    else if s == "MEDIUM" then Some(Medium)
    else if s == "HARD" then Some(Hard)
    else None
  }

  /** `enabledDifficulties.includes(problem.difficulty)`. */
  predicate DifficultyMatch(ds: Difficulties, s: string) {
    match DifficultyOf(s)
    case Some(d) => ds.Enabled(d)
    case None => false
  }

  // ---------------------------------------------------------------------------
  // Ranges.
  // ---------------------------------------------------------------------------

  datatype Range = Range(min: real, max: real)

  const DefaultRange := Range(0.0, 100.0)

  predicate ValidRange(r: Range) {
    0.0 <= r.min <= r.max <= 100.0
  }

  /** `Math.max(0, Math.min(100, value))`. */
  function ClampPercent(value: real): real {
    Max(0.0, Min(100.0, value))
  }

  /**
   * The min input: `None` stands for an input `Number` reads as `NaN`, which
   * leaves the range alone; otherwise the value is clamped and capped at the max.
   */
  function UpdateMin(prev: Range, value: Option<real>): (r: Range)
    ensures r.max == prev.max
    ensures value.None? ==> r == prev
    ensures value.Some? ==> r.min <= r.max
    ensures value.Some? && ClampPercent(value.value) <= prev.max ==> r.min == ClampPercent(value.value)
    ensures value.Some? && ClampPercent(value.value) > prev.max ==> r.min == prev.max
    ensures ValidRange(prev) ==> ValidRange(r)
  {
    match value
    case None => prev
    case Some(v) =>
      var nextMin := ClampPercent(v);
      prev.(min := Min(nextMin, prev.max))
  }

  /** The max input: clamped, then raised to at least the min. */
  function UpdateMax(prev: Range, value: Option<real>): (r: Range)
    ensures r.min == prev.min
    ensures value.None? ==> r == prev
    ensures value.Some? ==> r.min <= r.max
    ensures value.Some? && ClampPercent(value.value) >= prev.min ==> r.max == ClampPercent(value.value)
    ensures value.Some? && ClampPercent(value.value) < prev.min ==> r.max == prev.min
    ensures ValidRange(prev) ==> ValidRange(r)
  {
    match value
    case None => prev
    case Some(v) =>
      var nextMax := ClampPercent(v);
      prev.(max := Max(nextMax, prev.min))
  }

  /** A saved range: each bound is a number, or something else (`None`). */
  datatype SavedRange = SavedRange(min: Option<real>, max: Option<real>)

  /**
   * Restoring a range from storage: no saved range keeps the current one;
   * otherwise each bound is clamped to 0..100 (a missing one defaults to
   * 0 or 100) and the pair is put in order.
   */
  function RestoreRange(current: Range, saved: Option<SavedRange>): (r: Range)
    ensures saved.None? ==> r == current
    ensures saved.Some? ==> ValidRange(r)
    ensures saved.Some? && saved.value.min.None? ==> r.min == 0.0
    ensures saved.Some? && saved.value.max.None? ==> r.max == 100.0
    ensures saved.Some? && saved.value.min.Some? && saved.value.max.Some?
            && ValidRange(Range(saved.value.min.value, saved.value.max.value))
            ==> r == Range(saved.value.min.value, saved.value.max.value)
    ensures saved.Some? ==>
              var lo := if saved.value.min.Some? then ClampNumber(saved.value.min.value, 0.0, 100.0) else 0.0;
              var hi := if saved.value.max.Some? then ClampNumber(saved.value.max.value, 0.0, 100.0) else 100.0;
              (lo <= hi ==> r == Range(lo, hi)) && (hi < lo ==> r == Range(hi, hi))
  {
    match saved
    case None => current
    case Some(s) =>
      var minValue := match s.min case Some(v) => ClampNumber(v, 0.0, 100.0) case None => 0.0;
      var maxValue := match s.max case Some(v) => ClampNumber(v, 0.0, 100.0) case None => 100.0;
      var nextMin := Min(minValue, maxValue);
      var nextMax := Max(maxValue, nextMin);
      Range(nextMin, nextMax)
  }

  /** A range from 0 to 100 or wider lets every problem through, a null value too; any other range rejects a null. */
  predicate InRange(range: Range, value: Option<real>) {
    if range.min <= 0.0 && range.max >= 100.0 then true
    else match value
      case Some(v) => range.min <= v <= range.max
      case None => false
  }

  // ---------------------------------------------------------------------------
  // Topics.
  // ---------------------------------------------------------------------------

  predicate NoDuplicates(xs: seq<string>) {
    forall i, j :: 0 <= i < j < |xs| ==> xs[i] != xs[j]
  }

  /** `prev.filter((item) => item !== topic)`. */
  function Without(xs: seq<string>, topic: string): (r: seq<string>)
    ensures |r| <= |xs|
    ensures forall x :: x in r <==> x in xs && x != topic
    ensures NoDuplicates(xs) ==> NoDuplicates(r)
  {
    if xs == [] then []
    else if xs[0] == topic then Without(xs[1..], topic)
    else
      var rest := Without(xs[1..], topic);
      assert xs[0] !in xs[1..] ==> xs[0] !in rest;
      [xs[0]] + rest
  }

  /** The checkbox handler: checking adds the topic at the end unless present, unchecking removes it. */
  function ToggleTopic(prev: seq<string>, topic: string, checked: bool): (r: seq<string>)
    ensures checked ==> topic in r
    ensures !checked ==> topic !in r
    ensures forall x :: x != topic ==> (x in r <==> x in prev)
    ensures NoDuplicates(prev) ==> NoDuplicates(r)
    ensures checked && topic in prev ==> r == prev
    ensures checked && topic !in prev ==> r == prev + [topic]
  {
    if checked then
      if topic in prev then prev else prev + [topic]
    else Without(prev, topic)
  }

  /** `prev.filter((topic) => availableTopics.includes(topic))`. */
  function Keep(xs: seq<string>, available: seq<string>): (r: seq<string>)
    ensures |r| <= |xs|
    ensures forall x :: x in r <==> x in xs && x in available
    ensures (forall x :: x in xs ==> x in available) ==> r == xs
    ensures |r| == |xs| ==> r == xs
  {
    if xs == [] then []
    else if xs[0] in available then [xs[0]] + Keep(xs[1..], available)
    else Keep(xs[1..], available)
  }

  /** Like `.filter`, keeping works element by element: order and repeats are kept. */
  lemma {:induction false} KeepAppend(xs: seq<string>, ys: seq<string>, available: seq<string>)
    ensures Keep(xs + ys, available) == Keep(xs, available) + Keep(ys, available)
    ensures forall x :: Keep([x], available) == if x in available then [x] else []
    decreases |xs|
  {
    if xs != [] {
      assert (xs + ys)[1..] == xs[1..] + ys;
      KeepAppend(xs[1..], ys, available);
    } else {
      assert xs + ys == ys;
    }
    forall x ensures Keep([x], available) == if x in available then [x] else [] {
      assert [x][1..] == [];
    }
  }

  /**
   * Pruning the selection when the active category changes: with no
   * category the selection empties; otherwise only available topics stay,
   * and the old list itself is kept when nothing went.
   */
  function PruneTopics(prev: seq<string>, available: Option<seq<string>>): (r: seq<string>)
    ensures available.None? ==> r == []
    ensures available.Some? ==> forall x :: x in r <==> x in prev && x in available.value
    ensures available.Some? && (forall x :: x in prev ==> x in available.value) ==> r == prev
  {
    match available
    case None => if |prev| == 0 then prev else []
    case Some(topics) =>
      var filtered := Keep(prev, topics);
      if |filtered| == |prev| then prev else filtered
  }

  // ---------------------------------------------------------------------------
  // The problem filter.
  // ---------------------------------------------------------------------------

  datatype Filters = Filters(
    difficulties: Difficulties,
    topics: seq<string>,
    acceptance: Range,
    frequency: Range,
    onlyWithSolutions: bool,
    query: string)

  predicate TopicsMatch(selected: seq<string>, topics: seq<string>) {
    |selected| == 0 || forall t :: t in selected ==> t in topics
  }

  predicate HasSolutions(p: Problem) {
    p.solutions.Some? && |p.solutions.value| > 0
  }

  /** The text the query is searched in: the title and the topics, space separated, lower-cased. */
  function Haystack(p: Problem): string {
    Lower(p.title + " " + Join(p.topics, " "))
  }

  predicate QueryMatch(query: string, p: Problem) {
    query == [] || Contains(Haystack(p), Lower(Trim(query)))
  }

  /** The acceptance rate is stored as a fraction and compared as a percentage. */
  function AcceptancePercent(p: Problem): Option<real> {
    match p.acceptanceRate
    case Some(rate) => Some(rate * 100.0)
    case None => None
  }

  /** The predicate of `activeCategory.problems.filter(...)`, test by test. */
  predicate Passes(f: Filters, p: Problem) {
    && DifficultyMatch(f.difficulties, p.difficulty)
    && TopicsMatch(f.topics, p.topics)
    && InRange(f.acceptance, AcceptancePercent(p))
    && InRange(f.frequency, p.frequency)
    && (f.onlyWithSolutions ==> HasSolutions(p))
    && QueryMatch(f.query, p)
  }

  /** The problems of the active category that pass, in category order. */
  function FilterProblems(f: Filters, ps: seq<Problem>): (r: seq<Problem>)
    ensures |r| <= |ps|
    ensures forall p :: p in r <==> p in ps && Passes(f, p)
  {
    if ps == [] then []
    else if Passes(f, ps[0]) then [ps[0]] + FilterProblems(f, ps[1..])
    else FilterProblems(f, ps[1..])
  }

  /** Like `.filter`, the problem filter works problem by problem: category order and repeats are kept. */
  lemma {:induction false} FilterProblemsAppend(f: Filters, ps: seq<Problem>, qs: seq<Problem>)
    ensures FilterProblems(f, ps + qs) == FilterProblems(f, ps) + FilterProblems(f, qs)
    ensures forall p :: FilterProblems(f, [p]) == if Passes(f, p) then [p] else []
    decreases |ps|
  {
    if ps != [] {
      assert (ps + qs)[1..] == ps[1..] + qs;
      FilterProblemsAppend(f, ps[1..], qs);
    } else {
      assert ps + qs == qs;
    }
    forall p ensures FilterProblems(f, [p]) == if Passes(f, p) then [p] else [] {
      assert [p][1..] == [];
    }
  }

  /** A query of blanks matches every problem: it trims to the empty string, which every text includes. */
  lemma BlankQueryMatchesAll(query: string, p: Problem)
    requires AllSpace(query)
    ensures QueryMatch(query, p)
  {
    if query != [] {
      assert Trim(query) == [];
      assert Lower(Trim(query)) == [];
      ContainsEmpty(Haystack(p));
    }
  }

  /** With both ranges full, the rates play no part: problems that differ only in rates pass alike. */
  lemma FullRangesIgnoreRates(f: Filters, p: Problem, acceptance: Option<real>, frequency: Option<real>)
    requires f.acceptance.min <= 0.0 && f.acceptance.max >= 100.0
    requires f.frequency.min <= 0.0 && f.frequency.max >= 100.0
    ensures Passes(f, p) == Passes(f, p.(acceptanceRate := acceptance, frequency := frequency))
  {
  }

  /** With a narrowed range, a problem whose rate is null never passes. */
  lemma NarrowedRangeRejectsNull(f: Filters, p: Problem)
    requires !(f.frequency.min <= 0.0 && f.frequency.max >= 100.0)
    requires p.frequency.None?
    ensures !Passes(f, p)
  {
  }

  // ---------------------------------------------------------------------------
  // The page window.
  // ---------------------------------------------------------------------------

  const PageSize: nat := 40

  /** `activeProblems.slice(0, visibleCount)`. */
  function Visible(ps: seq<Problem>, visibleCount: nat): (r: seq<Problem>)
    ensures r <= ps
    ensures |r| == if visibleCount < |ps| then visibleCount else |ps|
  {
    if visibleCount < |ps| then ps[..visibleCount] else ps
  }

  /** `visibleCount < activeProblems.length`. */
  predicate HasMore(ps: seq<Problem>, visibleCount: nat) {
    visibleCount < |ps|
  }

  /** The "Load more" button shows exactly when some passing problem is not shown. */
  lemma HasMoreIffHidden(ps: seq<Problem>, visibleCount: nat)
    ensures HasMore(ps, visibleCount) <==> |Visible(ps, visibleCount)| < |ps|
  {
  }

  /** "Load more" keeps what is shown and, when there was more, shows more. */
  lemma LoadMoreExtends(ps: seq<Problem>, visibleCount: nat)
    ensures Visible(ps, visibleCount) <= Visible(ps, visibleCount + PageSize)
    ensures HasMore(ps, visibleCount) ==> |Visible(ps, visibleCount)| < |Visible(ps, visibleCount + PageSize)|
  {
  }
}
