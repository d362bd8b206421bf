/**
 * The two builders the explorer derives from the dataset: the "All
 * Companies" entry, whose single category holds every problem once (first
 * occurrence wins) ordered by frequency, and the index from problem key to
 * the companies that list the problem.  Both walk companies, then their
 * categories, then their problems, in order.
 */
module ProblemCatalog {
  import opened Wrappers
  import opened ExplorerRules

  // ---------------------------------------------------------------------------
  // The visit order of the nested `forEach` loops.
  // ---------------------------------------------------------------------------

  /** The problems of the categories, category by category. */
  function CategoryProblems(categories: seq<Category>): seq<Problem> {
    if categories == [] then []
    else CategoryProblems(categories[..|categories| - 1]) + categories[|categories| - 1].problems
  }

  /** The problems of all companies, company by company. */
  function Listed(companies: seq<Company>): seq<Problem> {
    if companies == [] then []
    else Listed(companies[..|companies| - 1]) + CategoryProblems(companies[|companies| - 1].categories)
  }

  lemma CategoryProblemsPrefix(categories: seq<Category>, j: nat)
    requires j < |categories|
    ensures CategoryProblems(categories[..j + 1]) == CategoryProblems(categories[..j]) + categories[j].problems
  {
    assert categories[..j + 1][..j] == categories[..j];
  }

  lemma ListedPrefix(companies: seq<Company>, i: nat)
    requires i < |companies|
    ensures Listed(companies[..i + 1]) == Listed(companies[..i]) + CategoryProblems(companies[i].categories)
  {
    assert companies[..i + 1][..i] == companies[..i];
  }

  // ---------------------------------------------------------------------------
  // First occurrence wins.
  // ---------------------------------------------------------------------------

  function KeysOf(ps: seq<Problem>): set<string> {
    set p | p in ps :: ProblemKey(p)
  }

  lemma KeysOfAppend(ps: seq<Problem>, qs: seq<Problem>)
    ensures KeysOf(ps + qs) == KeysOf(ps) + KeysOf(qs)
  {
    assert forall p :: p in ps + qs <==> p in ps || p in qs;
  }

  /**
   * One callback of the de-duplicating loop: a problem whose key is empty or
   * already in the map is skipped, any other is added after those kept so far.
   */
  function AddFirst(kept: seq<Problem>, p: Problem): seq<Problem> {
    var key := ProblemKey(p);
    if key == [] || key in KeysOf(kept) then kept else kept + [p]
  }

  /** The loop over `ps`, starting from the problems already kept. */
  function AddAll(kept: seq<Problem>, ps: seq<Problem>): seq<Problem> {
    if ps == [] then kept else AddFirst(AddAll(kept, ps[..|ps| - 1]), ps[|ps| - 1])
  }

  /** One problem more is one `AddFirst` more. */
  lemma AddAllPrefix(kept: seq<Problem>, ps: seq<Problem>, k: nat)
    requires k < |ps|
    ensures AddAll(kept, ps[..k + 1]) == AddFirst(AddAll(kept, ps[..k]), ps[k])
  {
    assert ps[..k + 1][..k] == ps[..k];
  }

  /** Walking `xs` then `ys` is walking `xs + ys`. */
  lemma {:induction false} AddAllAppend(kept: seq<Problem>, xs: seq<Problem>, ys: seq<Problem>)
    ensures AddAll(kept, xs + ys) == AddAll(AddAll(kept, xs), ys)
    decreases |ys|
  {
    if ys == [] {
      assert xs + ys == xs;
    } else {
      var init := ys[..|ys| - 1];
      assert (xs + ys)[..|xs + ys| - 1] == xs + init;
      AddAllAppend(kept, xs, init);
    }
  }

  /** The values of the map, in insertion order. */
  function Dedup(ps: seq<Problem>): seq<Problem> {
    AddAll([], ps)
  }

  predicate DistinctKeys(ps: seq<Problem>) {
    forall i, j :: 0 <= i < j < |ps| ==> ProblemKey(ps[i]) != ProblemKey(ps[j])
  }

  /** One callback keeps the keys distinct and adds the problem's key. */
  lemma AddFirstKeys(kept: seq<Problem>, p: Problem)
    requires DistinctKeys(kept)
    ensures DistinctKeys(AddFirst(kept, p))
    ensures KeysOf(AddFirst(kept, p)) == KeysOf(kept) + {ProblemKey(p)}
  {
    if ProblemKey(p) !in KeysOf(kept) {
      KeysOfAppend(kept, [p]);
      assert KeysOf([p]) == {ProblemKey(p)};
      forall i | 0 <= i < |kept|
        ensures ProblemKey(kept[i]) != ProblemKey(p)
      {
        assert kept[i] in kept;
      }
    }
  }

  /** `AddAll` keeps one problem per key and loses no key. */
  lemma {:induction false} AddAllKeys(kept: seq<Problem>, ps: seq<Problem>)
    requires DistinctKeys(kept)
    ensures DistinctKeys(AddAll(kept, ps))
    ensures KeysOf(AddAll(kept, ps)) == KeysOf(kept) + KeysOf(ps)
    decreases |ps|
  {
    if ps != [] {
      var init := ps[..|ps| - 1];
      var p := ps[|ps| - 1];
      assert ps == init + [p];
      AddAllKeys(kept, init);
      AddFirstKeys(AddAll(kept, init), p);
      KeysOfAppend(init, [p]);
      assert KeysOf([p]) == {ProblemKey(p)};
    }
  }

  /** With distinct keys, the last problem's key is not among those before it. */
  lemma LastKeyIsNew(ps: seq<Problem>)
    requires DistinctKeys(ps) && ps != []
    ensures ProblemKey(ps[|ps| - 1]) !in KeysOf(ps[..|ps| - 1])
  {
    var init := ps[..|ps| - 1];
    forall q | q in init
      ensures ProblemKey(q) != ProblemKey(ps[|ps| - 1])
    {
      var i :| 0 <= i < |init| && init[i] == q;
      assert ps[i] == q;
    }
  }

  lemma KeysOfSnoc(ps: seq<Problem>)
    requires ps != []
    ensures KeysOf(ps) == KeysOf(ps[..|ps| - 1]) + {ProblemKey(ps[|ps| - 1])}
  {
    var p := ps[|ps| - 1];
    assert ps == ps[..|ps| - 1] + [p];
    KeysOfAppend(ps[..|ps| - 1], [p]);
    assert KeysOf([p]) == {ProblemKey(p)};
  }

  lemma DistinctKeysPrefix(ps: seq<Problem>, n: nat)
    requires DistinctKeys(ps) && n <= |ps|
    ensures DistinctKeys(ps[..n])
  {
    forall i, j | 0 <= i < j < n
      ensures ProblemKey(ps[..n][i]) != ProblemKey(ps[..n][j])
    {
      assert ps[..n][i] == ps[i] && ps[..n][j] == ps[j];
    }
  }

  /** Distinct keys: one key per kept problem, so as many problems as keys. */
  lemma {:induction false} DistinctKeysCount(ps: seq<Problem>)
    requires DistinctKeys(ps)
    ensures |KeysOf(ps)| == |ps|
    decreases |ps|
  {
    if ps != [] {
      var init := ps[..|ps| - 1];
      DistinctKeysPrefix(ps, |ps| - 1);
      DistinctKeysCount(init);
      KeysOfSnoc(ps);
      LastKeyIsNew(ps);
    }
  }

  /** "All Companies" holds each key once, every key of the dataset, and so as many problems as there are distinct keys. */
  lemma DedupKeys(ps: seq<Problem>)
    ensures DistinctKeys(Dedup(ps))
    ensures KeysOf(Dedup(ps)) == KeysOf(ps)
    ensures |Dedup(ps)| == |KeysOf(ps)|
  {
    AddAllKeys([], ps);
    assert KeysOf([]) == {};
    DistinctKeysCount(Dedup(ps));
  }

  /** The first problem of `ps` with the given key. */
  function FirstWithKey(ps: seq<Problem>, key: string): (p: Problem)
    requires key in KeysOf(ps)
    ensures p in ps && ProblemKey(p) == key
    ensures exists i :: 0 <= i < |ps| && ps[i] == p && forall j :: 0 <= j < i ==> ProblemKey(ps[j]) != key
  {
    if ProblemKey(ps[0]) == key then
      assert ps[0] == ps[0];
      ps[0]
    else
      assert key in KeysOf(ps[1..]) by {
        var q :| q in ps && ProblemKey(q) == key;
        assert q != ps[0];
      }
      var p := FirstWithKey(ps[1..], key);
      assert exists i :: 0 <= i < |ps| && ps[i] == p && forall j :: 0 <= j < i ==> ProblemKey(ps[j]) != key by {
        var i :| 0 <= i < |ps[1..]| && ps[1..][i] == p && forall j :: 0 <= j < i ==> ProblemKey(ps[1..][j]) != key;
        assert ps[i + 1] == p;
        forall j | 0 <= j < i + 1 ensures ProblemKey(ps[j]) != key {
          if j > 0 {
            assert ps[j] == ps[1..][j - 1];
          }
        }
      }
      p
  }

  lemma {:induction false} FirstWithKeyAppend(ps: seq<Problem>, qs: seq<Problem>, key: string)
    requires key in KeysOf(ps)
    ensures key in KeysOf(ps + qs) && FirstWithKey(ps + qs, key) == FirstWithKey(ps, key)
    decreases |ps|
  {
    KeysOfAppend(ps, qs);
    if ProblemKey(ps[0]) != key {
      assert (ps + qs)[1..] == ps[1..] + qs;
      FirstWithKeyAppend(ps[1..], qs, key);
    }
  }

  lemma {:induction false} FirstWithNewKey(ps: seq<Problem>, p: Problem)
    requires ProblemKey(p) !in KeysOf(ps)
    ensures ProblemKey(p) in KeysOf(ps + [p]) && FirstWithKey(ps + [p], ProblemKey(p)) == p
    decreases |ps|
  {
    KeysOfAppend(ps, [p]);
    if ps != [] {
      assert ps[0] in ps;
      assert (ps + [p])[1..] == ps[1..] + [p];
      assert KeysOf(ps[1..]) <= KeysOf(ps);
      FirstWithNewKey(ps[1..], p);
    }
  }

  /** Every kept problem is the first one with its key: later duplicates are ignored. */
  lemma {:induction false} DedupFirstWins(ps: seq<Problem>)
    ensures forall p :: p in Dedup(ps) ==> ProblemKey(p) in KeysOf(ps) && p == FirstWithKey(ps, ProblemKey(p))
    decreases |ps|
  {
    if ps != [] {
      var init := ps[..|ps| - 1];
      var last := ps[|ps| - 1];
      assert ps == init + [last];
      DedupFirstWins(init);
      AddAllKeys([], init);
      assert KeysOf([]) == {};
      var before := Dedup(init);
      forall p | p in Dedup(ps)
        ensures ProblemKey(p) in KeysOf(ps) && p == FirstWithKey(ps, ProblemKey(p))
      {
        if p in before {
          FirstWithKeyAppend(init, [last], ProblemKey(p));
        } else {
          assert p == last && ProblemKey(last) !in KeysOf(init);
          FirstWithNewKey(init, last);
        }
      }
    }
  }

  // ---------------------------------------------------------------------------
  // Frequency order.
  // ---------------------------------------------------------------------------

  /**
   * `a` may stand before `b` when sorting by descending frequency with a
   * missing frequency counted as minus infinity: anything may precede a
   * null, a null precedes only nulls.
   */
  predicate FrequencyAtLeast(a: Problem, b: Problem) {
    match b.frequency
    case None => true
    case Some(y) => a.frequency.Some? && a.frequency.value >= y
  }

  predicate SortedByFrequency(ps: seq<Problem>) {
    forall i, j :: 0 <= i < j < |ps| ==> FrequencyAtLeast(ps[i], ps[j])
  }

  /** `p` placed after every problem at least as frequent, so earlier problems stay ahead of equal ones. */
  function Insert(sorted: seq<Problem>, p: Problem): (r: seq<Problem>)
    ensures multiset(r) == multiset(sorted) + multiset{p}
  {
    if sorted == [] then [p]
    else if FrequencyAtLeast(sorted[0], p) then
      assert sorted == [sorted[0]] + sorted[1..];
      [sorted[0]] + Insert(sorted[1..], p)
    else [p] + sorted
  }

  /** `FrequencyAtLeast` is a total preorder. */
  lemma FrequencyOrder(a: Problem, b: Problem, c: Problem)
    ensures FrequencyAtLeast(a, b) || FrequencyAtLeast(b, a)
    ensures FrequencyAtLeast(a, b) && FrequencyAtLeast(b, c) ==> FrequencyAtLeast(a, c)
  {
  }

  /** A problem at least as frequent as every problem of a sorted list can go in front of it. */
  lemma ConsSorted(head: Problem, rest: seq<Problem>)
    requires SortedByFrequency(rest)
    requires forall k :: 0 <= k < |rest| ==> FrequencyAtLeast(head, rest[k])
    ensures SortedByFrequency([head] + rest)
  {
    var r := [head] + rest;
    forall i, j | 0 <= i < j < |r|
      ensures FrequencyAtLeast(r[i], r[j])
    {
      assert r[j] == rest[j - 1];
      if i > 0 {
        assert r[i] == rest[i - 1];
      }
    }
  }

  /** Every problem of `Insert(tail, p)` is `p` or a problem of `tail`, so a bound on both bounds it. */
  lemma InsertBound(head: Problem, tail: seq<Problem>, p: Problem)
    requires forall k :: 0 <= k < |tail| ==> FrequencyAtLeast(head, tail[k])
    requires FrequencyAtLeast(head, p)
    ensures forall k :: 0 <= k < |Insert(tail, p)| ==> FrequencyAtLeast(head, Insert(tail, p)[k])
  {
    var rest := Insert(tail, p);
    forall k | 0 <= k < |rest|
      ensures FrequencyAtLeast(head, rest[k])
    {
      assert rest[k] in multiset(rest);
      if rest[k] != p {
        assert rest[k] in multiset(tail);
        var m :| 0 <= m < |tail| && tail[m] == rest[k];
      }
    }
  }

  /** Inserting into a sorted list keeps it sorted. */
  lemma {:induction false} InsertSorted(sorted: seq<Problem>, p: Problem)
    requires SortedByFrequency(sorted)
    ensures SortedByFrequency(Insert(sorted, p))
    decreases |sorted|
  {
    if sorted != [] {
      var head := sorted[0];
      var tail := sorted[1..];
      if FrequencyAtLeast(head, p) {
        assert SortedByFrequency(tail) by {
          forall i, j | 0 <= i < j < |tail|
            ensures FrequencyAtLeast(tail[i], tail[j])
          {
            assert tail[i] == sorted[i + 1] && tail[j] == sorted[j + 1];
          }
        }
        InsertSorted(tail, p);
        assert forall k :: 0 <= k < |tail| ==> FrequencyAtLeast(head, tail[k]) by {
          forall k | 0 <= k < |tail|
            ensures FrequencyAtLeast(head, tail[k])
          {
            assert tail[k] == sorted[k + 1];
          }
        }
        InsertBound(head, tail, p);
        ConsSorted(head, Insert(tail, p));
      } else {
        forall k | 0 <= k < |sorted|
          ensures FrequencyAtLeast(p, sorted[k])
        {
          FrequencyOrder(p, head, sorted[k]);
        }
        ConsSorted(p, sorted);
      }
    }
  }

  /** `Array.prototype.sort` with the frequency comparator, as an insertion sort. */
  function SortByFrequency(ps: seq<Problem>): (r: seq<Problem>)
    ensures multiset(r) == multiset(ps)
    ensures SortedByFrequency(r)
  {
    if ps == [] then []
    else
      var init := ps[..|ps| - 1];
      assert ps == init + [ps[|ps| - 1]];
      InsertSorted(SortByFrequency(init), ps[|ps| - 1]);
      Insert(SortByFrequency(init), ps[|ps| - 1])
  }

  /** In a list sorted by frequency the problems without one come last. */
  lemma NullsLast(ps: seq<Problem>, i: nat, j: nat)
    requires SortedByFrequency(ps) && i < j < |ps|
    requires ps[i].frequency.None?
    ensures ps[j].frequency.None?
  {
    assert FrequencyAtLeast(ps[i], ps[j]);
  }

  // ---------------------------------------------------------------------------
  // The builder.
  // ---------------------------------------------------------------------------

  /** The single category of "All Companies". */
  function AllCompany(problems: seq<Problem>): Company {
    Company("All Companies", "all", 1, |problems|, [Category("All Questions", "all", |problems|, problems)])
  }

  /**
   * `allProblemsCompany`: every problem of every category of every company,
   * the first occurrence of each key only, sorted by frequency.  `kept` and
   * `seen` together are the insertion-ordered map.
   */
  method CollectAllProblems(companies: seq<Company>) returns (all: Company)
    ensures all == AllCompany(SortByFrequency(Dedup(Listed(companies))))
  {
    var kept: seq<Problem> := [];
    var seen: set<string> := {};
    for i := 0 to |companies|
      invariant kept == Dedup(Listed(companies[..i]))
      invariant seen == KeysOf(kept)
    {
      ghost var before := kept;
      var categories := companies[i].categories;
      for j := 0 to |categories|
        invariant kept == AddAll(before, CategoryProblems(categories[..j]))
        invariant seen == KeysOf(kept)
      {
        ghost var start := kept;
        var problems := categories[j].problems;
        for k := 0 to |problems|
          invariant kept == AddAll(start, problems[..k])
          invariant seen == KeysOf(kept)
        {
          var problem := problems[k];
          var key := ProblemKey(problem);
          AddAllPrefix(start, problems, k);
          if key == [] || key in seen {
            continue;
          }
          KeysOfAppend(kept, [problem]);
          assert KeysOf([problem]) == {key};
          kept := kept + [problem];
          seen := seen + {key};
        }
        assert problems[..|problems|] == problems;
        CategoryProblemsPrefix(categories, j);
        AddAllAppend(before, CategoryProblems(categories[..j]), problems);
      }
      assert categories[..|categories|] == categories;
      ListedPrefix(companies, i);
      AddAllAppend([], Listed(companies[..i]), CategoryProblems(categories));
    }
    assert companies[..|companies|] == companies;
    var problems := SortByFrequency(kept);
    all := AllCompany(problems);
  }
}
