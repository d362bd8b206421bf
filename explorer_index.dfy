/**
 * `problemCompanyIndex`: for each problem key, the companies that list the
 * problem, one entry per company slug, in the order the companies come.
 * `IndexCompanies` is the map the nested loops build; `RefsFor` says, key by
 * key and without the map, which entries it must hold.
 */
module CompanyIndex {
  import opened Wrappers
  import opened ExplorerRules
  import opened ProblemCatalog

  /** An entry of the index: the company's slug and display name. */
  datatype CompanyRef = CompanyRef(slug: string, name: string)

  function RefOf(c: Company): CompanyRef {
    CompanyRef(c.slug, c.name)
  }

  /** `map.get(key) ?? []`. */
  function Lookup(m: map<string, seq<CompanyRef>>, key: string): seq<CompanyRef> {
    if key in m then m[key] else []
  }

  /** `existing.some((entry) => entry.slug === slug)`. */
  predicate HasSlug(refs: seq<CompanyRef>, slug: string) {
    exists r :: r in refs && r.slug == slug
  }

  predicate SlugsDistinct(refs: seq<CompanyRef>) {
    forall i, j :: 0 <= i < j < |refs| ==> refs[i].slug != refs[j].slug
  }

  // ---------------------------------------------------------------------------
  // The map the loops build.
  // ---------------------------------------------------------------------------

  /**
   * One callback: a problem with an empty key is skipped; otherwise the
   * company is appended to the key's entries unless an entry already has its slug.
   */
  function IndexAdd(m: map<string, seq<CompanyRef>>, c: Company, p: Problem): map<string, seq<CompanyRef>> {
    var key := ProblemKey(p);
    if key == [] then m
    else
      var existing := Lookup(m, key);
      if HasSlug(existing, c.slug) then m else m[key := existing + [RefOf(c)]]
  }

  /** The callbacks for the problems `ps` of company `c`, in order. */
  function IndexProblems(m: map<string, seq<CompanyRef>>, c: Company, ps: seq<Problem>): map<string, seq<CompanyRef>> {
    if ps == [] then m else IndexAdd(IndexProblems(m, c, ps[..|ps| - 1]), c, ps[|ps| - 1])
  }

  /** The index over the given companies. */
  function IndexCompanies(companies: seq<Company>): map<string, seq<CompanyRef>> {
    if companies == [] then map[]
    else
      var c := companies[|companies| - 1];
      IndexProblems(IndexCompanies(companies[..|companies| - 1]), c, CategoryProblems(c.categories))
  }

  lemma IndexProblemsPrefix(m: map<string, seq<CompanyRef>>, c: Company, ps: seq<Problem>, k: nat)
    requires k < |ps|
    ensures IndexProblems(m, c, ps[..k + 1]) == IndexAdd(IndexProblems(m, c, ps[..k]), c, ps[k])
  {
    assert ps[..k + 1][..k] == ps[..k];
  }

  lemma {:induction false} IndexProblemsAppend(m: map<string, seq<CompanyRef>>, c: Company, xs: seq<Problem>, ys: seq<Problem>)
    ensures IndexProblems(m, c, xs + ys) == IndexProblems(IndexProblems(m, c, xs), c, ys)
    decreases |ys|
  {
    if ys == [] {
      assert xs + ys == xs;
    } else {
      var init := ys[..|ys| - 1];
      assert (xs + ys)[..|xs + ys| - 1] == xs + init;
      IndexProblemsAppend(m, c, xs, init);
    }
  }

  lemma IndexCompaniesPrefix(companies: seq<Company>, i: nat)
    requires i < |companies|
    ensures IndexCompanies(companies[..i + 1])
         == IndexProblems(IndexCompanies(companies[..i]), companies[i], CategoryProblems(companies[i].categories))
  {
    assert companies[..i + 1][..i] == companies[..i];
  }

  // ---------------------------------------------------------------------------
  // The entries of one key.
  // ---------------------------------------------------------------------------

  /** Company `c` lists a problem with this key in one of its categories. */
  predicate ListsKey(c: Company, key: string) {
    key in KeysOf(CategoryProblems(c.categories))
  }

  /** `c` appended unless an entry already has its slug. */
  function AddRef(refs: seq<CompanyRef>, c: Company): (r: seq<CompanyRef>)
    ensures HasSlug(r, c.slug) && r != []
    ensures forall s :: HasSlug(r, s) <==> HasSlug(refs, s) || s == c.slug
    ensures refs <= r
    ensures HasSlug(refs, c.slug) ==> r == refs
    ensures !HasSlug(refs, c.slug) ==> r == refs + [RefOf(c)]
  {
    if HasSlug(refs, c.slug) then refs
    else
      var r := refs + [RefOf(c)];
      assert RefOf(c) in r;
      r
  }

  /** The entries of `key`: the companies listing it, in order, the first company of each slug only. */
  function RefsFor(companies: seq<Company>, key: string): seq<CompanyRef> {
    if companies == [] then []
    else
      var c := companies[|companies| - 1];
      var before := RefsFor(companies[..|companies| - 1], key);
      if ListsKey(c, key) then AddRef(before, c) else before
  }

  /** What one company's problems do to the entries of one key, and to the keys of the map. */
  lemma {:induction false} IndexProblemsLookup(m: map<string, seq<CompanyRef>>, c: Company, ps: seq<Problem>, key: string)
    ensures Lookup(IndexProblems(m, c, ps), key)
         == if key in KeysOf(ps) then AddRef(Lookup(m, key), c) else Lookup(m, key)
    ensures key in IndexProblems(m, c, ps) <==> key in m || key in KeysOf(ps)
    decreases |ps|
  {
    if ps == [] {
      assert KeysOf(ps) == {};
    } else {
      var init := ps[..|ps| - 1];
      var p := ps[|ps| - 1];
      assert ps == init + [p];
      KeysOfAppend(init, [p]);
      assert KeysOf([p]) == {ProblemKey(p)};
      IndexProblemsLookup(m, c, init, key);
    }
  }

  /** The map holds, for every key, exactly the entries `RefsFor` names, and holds only the keys some company lists. */
  lemma {:induction false} IndexCompaniesLookup(companies: seq<Company>, key: string)
    ensures Lookup(IndexCompanies(companies), key) == RefsFor(companies, key)
    ensures key in IndexCompanies(companies) <==> key in KeysOf(Listed(companies))
    decreases |companies|
  {
    if companies == [] {
      assert KeysOf([]) == {};
    } else {
      var init := companies[..|companies| - 1];
      var c := companies[|companies| - 1];
      IndexCompaniesLookup(init, key);
      IndexProblemsLookup(IndexCompanies(init), c, CategoryProblems(c.categories), key);
      KeysOfAppend(Listed(init), CategoryProblems(c.categories));
    }
  }

  /** A key's entries never repeat a slug. */
  lemma {:induction false} RefsForDistinct(companies: seq<Company>, key: string)
    ensures SlugsDistinct(RefsFor(companies, key))
    decreases |companies|
  {
    if companies != [] {
      var init := companies[..|companies| - 1];
      var c := companies[|companies| - 1];
      var before := RefsFor(init, key);
      RefsForDistinct(init, key);
      if ListsKey(c, key) && !HasSlug(before, c.slug) {
        var r := before + [RefOf(c)];
        forall i, j | 0 <= i < j < |r|
          ensures r[i].slug != r[j].slug
        {
          if j == |before| {
            assert r[i] in before;
          }
        }
      }
    }
  }

  /** A slug has an entry under `key` exactly when a company with that slug lists the key. */
  lemma {:induction false} RefsForSlugs(companies: seq<Company>, key: string, slug: string)
    ensures HasSlug(RefsFor(companies, key), slug)
        <==> exists c :: c in companies && c.slug == slug && ListsKey(c, key)
    decreases |companies|
  {
    if companies != [] {
      var init := companies[..|companies| - 1];
      var c := companies[|companies| - 1];
      assert companies == init + [c];
      RefsForSlugs(init, key, slug);
      if exists d :: d in companies && d.slug == slug && ListsKey(d, key) {
        var d :| d in companies && d.slug == slug && ListsKey(d, key);
        if d != c {
          assert d in init;
        }
      }
    }
  }

  /** Every entry is a company that lists the key, under its own slug and name. */
  lemma {:induction false} RefsForSound(companies: seq<Company>, key: string, r: CompanyRef)
    requires r in RefsFor(companies, key)
    ensures exists c :: c in companies && RefOf(c) == r && ListsKey(c, key)
    decreases |companies|
  {
    var init := companies[..|companies| - 1];
    var c := companies[|companies| - 1];
    assert companies == init + [c];
    if r in RefsFor(init, key) {
      RefsForSound(init, key, r);
      var d :| d in init && RefOf(d) == r && ListsKey(d, key);
      assert d in companies;
    } else {
      assert RefOf(c) == r && ListsKey(c, key);
    }
  }

  // ---------------------------------------------------------------------------
  // The builder.
  // ---------------------------------------------------------------------------

  /** `problemCompanyIndex`: companies, then categories, then problems, updating one map. */
  method BuildCompanyIndex(companies: seq<Company>) returns (index: map<string, seq<CompanyRef>>)
    ensures index == IndexCompanies(companies)
    ensures forall key :: Lookup(index, key) == RefsFor(companies, key)
    ensures forall key :: key in index <==> key in KeysOf(Listed(companies))
  {
    index := map[];
    for i := 0 to |companies|
      invariant index == IndexCompanies(companies[..i])
    {
      var company := companies[i];
      var categories := company.categories;
      ghost var before := index;
      for j := 0 to |categories|
        invariant index == IndexProblems(before, company, CategoryProblems(categories[..j]))
      {
        ghost var start := index;
        var problems := categories[j].problems;
        for k := 0 to |problems|
          invariant index == IndexProblems(start, company, problems[..k])
        {
          var problem := problems[k];
          var key := ProblemKey(problem);
          IndexProblemsPrefix(start, company, problems, k);
          if key == [] {
            continue;
          }
          var existing := if key in index then index[key] else [];
          if !HasSlug(existing, company.slug) {
            index := index[key := existing + [CompanyRef(company.slug, company.name)]];
          }
        }
        assert problems[..|problems|] == problems;
        CategoryProblemsPrefix(categories, j);
        IndexProblemsAppend(before, company, CategoryProblems(categories[..j]), problems);
      }
      assert categories[..|categories|] == categories;
      IndexCompaniesPrefix(companies, i);
    }
    assert companies[..|companies|] == companies;
    forall key
      ensures Lookup(index, key) == RefsFor(companies, key)
      ensures key in index <==> key in KeysOf(Listed(companies))
    {
      IndexCompaniesLookup(companies, key);
    }
  }
}
