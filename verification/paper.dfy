/** The paper agent's bookkeeping: the context entry that records the paper
    index, and the screening that turns each search hit into an evaluation
    and spreads the titles over three themes in turn. */
module Paper {
  import opened Wrappers
  import opened RunContext

  /** A paper returned by the semantic search; `year` is its rendered text
      and may be missing, as may the PDF link. */
  datatype SearchHit = SearchHit(
    title: string,
    authors: string,
    year: Option<string>,
    pdfUrl: Option<string>)

  datatype PaperEvaluation = PaperEvaluation(
    title: string,
    authors: string,
    keyFindings: seq<string>,
    methodology: Option<string>,
    limitations: Option<string>,
    citation: string,
    pdfUrl: Option<string>)

  datatype ScreenedPapers = ScreenedPapers(
    selectedPapers: seq<PaperEvaluation>,
    rejectedPapers: seq<string>,
    thematicCategories: map<string, seq<string>>)

  datatype IndexStatus = IndexStatus(status: string, vectorStoreId: string)

  const DefaultYear := "2023"
  const PlaceholderFindings := ["Key finding 1", "Key finding 2"]
  const PlaceholderMethodology := "Qualitative analysis"
  const PlaceholderLimitations := "Small sample size"
  const RejectedTitles := ["Irrelevant paper 1", "Low quality paper 2"]
  const MissingIndexError := "Paper index not created. Run create_paper_index first."

  /** The three themes, by the remainder of the paper's position modulo 3. */
  const MethodologyTheme := "Methodology"
  const TheoreticalTheme := "Theoretical"
  const ApplicationTheme := "Application"

  /** `create_paper_index`, with `storeId` the id of the store the papers
      were uploaded to: the id is recorded in the context and reported. */
  method CreatePaperIndex(ctx: Context, storeId: string) returns (status: IndexStatus)
    modifies ctx
    ensures ctx.vectorStoreId == Some(storeId)
    ensures ctx.googleLoggedIn == old(ctx.googleLoggedIn) && ctx.document == old(ctx.document)
    ensures status == IndexStatus("created", storeId)
  {
    ctx.vectorStoreId := Some(storeId);
    status := IndexStatus("created", storeId);
  }

  /** "authors (year). title." with the year 2023 when the hit has none. */
  function Citation(hit: SearchHit): string
  {
    var year := if hit.year.Some? then hit.year.value else DefaultYear;
    hit.authors + " (" + year + "). " + hit.title + "."
  }

  /** A citation starts with the authors and the year in parentheses (2023
      when the hit has none) and ends with the title and a full stop. */
  lemma CitationShape(hit: SearchHit)
    ensures var c := Citation(hit);
      var year := if hit.year.Some? then hit.year.value else DefaultYear;
      && |c| == |hit.authors| + |year| + |hit.title| + 6
      && c[..|hit.authors|] == hit.authors
      && c[|hit.authors|..|hit.authors| + 2] == " ("
      && c[|hit.authors| + 2..|hit.authors| + 2 + |year|] == year
      && c[|hit.authors| + 2 + |year|..|hit.authors| + 5 + |year|] == "). "
      && c[|c| - |hit.title| - 1..] == hit.title + "."
  {
    var c := Citation(hit);
    assert c[|c| - |hit.title| - 1..] == hit.title + ".";
  }

  /** The evaluation built for one hit: title, authors and PDF link copied,
      placeholder findings, method and limitations, and its citation. */
  function Evaluate(hit: SearchHit): PaperEvaluation
  {
    PaperEvaluation(hit.title, hit.authors, PlaceholderFindings, Some(PlaceholderMethodology),
                    Some(PlaceholderLimitations), Citation(hit), hit.pdfUrl)
  }

  /** The titles at the positions with remainder `r` modulo 3, in order. */
  function Bucket(titles: seq<string>, r: nat): seq<string>
    decreases |titles|
  {
    if titles == [] then []
    else Bucket(titles[..|titles| - 1], r) + (if (|titles| - 1) % 3 == r then [titles[|titles| - 1]] else [])
  }

  /** The themes of a list of titles. */
  function Themes(titles: seq<string>): map<string, seq<string>>
  {
    map[MethodologyTheme := Bucket(titles, 0), TheoreticalTheme := Bucket(titles, 1),
        ApplicationTheme := Bucket(titles, 2)]
  }

  /** The theme of the title at position i. */
  function ThemeOf(i: nat): string
  {
    if i % 3 == 0 then MethodologyTheme else if i % 3 == 1 then TheoreticalTheme else ApplicationTheme
  }

  /** One more title joins the bucket of its position. */
  lemma BucketSnoc(titles: seq<string>, t: string, r: nat)
    ensures Bucket(titles + [t], r) == if |titles| % 3 == r then Bucket(titles, r) + [t] else Bucket(titles, r)
  {
    assert (titles + [t])[..|titles|] == titles;
  }

  /** One more title joins the theme of its position and leaves the other
      two as they were. */
  lemma ThemesSnoc(titles: seq<string>, t: string)
    ensures Themes(titles + [t]) ==
      Themes(titles)[ThemeOf(|titles|) := Themes(titles)[ThemeOf(|titles|)] + [t]]
  {
    var more := titles + [t];
    BucketSnoc(titles, t, 0);
    BucketSnoc(titles, t, 1);
    BucketSnoc(titles, t, 2);
    assert MethodologyTheme[0] != TheoreticalTheme[0] && MethodologyTheme[0] != ApplicationTheme[0]
        && TheoreticalTheme[0] != ApplicationTheme[0];
  }

  /** `evaluate_papers`, with `hits` the search results for the research
      question: fails unless the paper index has been recorded; otherwise
      one evaluation per hit in order, the fixed rejected titles, and the
      titles spread over the three themes in turn. */
  method EvaluatePapers(ctx: Context, hits: seq<SearchHit>) returns (r: Result<ScreenedPapers, string>)
    ensures r.Err? <==> !Truthy(ctx.vectorStoreId)
    ensures r.Err? ==> r.error == MissingIndexError
    ensures r.Ok? ==>
      && |r.value.selectedPapers| == |hits|
      && (forall i :: 0 <= i < |hits| ==> r.value.selectedPapers[i] == Evaluate(hits[i]))
      && r.value.rejectedPapers == RejectedTitles
      && r.value.thematicCategories == Themes(seq(|hits|, i requires 0 <= i < |hits| => hits[i].title))
  {
    var vectorStoreId := ctx.vectorStoreId;
    if vectorStoreId.None? || vectorStoreId.value == "" {
      return Err(MissingIndexError);
    }
    var evaluations := EvaluateAll(hits);
    ghost var titles := seq(|hits|, i requires 0 <= i < |hits| => hits[i].title);
    var themes := GroupByTheme(evaluations, titles);
    r := Ok(ScreenedPapers(evaluations, RejectedTitles, themes));
  }

  /** The evaluation loop of `evaluate_papers`: one evaluation per hit, in
      order. */
  method EvaluateAll(hits: seq<SearchHit>) returns (evaluations: seq<PaperEvaluation>)
    ensures |evaluations| == |hits|
    ensures forall i :: 0 <= i < |hits| ==> evaluations[i] == Evaluate(hits[i])
  {
    evaluations := [];
    for i := 0 to |hits|
      invariant |evaluations| == i
      invariant forall j :: 0 <= j < i ==> evaluations[j] == Evaluate(hits[j])
    {
      var hit := hits[i];
      var year := if hit.year.Some? then hit.year.value else DefaultYear;
      var evaluation := PaperEvaluation(hit.title, hit.authors, PlaceholderFindings,
                                        Some(PlaceholderMethodology), Some(PlaceholderLimitations),
                                        hit.authors + " (" + year + "). " + hit.title + ".", hit.pdfUrl);
      evaluations := evaluations + [evaluation];
    }
  }

  /** The grouping loop of `evaluate_papers`: the i-th title joins the theme
      of i modulo 3. */
  method GroupByTheme(evaluations: seq<PaperEvaluation>, ghost titles: seq<string>)
    returns (themes: map<string, seq<string>>)
    requires |titles| == |evaluations|
    requires forall i :: 0 <= i < |evaluations| ==> titles[i] == evaluations[i].title
    ensures themes == Themes(titles)
  {
    themes := map[MethodologyTheme := [], TheoreticalTheme := [], ApplicationTheme := []];
    for i := 0 to |evaluations|
      invariant themes == Themes(titles[..i])
    {
      assert titles[..i + 1] == titles[..i] + [evaluations[i].title];
      ThemesSnoc(titles[..i], evaluations[i].title);
      if i % 3 == 0 {
        themes := themes[MethodologyTheme := themes[MethodologyTheme] + [evaluations[i].title]];
      } else if i % 3 == 1 {
        themes := themes[TheoreticalTheme := themes[TheoreticalTheme] + [evaluations[i].title]];
      } else {
        themes := themes[ApplicationTheme := themes[ApplicationTheme] + [evaluations[i].title]];
      }
    }
    assert titles[..|evaluations|] == titles;
  }

  /** Theme `r` has one title for every position with remainder `r`
      modulo 3. */
  lemma {:induction false} BucketLength(titles: seq<string>, r: nat)
    requires r < 3
    ensures |Bucket(titles, r)| == (|titles| + 2 - r) / 3
    decreases |titles|
  {
    if titles != [] {
      BucketLength(titles[..|titles| - 1], r);
    }
  }

  /** Theme `r` holds exactly the titles at positions 3m + r, in order. */
  lemma {:induction false} BucketPositions(titles: seq<string>, r: nat)
    requires r < 3
    ensures |Bucket(titles, r)| == (|titles| + 2 - r) / 3
    ensures forall m :: 0 <= m < |Bucket(titles, r)| ==> Bucket(titles, r)[m] == titles[3 * m + r]
    decreases |titles|
  {
    BucketLength(titles, r);
    if titles != [] {
      var init := titles[..|titles| - 1];
      BucketPositions(init, r);
      forall m | 0 <= m < |Bucket(titles, r)|
        ensures Bucket(titles, r)[m] == titles[3 * m + r]
      {
        if m < |Bucket(init, r)| {
          assert Bucket(titles, r)[m] == Bucket(init, r)[m] == init[3 * m + r];
        }
      }
    }
  }

  /** One more title adds one occurrence to the bucket of its position. */
  lemma BucketCountSnoc(init: seq<string>, last: string, r: nat)
    ensures multiset(Bucket(init + [last], r)) ==
      if |init| % 3 == r then multiset(Bucket(init, r)) + multiset{last} else multiset(Bucket(init, r))
  {
    BucketSnoc(init, last, r);
  }

  /** The three themes split the titles among them: every title lands in
      exactly one theme, as often as it occurs. */
  lemma {:induction false} ThemesPartition(titles: seq<string>)
    ensures multiset(Bucket(titles, 0)) + multiset(Bucket(titles, 1)) + multiset(Bucket(titles, 2))
      == multiset(titles)
    decreases |titles|
  {
    if titles != [] {
      var init := titles[..|titles| - 1];
      var last := titles[|titles| - 1];
      ThemesPartition(init);
      assert titles == init + [last];
      assert multiset(titles) == multiset(init) + multiset{last};
      BucketCountSnoc(init, last, 0);
      BucketCountSnoc(init, last, 1);
      BucketCountSnoc(init, last, 2);
      AddToOneOfThree(multiset(Bucket(init, 0)), multiset(Bucket(init, 1)), multiset(Bucket(init, 2)),
                      multiset(Bucket(titles, 0)), multiset(Bucket(titles, 1)), multiset(Bucket(titles, 2)),
                      last, |init| % 3);
    }
  }

  /** Adding an element to one of three multisets adds it to their sum. */
  lemma AddToOneOfThree(a: multiset<string>, b: multiset<string>, c: multiset<string>,
                        a': multiset<string>, b': multiset<string>, c': multiset<string>, x: string, k: nat)
    requires k < 3
    requires a' == if k == 0 then a + multiset{x} else a
    requires b' == if k == 1 then b + multiset{x} else b
    requires c' == if k == 2 then c + multiset{x} else c
    ensures a' + b' + c' == a + b + c + multiset{x}
  {
  }
}
