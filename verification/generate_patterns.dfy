/** The `POST` handler of `src/app/api/generate-patterns/route.ts`: it checks
    its parameters, gathers the examples of the selected categories and hands
    them to the pattern generator, which is an input here. */
module GeneratePatterns {
  import opened Wrappers
  import opened Seqs
  import opened Records
  import UrlPatternMatcher

  type UrlPattern = UrlPatternMatcher.UrlPattern

  /** A category as it arrives in the request: its `examples` may be absent. */
  datatype CategoryInfo = CategoryInfo(examples: Option<seq<string>>)

  /** The `urlAnalysis` parameter; `categories` is `None` when it has no
      `url_categories` object. */
  datatype Analysis = Analysis(categories: Option<Record<CategoryInfo>>)

  /** The `selectedCategories` parameter as the handler sees it: falsy
      (absent, `null`, `""`, `0`, `false`), an array of names (possibly empty,
      which is truthy), or some other truthy JSON value, which has no
      `forEach` method. */
  datatype Selection =
    | Falsy
    | Names(names: seq<string>)
    | NotArray

  /** The request body: not readable as JSON (with the parser's message), or
      its two parameters; `urlAnalysis` is `None` when falsy. */
  datatype RequestBody =
    | Unreadable(message: string)
    | Body(selectedCategories: Selection, urlAnalysis: Option<Analysis>)

  /** What `generateRegexPatternsForCategories` did. */
  datatype GeneratorOutcome =
    | GeneratorThrew(message: Option<string>)
    | Generated(patterns: Record<UrlPattern>)

  type Generator = Record<seq<string>> -> GeneratorOutcome

  /** The reply: status 400, status 500 (`None` stands for the message of a
      `TypeError` the runtime raises: reading `url_categories` of `undefined`,
      or calling `forEach` on a value that is not an array), or
      `{ success: true, patterns }`. */
  datatype Reply =
    | BadRequest(error: string)
    | ServerError(message: Option<string>)
    | Patterns(patterns: Record<UrlPattern>)

  const ErrMissing := "Missing required parameters: selectedCategories or urlAnalysis"
  const ErrNoExamples := "No valid categories with examples found"
  const ErrFailed := "Failed to generate patterns"

  /** The category exists and has an `examples` array (which may be empty). */
  predicate HasExamples(categories: Record<CategoryInfo>, name: string) {
    Get(categories, name).Some? && Get(categories, name).value.examples.Some?
  }

  /** The `forEach` building `categoryExamples`. */
  function CategoryExamples(selected: seq<string>, categories: Record<CategoryInfo>): (r: Record<seq<string>>)
    ensures forall k :: k in Keys(r) <==> k in selected && HasExamples(categories, k)
    ensures forall k :: k in Keys(r) ==> Get(categories, k).Some? && Get(r, k) == Get(categories, k).value.examples
    decreases |selected|
  {
    if |selected| == 0 then Empty()
    else
      var name := selected[|selected| - 1];
      var r := CategoryExamples(selected[..|selected| - 1], categories);
      assert forall k :: k in selected <==> k in selected[..|selected| - 1] || k == name by {
        assert selected == selected[..|selected| - 1] + [name];
      }
      if HasExamples(categories, name) then Put(r, name, Get(categories, name).value.examples.value)
      else r
  }

  /** The keys come in the order of their first selection. */
  lemma {:induction false} CategoryExamplesOrder(selected: seq<string>, categories: Record<CategoryInfo>)
    ensures Keys(CategoryExamples(selected, categories))
         == Dedup(Filter(selected, (k: string) => HasExamples(categories, k)))
    decreases |selected|
  {
    var keep := (k: string) => HasExamples(categories, k);
    if |selected| > 0 {
      var init := selected[..|selected| - 1];
      var name := selected[|selected| - 1];
      CategoryExamplesOrder(init, categories);
      var kept := HasExamples(categories, name);
      SplitLast(selected);
      FilterLast(selected, init, name, keep);
      var r := CategoryExamples(init, categories);
      var next := CategoryExamples(selected, categories);
      assert kept ==> Keys(next) == (if name in Keys(r) then Keys(r) else Keys(r) + [name]);
      OrderStep(r, next, Filter(init, keep), name, kept);
    }
  }

  /** One name of the `forEach`, on keys: a kept name is added unless present. */
  lemma {:induction false} OrderStep(r: Record<seq<string>>, next: Record<seq<string>>, f: seq<string>, name: string, kept: bool)
    requires Keys(r) == Dedup(f)
    requires kept ==> Keys(next) == (if name in Keys(r) then Keys(r) else Keys(r) + [name])
    requires !kept ==> next == r
    ensures Keys(next) == Dedup(f + (if kept then [name] else []))
  {
    if kept {
      DedupSnoc(f, name);
    } else {
      assert f + [] == f;
    }
  }

  /** The handler. */
  function Post(body: RequestBody, generate: Generator): (r: Reply)
    ensures body.Unreadable? ==> r == ServerError(Some(body.message))
    ensures body.Body? && (body.selectedCategories.Falsy? || body.urlAnalysis.None?) ==>
              r == BadRequest(ErrMissing)
    ensures body.Body? && body.selectedCategories.NotArray? && body.urlAnalysis.Some? ==>
              r == ServerError(None)
    ensures body.Body? && body.selectedCategories.Names? && body.urlAnalysis.Some?
            && body.urlAnalysis.value.categories.None? ==>
              r == (if |body.selectedCategories.names| == 0 then BadRequest(ErrNoExamples) else ServerError(None))
    ensures body.Body? && body.selectedCategories.Names? && body.urlAnalysis.Some?
            && body.urlAnalysis.value.categories.Some? ==>
              var examples := CategoryExamples(body.selectedCategories.names, body.urlAnalysis.value.categories.value);
              (|Keys(examples)| == 0 ==> r == BadRequest(ErrNoExamples))
              && (|Keys(examples)| > 0 && generate(examples).Generated? ==> r == Patterns(generate(examples).patterns))
              && (|Keys(examples)| > 0 && generate(examples).GeneratorThrew? ==>
                    r == ServerError(Some(generate(examples).message.GetOr(ErrFailed))))
    ensures r.Patterns? ==> exists examples: Record<seq<string>> :: |Keys(examples)| > 0 && generate(examples) == Generated(r.patterns)
  {
    match body
    case Unreadable(message) => ServerError(Some(message))
    case Body(selection, analysis) =>
      if selection.Falsy? || analysis.None? then BadRequest(ErrMissing)
      else if selection.NotArray? then ServerError(None)
      else
        var selected := selection.names;
        match analysis.value.categories
        case None => if |selected| == 0 then BadRequest(ErrNoExamples) else ServerError(None)
        case Some(categories) =>
          var examples := CategoryExamples(selected, categories);
          if |Keys(examples)| == 0 then BadRequest(ErrNoExamples)
          else match generate(examples)
            case GeneratorThrew(message) => ServerError(Some(message.GetOr(ErrFailed)))
            case Generated(patterns) => Patterns(patterns)
  }

  /** The generator is asked about exactly the selected categories that have
      examples, each with its examples unchanged, and about nothing else. */
  lemma {:induction false} GeneratorSeesSelectedExamples(selected: seq<string>, categories: Record<CategoryInfo>, generate: Generator)
    requires Post(Body(Names(selected), Some(Analysis(Some(categories)))), generate).Patterns?
    ensures var examples := CategoryExamples(selected, categories);
            generate(examples) == Generated(Post(Body(Names(selected), Some(Analysis(Some(categories)))), generate).patterns)
            && (forall k :: k in Keys(examples) <==> k in selected && HasExamples(categories, k))
            && exists k :: k in selected && HasExamples(categories, k)
  {
    var examples := CategoryExamples(selected, categories);
    assert |Keys(examples)| > 0;
    assert Keys(examples)[0] in Keys(examples);
  }
}
