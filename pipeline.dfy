/** generate_learning_path end to end: the fixed resource catalog, the prompt
    built from the ten best resources, the chat model as a parameter, and the
    normalisation of its stripped reply. */
module Pipeline {
  import opened Text
  import opened Json
  import opened JsonExtract
  import opened ResourceScorer
  import opened LearningPath

  /** The fixed catalog, in its declared order. */
  const Catalog: seq<Resource> := [
    Resource("Python Basics", ["python", "basics"], "Variables, control flow, functions", "https://docs.python.org/3/tutorial/"),
    Resource("NumPy", ["numpy", "python", "data"], "Numerical arrays and operations", "https://numpy.org/doc/stable/"),
    Resource("Pandas", ["pandas", "data", "dataframe"], "Data manipulation with DataFrame", "https://pandas.pydata.org/"),
    Resource("Matplotlib", ["visualization", "matplotlib"], "Basic plotting", "https://matplotlib.org/stable/tutorials/introductory/pyplot.html"),
    Resource("Seaborn", ["visualization", "seaborn"], "Statistical visualizations", "https://seaborn.pydata.org/"),
    Resource("Exploratory Data Analysis", ["eda", "statistics"], "EDA fundamentals", "https://www.kaggle.com/learn/data-analysis"),
    Resource("Statistics for Data Science", ["statistics"], "Descriptive & inferential statistics", "https://online.stat.psu.edu/statprogram/"),
    Resource("Scikit-learn", ["ml", "scikit-learn"], "Classic ML algorithms and tools", "https://scikit-learn.org/stable/"),
    Resource("Feature Engineering", ["feature", "ml"], "Feature construction and selection", ""),
    Resource("Model Evaluation", ["evaluation", "ml"], "Metrics, cross-validation", ""),
    Resource("Project Work", ["project", "capstone"], "Real-world dataset project", "https://www.kaggle.com/"),
    Resource("SQL Basics", ["sql", "data"], "Intro to SQL queries", "https://www.w3schools.com/sql/")
  ]

  /** `background or "unspecified"`. */
  function BackgroundText(background: Option<string>): (r: string)
    ensures r != []
    ensures background.Some? && background.value != [] ==> r == background.value
  {
    if background.Some? && background.value != [] then background.value else "unspecified"
  }

  /** The prompt the model is asked to complete: the ten best resources of the
      catalog, one line each. */
  function PromptFor(catalog: seq<Resource>, goal: string, background: Option<string>,
                     durationWeeks: int, hoursPerWeek: int): Prompt
  {
    Prompt(goal, BackgroundText(background), durationWeeks, hoursPerWeek,
      ResourcesBlock(Ranked(catalog, goal, background, 10)))
  }

  /** The dict generate_learning_path returns. `complete` is the chat model: it
      returns the reply's content (None when it has none) or the message of the
      exception it raised. */
  function GeneratedPlan(catalog: seq<Resource>, goal: string, background: Option<string>,
                         durationWeeks: int, hoursPerWeek: int,
                         complete: Prompt -> Result<Option<string>, string>,
                         loads: string -> Option<Json>): LearningPlan
  {
    match complete(PromptFor(catalog, goal, background, durationWeeks, hoursPerWeek))
    case Failure(e) => ErrorPlan(e)
    case Success(content) => PlanOf(Strip(if content.Some? then content.value else ""), loads)
  }

  /** The raw text is the stripped reply, unless something raised and the
      error record replaced it; a reply without content gives no week and an
      empty raw text. */
  lemma RawTextIsStrippedReply(catalog: seq<Resource>, goal: string, background: Option<string>,
                               durationWeeks: int, hoursPerWeek: int,
                               complete: Prompt -> Result<Option<string>, string>,
                               loads: string -> Option<Json>)
    ensures var r := GeneratedPlan(catalog, goal, background, durationWeeks, hoursPerWeek, complete, loads);
      var reply := complete(PromptFor(catalog, goal, background, durationWeeks, hoursPerWeek));
      (reply.Failure? ==> r == ErrorPlan(reply.error))
      && (reply.Success? && reply.value.Some? ==>
            r.rawText == Strip(reply.value.value)
            || (r.weeks == [] && |r.rawText| >= 23 && r.rawText[..23] == "Error generating plan: "))
      && (reply.Success? && reply.value.None? ==> r == LearningPlan([], ""))
  {
    var reply := complete(PromptFor(catalog, goal, background, durationWeeks, hoursPerWeek));
    if reply.Success? {
      var text := Strip(if reply.value.Some? then reply.value.value else "");
      PlanKeepsRawText(text, loads);
      if reply.value.None? {
        assert text == "";
        EmptyReplyHasNoWeeks(loads);
      }
    }
  }

  /** The resource lines, in ranked order. */
  method FormatResources(resources: seq<Resource>) returns (lines: seq<string>)
    ensures lines == ResourceLines(resources)
  {
    lines := [];
    var i := 0;
    while i < |resources|
      invariant 0 <= i <= |resources| && |lines| == i
      invariant forall k | 0 <= k < i :: lines[k] == ResourceLine(resources[k])
    {
      lines := lines + [ResourceLine(resources[i])];
      i := i + 1;
    }
  }

  /** generate_learning_path over a given catalog. */
  method GeneratePlanFrom(catalog: seq<Resource>, goal: string, background: Option<string>,
                          durationWeeks: int, hoursPerWeek: int,
                          complete: Prompt -> Result<Option<string>, string>,
                          loads: string -> Option<Json>) returns (plan: LearningPlan)
    ensures plan == GeneratedPlan(catalog, goal, background, durationWeeks, hoursPerWeek, complete, loads)
  {
    var resources := RetrieveResources(catalog, goal, background, 10);
    var lines := FormatResources(resources);
    var prompt := Prompt(goal, BackgroundText(background), durationWeeks, hoursPerWeek, Join('\n', lines));
    var reply := complete(prompt);
    match reply {
      case Failure(e) =>
        plan := ErrorPlan(e);
      case Success(content) =>
        var rawText := Strip(if content.Some? then content.value else "");
        plan := BuildPlan(rawText, loads);
    }
  }

  /** generate_learning_path: the catalog is the fixed one. */
  method GenerateLearningPlan(goal: string, background: Option<string>, durationWeeks: int, hoursPerWeek: int,
                              complete: Prompt -> Result<Option<string>, string>,
                              loads: string -> Option<Json>) returns (plan: LearningPlan)
    ensures plan == GeneratedPlan(Catalog, goal, background, durationWeeks, hoursPerWeek, complete, loads)
  {
    plan := GeneratePlanFrom(Catalog, goal, background, durationWeeks, hoursPerWeek, complete, loads);
  }
}
