# Ai-Microservices core, modelled in Dafny

This project models the deterministic core of three small language-model
services and of their web front end:

- **Learning path** (`app/learning_path.py`). It does four things:
  - ranks a fixed catalog of learning resources against the learner's goal and background;
  - renders the top ten as the prompt's resource lines;
  - cuts the first JSON object or array out of the model's reply, drops trailing commas and parses it (with one brace-wrapped retry);
  - normalises the result into week records. Dict replies take the object branch and list replies the array branch. When nothing truthy parses, a line-based "Week N:" fallback takes over. Anything raised becomes the error record.
- **Question answering** (`app/qa_service.py`): the query check, the choice between inline text and an uploaded file, the upload's content-type check, the clipping of the document to a 12000-character budget, and the split of the reply into an answer line and its reasoning.
- **Summarizer** (`app/summarizer.py`): the mapping of the requested length to a phrase, and the refusal of blank input.
- **Front end** (`frontend/script.js`): `escapeHtml` and `escapeAttribute`.

The language models are function parameters:
- `invoke` for question answering and summarising;
- `complete` for the learning path, which returns the reply's content or the message of the exception it raised.

`json.loads` is the parameter `loads`: `None` stands for "raised". Facts about a parser that follows RFC 8259 are stated as hypotheses on `loads` (`RejectsOpenerAfterBrace`, `BraceTextIsObject`, `ObjectsNeedBraces`). The resource ranking takes the catalog as a parameter; `Pipeline.Catalog` is the fixed one.

Modules:
- `Text` holds Python's `str.strip`, `str.isspace`, `str.splitlines`, ASCII `lower`, `int`/`str` on decimals and slicing helpers.
- `Json` is the parsed value, with truthiness, `dict.get`, and `str()`/`repr()` of parsed values (string escapes for characters up to U+00FF).
- `ResourceScorer`, `JsonExtract`, `LearningPath` and `Pipeline` cover the learning path.
- `QaService`, `Summarizer` and `Escape` cover the rest.

Where the code does something in a loop that updates variables, the model has a method with loop invariants proved equal to a specification function:
- `RetrieveResources` and `ScoreEntries`;
- `ObjectWeeks`, `ArrayWeeks` and `WeeksFromBlocks`;
- `BuildPlan`, `FormatResources` and `GeneratePlanFrom`.

The lemmas state what those functions mean.

## Behaviour worth noting

- **The fallback marker.** The split pattern is `(?:\n){1,}\s*Week\s*(\d+)\s*:\s*`, so a marker needs at least one line break in front of it; one is enough. The reply is stripped first, so a "Week 1:" at the very start of the reply is never a marker (`LearningPath.NoMarkerAtStart`). The text "Week 1:\n- Learn X\n- Learn Y\n\nWeek 2:\n- Learn Z" therefore gives one week, week 2.
- **Overlong week numbers.** `int()` refuses a string of more than 4300 digits (Python's default `sys.int_info.default_max_str_digits`) with a ValueError, so the fallback's `except` branch numbers such a week by its position, `len(weeks) + 1` (`LearningPath.WeekNumberOf`). Every shorter digit run gives its decimal value.
- **`raw_text` can be empty.** A reply without content gives `raw_text == ""` and no week (`Pipeline.RawTextIsStrippedReply`).
- **The fallback runs only when the parse gives nothing truthy.** A truthy value that is neither a dict with a "weeks" list nor a list gives no weeks, and the fallback does not run.
- **Booleans count as ints.** Python's `bool` is an `int`, so `"week": true` is kept as the week in the object branch.

## Model

| member | source | states |
|---|---|---|
| ResourceScorer.Tokens | app/learning_path.py:36 | every token of `re.findall(r"[a-zA-Z0-9]+", ...)` is a non-empty run of ASCII letters and digits |
| ResourceScorer.AlnumPrefix | app/learning_path.py:36 | the leading run is all letters and digits and is followed by the end of the text or by another character |
| ResourceScorer.Runs | app/learning_path.py:36 | the matches found are non-empty runs of ASCII letters and digits |
| ResourceScorer.RunIsMaximal | app/learning_path.py:36 | every match found is a maximal run: the start of the text or a non-alphanumeric character before it, the end or a non-alphanumeric character after it |
| ResourceScorer.MaximalRunIsRun | app/learning_path.py:36 | every maximal run of the text is among the matches found |
| ResourceScorer.TokensAreMaximalRuns | app/learning_path.py:36 | a string is a token exactly when it occurs in the text as a maximal `[a-zA-Z0-9]` run |
| ResourceScorer.QueryTokens | app/learning_path.py:35-36 | the tokens of the lowered text `f"{goal} {background or ''}"`; what they are is stated by TokensAreMaximalRuns and BlankQueryHasNoTokens |
| ResourceScorer.TagHits | app/learning_path.py:40-42 | the number of tags whose lowered form is a token, never more than the number of tags |
| ResourceScorer.RunsCoverAlnum | app/learning_path.py:36 | the runs found, concatenated in order, are exactly the ASCII alphanumeric characters of the text: nothing is lost or reordered |
| ResourceScorer.NonAlnumTagNeverMatches | app/learning_path.py:40-42 | a tag holding a character outside `[a-zA-Z0-9]` (such as "scikit-learn"), once lowered, is never a token, so it adds no tag hit |
| ResourceScorer.BlankQueryHasNoTokens | app/learning_path.py:35-36 | a goal without letters or digits, and no background, yields no token at all |
| ResourceScorer.NoAlnumNoRuns | app/learning_path.py:36 | text without letters or digits has no run |
| ResourceScorer.Score | app/learning_path.py:38-46 | a score is at most two per tag plus two, and with no tokens it is twice the tag hits |
| ResourceScorer.NoTokensNoHits | app/learning_path.py:40-42 | with no tokens no tag hits |
| ResourceScorer.ScoreAll | app/learning_path.py:38-47 | one (score, entry) pair per catalog entry, in catalog order, each carrying that entry's score |
| ResourceScorer.ScoreEntries | app/learning_path.py:37-47 | the nested scoring loops produce exactly the pairs ScoreAll describes |
| ResourceScorer.Items | app/learning_path.py:49 | projecting pairs onto entries keeps length and order |
| ResourceScorer.SortDesc | app/learning_path.py:48 | `scored.sort(key=..., reverse=True)` as a stable insertion sort; SortDescPermutes, SortDescOrders and SortDescStable state that it is a permutation, non-increasing and stable |
| ResourceScorer.InsertPermutes | app/learning_path.py:48 | inserting into the sorted list adds exactly that one element |
| ResourceScorer.SortDescPermutes | app/learning_path.py:48 | the descending sort is a permutation of the scored list |
| ResourceScorer.InsertKeepsOrder | app/learning_path.py:48 | inserting into a non-increasing list keeps it non-increasing |
| ResourceScorer.SortDescOrders | app/learning_path.py:48 | the sorted list is non-increasing in score |
| ResourceScorer.InsertStable | app/learning_path.py:48 | insertion puts a new element ahead of the equal scores already present, as the recursive stable sort needs |
| ResourceScorer.SortDescStable | app/learning_path.py:48 | `list.sort` is stable: among equal scores the catalog order is kept |
| ResourceScorer.SortDescOfOrdered | app/learning_path.py:48 | sorting an already non-increasing list changes nothing |
| ResourceScorer.PositiveInsert | app/learning_path.py:48-49 | filtering positive scores commutes with one insertion |
| ResourceScorer.PositiveOfLowHead | app/learning_path.py:49 | the positive part of a sorted list headed by a score at most h starts at most at h |
| ResourceScorer.PositiveMembers | app/learning_path.py:49 | `[it for s, it in scored if s > 0]` keeps only elements of the list, all with positive score |
| ResourceScorer.PositiveKeepsOrder | app/learning_path.py:49 | filtering a sorted list keeps it sorted |
| ResourceScorer.PositiveBelow | app/learning_path.py:49 | filtering keeps a bound on the scores |
| ResourceScorer.PositiveSortCommutes | app/learning_path.py:48-49 | sorting then filtering equals filtering then sorting |
| ResourceScorer.Ranked | app/learning_path.py:30-52 | `_retrieve_resources` never returns more than top_k entries |
| ResourceScorer.Select | app/learning_path.py:49-52 | the selection after the sort never exceeds top_k |
| ResourceScorer.RankedWhenSomethingMatches | app/learning_path.py:48-52 | when some entry scores above zero, the result is the positive entries, stable-sorted by descending score, cut to top_k |
| ResourceScorer.RankedWhenNothingMatches | app/learning_path.py:50-52 | when nothing scores above zero, the result is the first top_k catalog entries in catalog order |
| ResourceScorer.SelectWhenNonePositive | app/learning_path.py:50-52 | with no positive score the selection is the head of the (unchanged) list |
| ResourceScorer.AllZeroWhenNonePositive | app/learning_path.py:48-50 | a list without positive scores is all zeros, hence already sorted |
| ResourceScorer.NoPositiveWhenAllZero | app/learning_path.py:49-50 | all-zero scores leave nothing positive |
| ResourceScorer.EmptyQueryFallsBack | app/learning_path.py:35-52 | an empty goal with no background returns the catalog head |
| ResourceScorer.RetrieveResources | app/learning_path.py:30-52 | the method computes Ranked and returns at most top_k entries |
| ResourceScorer.SelectFromSorted | app/learning_path.py:49-52 | with top_k > 0 the selection from a non-empty list is non-empty and drawn from that list |
| ResourceScorer.PromptResourcesNonEmpty | app/learning_path.py:91 | with top_k = 10 a non-empty catalog always contributes at least one resource, each taken from the catalog |
| ResourceScorer.ResourceLine | app/learning_path.py:94 | each resource line starts with "- " and holds no line break when its fields hold none |
| ResourceScorer.ResourceLines | app/learning_path.py:92-94 | one line per resource, in order |
| ResourceScorer.BlockLinesAreResources | app/learning_path.py:96 | splitting the joined block on "\n" gives back exactly the resource lines |
| Pipeline.FormatResources | app/learning_path.py:92-94 | the loop builds exactly the resource lines |
| Pipeline.BackgroundText | app/learning_path.py:132 | `background or "unspecified"` is never empty and is the background when one is given |
| Pipeline.RawTextIsStrippedReply | app/learning_path.py:138-140 | a raising model gives the error record; otherwise raw_text is the stripped reply, or the plan is an error record (no week, raw text starting "Error generating plan: "); a reply without content gives no week and an empty raw text |
| Pipeline.PromptFor | app/learning_path.py:91-136 | the values the prompt is rendered with: goal, `background or "unspecified"`, the two numbers and the block of the ten best resources; BackgroundText and BlockLinesAreResources state their properties |
| Pipeline.GeneratedPlan | app/learning_path.py:90-192 | the whole function as a composition: retrieval, prompt, model call, strip, normalisation, error record; RawTextIsStrippedReply states what it returns |
| Pipeline.GeneratePlanFrom | app/learning_path.py:90-192 | the whole call equals GeneratedPlan: retrieval, prompt, model, normalisation, error record |
| Pipeline.GenerateLearningPlan | app/learning_path.py:83-192 | generate_learning_path over the fixed catalog |
| JsonExtract.Span | app/learning_path.py:62-63 | a greedy `(\{[\s\S]*\})` match runs from the first opener to the last closer, with no opener before it and no closer after it |
| JsonExtract.SpanNoneIff | app/learning_path.py:62-63 | the pattern fails exactly when no opener comes before a closer |
| JsonExtract.Candidate | app/learning_path.py:62-69 | the object match wins; the array match is used only without one; no candidate exactly when neither matches; a candidate starts with its bracket |
| JsonExtract.ObjectCandidateWins | app/learning_path.py:66-67 | any '{' before a '}' makes the object span the candidate, even when a '[' comes first |
| JsonExtract.CommaRunDropped | app/learning_path.py:72 | a comma followed by whitespace and a closing bracket is deleted together with that whitespace |
| JsonExtract.CommaBehind | app/learning_path.py:72 | a dropped whitespace character has its comma behind it across whitespace only |
| JsonExtract.NotDroppedWhenCopied | app/learning_path.py:72 | a character the scan copies is not one of the deleted ones |
| JsonExtract.ResumableAfterMatch | app/learning_path.py:72 | after a match the left-to-right scan resumes past the bracket |
| JsonExtract.MatchStep | app/learning_path.py:72 | on a match the kept text continues with the bracket |
| JsonExtract.KeptOverCommaRun | app/learning_path.py:72 | nothing between a matched comma and its bracket is kept |
| JsonExtract.NotDroppedAtBracket | app/learning_path.py:72 | a closing bracket is never deleted |
| JsonExtract.CopyStep | app/learning_path.py:72 | a copied character continues the kept text |
| JsonExtract.RepairFromIsKept | app/learning_path.py:72 | the `re.sub` scan from any resumable position yields exactly the characters that are not deleted |
| JsonExtract.RepairDeletesExactlyDropped | app/learning_path.py:72 | the repair deletes each comma whose whitespace run ends in `}` or `]` (with that run) and keeps every other character in order |
| JsonExtract.KeptNotLonger | app/learning_path.py:72 | the kept text is never longer than its source |
| JsonExtract.Repair | app/learning_path.py:72 | `re.sub(r",\s*([\}\]])", r"\1", candidate)` as a left-to-right scan; RepairDeletesExactlyDropped states what it deletes and keeps |
| JsonExtract.RepairNotLonger | app/learning_path.py:72 | the repair never lengthens its input |
| JsonExtract.RepairWithoutCommas | app/learning_path.py:72 | text without a comma is unchanged |
| JsonExtract.RepairNotIdempotent | app/learning_path.py:72 | one pass is not a fixpoint: ",,}" becomes ",}" and only a second pass gives "}" |
| JsonExtract.RepairExample | app/learning_path.py:72 | "[1,2,]" repairs to "[1,2]" |
| JsonExtract.RepairKeepsFirst | app/learning_path.py:72 | a first character that is not a comma survives |
| JsonExtract.Origin | app/learning_path.py:72 | each kept character comes from a position of the input holding that character |
| JsonExtract.OriginIncreasing | app/learning_path.py:72 | kept characters keep their input order |
| JsonExtract.RepairAddsNoBraceSpan | app/learning_path.py:72 | the repair cannot create a '{' before a '}' that the input lacked |
| JsonExtract.NoBraceSpanInSlice | app/learning_path.py:62-72 | a text without a '{' before a '}' has none in any slice, nor after repairing it |
| JsonExtract.TryParseJson | app/learning_path.py:55-80 | no candidate means no parse |
| JsonExtract.RetryNeverSucceeds | app/learning_path.py:76-79 | for an RFC 8259 parser the brace-wrapped retry never succeeds, so the result is the first parse |
| JsonExtract.ObjectCandidateParsesAsObject | app/learning_path.py:62-77 | with a '{' before a '}' anything that parses is an object |
| JsonExtract.ArrayCandidateHasNoObjects | app/learning_path.py:63-74 | an array candidate, taken only when there is no object span, parses to a value with no object item |
| JsonExtract.ArrayResultHasNoObjects | app/learning_path.py:55-80 | a top-level array the parse returns never holds a dict |
| Json.Truthy | app/learning_path.py:148 | Python's truth value of a parsed value: None, False, 0, 0.0, "", [] and {} are false; EmptyParseFallsBack uses it |
| Json.Get | app/learning_path.py:151-154 | `dict.get(key)`; GetFinds states what it finds |
| Json.PyRepr | app/learning_path.py:157 | `repr()` of a parsed value, as `str()` gives it for lists, dicts, None, booleans and numbers; PyStr states the string and integer cases |
| Json.GetFinds | app/learning_path.py:151-154 | `dict.get` finds nothing exactly when no member has the key, and what it finds is stored under the key |
| Json.PyStr | app/learning_path.py:157 | `str()` of a string is itself and of a non-negative int is its decimal digits |
| LearningPath.ErrorPlan | app/learning_path.py:187-192 | the error record has no week and a raw text starting "Error generating plan: " |
| LearningPath.ListOr | app/learning_path.py:152-154 | a field is kept when it is a list and replaced by [] otherwise |
| LearningPath.GetOrCases | app/learning_path.py:166-169 | `w.get(key, default)` gives the default exactly when the key is missing, else the stored value |
| LearningPath.StrList | app/learning_path.py:157 | `[str(t) for t in topics]`: same length, element by element |
| LearningPath.WeekNumber | app/learning_path.py:151-156 | the week number is always truthy: a non-zero int or True is kept, anything else (0, False, missing, not an int) becomes the 1-based position |
| LearningPath.ObjectWeek | app/learning_path.py:151-159 | the record built from one dict of the "weeks" list; ObjectWeekFields and WeekNumber state its fields |
| LearningPath.ObjectWeekFields | app/learning_path.py:151-159 | a dict's week has a truthy number, list-valued resources and practicals, and the str() of its topic list or none |
| LearningPath.ObjectWeeksFromCases | app/learning_path.py:150-160 | all dicts: one week per element in order, numbered by position; otherwise the AttributeError of the first non-dict |
| LearningPath.ObjectWeeksOfCases | app/learning_path.py:150-160 | the same for the whole "weeks" list |
| LearningPath.PrependTwice | app/learning_path.py:155 | appending two steps at a time equals appending their concatenation |
| LearningPath.ObjectWeeks | app/learning_path.py:150-160 | the loop (returning on the first non-dict) computes ObjectWeeksOf |
| LearningPath.ZeroWeekTakesPosition | app/learning_path.py:151-156 | `"week": 0` is replaced by the element's 1-based position |
| LearningPath.ArrayWeek | app/learning_path.py:163-170 | the record built from one dict of a top-level list, with `w.get(key, default)` for the week, resources and practicals; GetOrCases and ArrayWeekNumbers state its fields |
| LearningPath.ArrayWeeksEmptyIff | app/learning_path.py:161-170 | the array branch yields no week exactly when no element is a dict, and never more weeks than elements |
| LearningPath.ArrayWeekNumbers | app/learning_path.py:162-170 | with all dicts, one week per element in order, each built with its own index |
| LearningPath.ArrayWeeks | app/learning_path.py:161-170 | the loop computes ArrayWeeksOf |
| LearningPath.SkipDigits | app/learning_path.py:172 | `\d+` stops at the first non-digit |
| LearningPath.SkipDigitsRun | app/learning_path.py:172 | everything it passes over is a digit |
| LearningPath.MarkerAt | app/learning_path.py:172 | a marker match starts at a line break, captures a non-empty digit run, and ends at the end of the text or at a non-space |
| LearningPath.Digits | app/learning_path.py:172 | the captured group has the length of the digit run |
| LearningPath.MarkerDigits | app/learning_path.py:172 | what the group captures is a non-empty run of digits |
| LearningPath.FindMarker | app/learning_path.py:172 | a match found lies in range and is a match |
| LearningPath.FindMarkerLeftmost | app/learning_path.py:172 | the match found is the leftmost one, and none is found only when there is none |
| LearningPath.BlocksFrom | app/learning_path.py:172-175 | each pair's number is the captured digits of its match |
| LearningPath.MarkerBlocks | app/learning_path.py:172-175 | every pair carries a non-empty digit string |
| LearningPath.MarkerBlocksEmptyIff | app/learning_path.py:172-173 | there are no pairs exactly when the pattern never matches |
| LearningPath.NoMarkerAtStart | app/learning_path.py:140 | a stripped reply cannot have a marker at offset 0 |
| LearningPath.StripBullets | app/learning_path.py:181 | `lstrip("-• ")` removes a prefix of bullet characters and stops at the first other one |
| LearningPath.BulletTopicsFrom | app/learning_path.py:181 | never more topics than lines |
| LearningPath.BulletTopicsEmptyIff | app/learning_path.py:181-182 | there are no bullet topics exactly when no line is a bullet line |
| LearningPath.NonBlankFrom | app/learning_path.py:183 | never more kept lines than lines |
| LearningPath.NonBlankFromEmptyIff | app/learning_path.py:183 | nothing is kept exactly when every line is blank |
| LearningPath.NonBlankFromNonEmpty | app/learning_path.py:183 | no kept line is empty |
| LearningPath.BulletLinesAreNotBlank | app/learning_path.py:181 | a bullet line is not blank |
| LearningPath.LineTopics | app/learning_path.py:181-183 | the bullet topics of a block, or else its first three non-blank lines stripped; LineTopicsCases states when it is empty |
| LearningPath.LineTopicsCases | app/learning_path.py:181-183 | a block has no topic exactly when all its lines are blank; without bullets it has at most three non-empty topics |
| LearningPath.WeekNumberOf | app/learning_path.py:176-180 | `int(weeknum)` of a digit string of at most 4300 digits is its decimal value; a longer one raises ValueError and the week takes its 1-based position |
| LearningPath.FallbackWeek | app/learning_path.py:176-184 | one fallback week: WeekNumberOf's number, the block's topics, empty resources and practicals; FallbackWeeksNumbered states it for every marker |
| LearningPath.BlockWeeksElements | app/learning_path.py:175-184 | one week per (digits, content) pair, in order |
| LearningPath.FallbackWeeksNumbered | app/learning_path.py:172-184 | one week per marker, numbered by its digits' decimal value (by its 1-based position when the digits are more than 4300), with its block's topics and empty resources and practicals |
| LearningPath.FallbackWeeksEmptyIff | app/learning_path.py:172-184 | the fallback yields no week exactly when the marker never matches |
| LearningPath.WeeksFromBlocks | app/learning_path.py:174-184 | the `zip(it, it)` loop builds exactly the block weeks |
| LearningPath.FallbackWeeks | app/learning_path.py:171-184 | the fallback method computes FallbackWeeksOf |
| LearningPath.PlanOf | app/learning_path.py:146-185 | the normalisation of the stripped reply: parse, then the object branch, the array branch or the fallback; the lemmas below state each case |
| LearningPath.BuildPlan | app/learning_path.py:146-185 | the normalisation computes PlanOf: object branch, array branch, other truthy values, fallback |
| LearningPath.EmptyParseFallsBack | app/learning_path.py:148 | no parse, `{}` and `[]` all go to the fallback |
| LearningPath.NonObjectWeekIsError | app/learning_path.py:150-151 | a non-dict in "weeks" makes the result the error record naming the type of the first non-dict |
| LearningPath.ObjectReplyWeeks | app/learning_path.py:149-160 | an object reply whose "weeks" holds only dicts gives one week per element, in order, with the raw text kept |
| LearningPath.ListWithoutObjectsHasNoWeeks | app/learning_path.py:161-163 | a non-empty list without dicts gives no week and no fallback |
| LearningPath.ArrayReplyHasNoWeeks | app/learning_path.py:161-170 | for an RFC 8259 parser a non-empty top-level array never yields a week |
| LearningPath.SingleLineProseHasNoWeeks | app/learning_path.py:146-185 | a reply without line break and brackets gives an empty plan |
| LearningPath.PlanKeepsRawText | app/learning_path.py:185 | the plan keeps the raw text, unless it is the error record, which has no week |
| LearningPath.EmptyReplyHasNoWeeks | app/learning_path.py:146-185 | an empty reply gives an empty plan with an empty raw text |
| Text.Lower | app/learning_path.py:35 | `lower()` keeps the length and lowers each character |
| Text.StripStart | app/learning_path.py:140 | `lstrip()`, never longer than its input; StripStartSuffix states what it removes |
| Text.StripEnd | app/learning_path.py:140 | `rstrip()`, never longer than its input; StripEndPrefix states what it removes |
| Text.Strip | app/learning_path.py:140 | `strip()`, never longer than its input; StripInfix, StripEnds and StripIdempotent state what it keeps |
| Text.StripStartSuffix | app/learning_path.py:140 | `lstrip()` keeps a suffix, drops only whitespace, and keeps nothing or a non-space first |
| Text.StripEndPrefix | app/learning_path.py:140 | `rstrip()` keeps a prefix, drops only whitespace, and keeps nothing or a non-space last |
| Text.StripInfix | app/learning_path.py:140 | `strip()` keeps the infix between a whitespace prefix and a whitespace suffix |
| Text.StripEmptyIff | app/qa_service.py:34-35 | `strip()` leaves nothing exactly when the text is all whitespace |
| Text.StripEnds | app/learning_path.py:140 | a stripped text begins and ends with non-whitespace |
| Text.StripOfTrimmed | app/learning_path.py:140 | text already trimmed is unchanged |
| Text.StripIdempotent | app/learning_path.py:140 | stripping twice is stripping once |
| Text.StripKeepsAbsence | app/qa_service.py:59-60 | stripping introduces no character |
| Text.SkipSpace | app/learning_path.py:72 | `\s*` stops at the first non-space |
| Text.SkipSpaceRun | app/learning_path.py:72 | everything `\s*` passes over is whitespace |
| Text.SkipSpaceFromInside | app/learning_path.py:72 | starting inside a whitespace run ends where starting at its beginning does |
| Text.SkipSpaceOverRun | app/learning_path.py:72 | `\s*` consumes at least a whole whitespace run |
| Text.SplitLines | app/learning_path.py:181 | `str.splitlines()`; SplitLinesAreSingle and LineLength state where it cuts |
| Text.LineLength | app/learning_path.py:181 | a line ends at the first line boundary |
| Text.SplitLinesAreSingle | app/learning_path.py:181 | no line `splitlines()` returns holds a line boundary |
| Text.StripKeepsSingleLine | app/learning_path.py:181 | stripping a line keeps it one line |
| Text.FirstIndex | app/qa_service.py:59 | the first occurrence, or none exactly when absent |
| Text.LastIndex | app/learning_path.py:62-63 | the last occurrence, or none exactly when absent |
| Text.SplitOn | app/learning_path.py:96 | `split` never returns an empty list |
| Text.SplitJoin | app/learning_path.py:96 | splitting a join of separator-free parts gives the parts back |
| Text.DigitChar | app/learning_path.py:178 | a digit character for each digit value |
| Text.NatToDecimal | app/learning_path.py:178 | `str(n)` is a non-empty digit string |
| Text.DecimalRoundTrip | app/learning_path.py:178 | `int(str(n)) == n` |
| Text.IntToDecimal | app/learning_path.py:157 | `str(i)` is the digits of i, after a '-' when negative |
| QaService.ReadTextFile | app/qa_service.py:24-29 | only "text/plain" and "text/markdown" uploads are read; anything else fails with 415 |
| QaService.PrepareContext | app/qa_service.py:33-41 | fails with 400 exactly when the text is blank; the context is never longer than 12000 characters plus the marker |
| QaService.ShortContextUnchanged | app/qa_service.py:37-41 | a document within the budget is passed on stripped and otherwise unchanged |
| QaService.LongContextClipped | app/qa_service.py:37-40 | a longer document keeps its first and last 6000 characters, which do not overlap, around "\n...\n": 12005 characters |
| QaService.PrepareContextIdempotent | app/qa_service.py:33-41 | preparing a prepared context changes nothing |
| QaService.DocumentText | app/qa_service.py:47-53 | non-blank inline text wins (stripped); otherwise the file is read; with neither, 400 |
| QaService.SplitAnswer | app/qa_service.py:59-61 | without a line break the answer is the stripped reply and there is no reasoning; otherwise the answer is the stripped text before the first line break and the reasoning the stripped text after it |
| QaService.SplitAnswerNonEmpty | app/qa_service.py:57-61 | on a stripped non-empty reply neither the answer nor the reasoning is empty |
| QaService.AnswerQuestion | app/qa_service.py:43-62 | `answer_question`: query check, document choice, context preparation, model call and split; the five lemmas below state its cases |
| QaService.QueryCheckedFirst | app/qa_service.py:44-45 | a blank query fails with 400 before anything else |
| QaService.InlineTextWins | app/qa_service.py:48-51 | with non-blank inline text the upload does not matter |
| QaService.NoDocumentFails | app/qa_service.py:52-53 | neither text nor file fails with 400 |
| QaService.UnsupportedUploadFails | app/qa_service.py:25-26 | without usable text, an upload of another content type fails with 415 |
| QaService.AnswerFromBoundedContext | app/qa_service.py:55-62 | on success the model saw a context within the budget and the answer is one line |
| Summarizer.PhraseFor | app/summarizer.py:20-25 | "medium" and "long" map to their phrases and every other key to the short phrase |
| Summarizer.LengthToWords | app/summarizer.py:18-25 | the result is always one of the three phrases |
| Summarizer.LengthDefaultsToShort | app/summarizer.py:19-25 | a missing, empty or unknown length gives the short phrase |
| Summarizer.PaddedUpperCaseMedium | app/summarizer.py:19 | " MEDIUM " is normalised to "medium" |
| Summarizer.SummarizeText | app/summarizer.py:27-32 | fails with "Input text is empty." exactly when the text is blank |
| Summarizer.EmptyInputNeverReachesModel | app/summarizer.py:28-29 | a blank input fails before the model is asked |
| Escape.EscapeHtml | frontend/script.js:158-165 | the chain of five global replaces, `&` first; EscapeHtmlIsEscapeEach, EscapeHtmlHasNoSpecials and UnescapeEscapeHtml state what it produces |
| Escape.EscapeAttribute | frontend/script.js:166-168 | every `"` replaced by "%22"; EscapeAttributeQuotes and UnescapeEscapeAttribute state what it produces |
| Escape.ReplaceAllAppend | frontend/script.js:160-164 | a global replace distributes over concatenation |
| Escape.ReplaceAllAbsent | frontend/script.js:160-164 | replacing an absent character changes nothing |
| Escape.ReplaceAllRemoves | frontend/script.js:160-164 | a replacement without the character leaves none behind |
| Escape.ReplaceAllOne | frontend/script.js:160-164 | the replace on a single character |
| Escape.EscapeChar | frontend/script.js:158-165 | every character has a non-empty entity |
| Escape.EscapeHtmlAmp | frontend/script.js:160-164 | '&' becomes "&amp;" and is not escaped again |
| Escape.EscapeHtmlLt | frontend/script.js:161 | '<' becomes "&lt;" |
| Escape.EscapeHtmlGt | frontend/script.js:162 | '>' becomes "&gt;" |
| Escape.EscapeHtmlOther | frontend/script.js:163-164 | any other character gets its own entity or stays |
| Escape.EscapeHtmlChar | frontend/script.js:158-165 | the chain on one character is its entity |
| Escape.EscapeHtmlAppend | frontend/script.js:158-165 | the chain escapes a concatenation part by part |
| Escape.EscapeHtmlIsEscapeEach | frontend/script.js:158-165 | the chain of five replacements equals escaping each character independently |
| Escape.EscapeCharClean | frontend/script.js:158-165 | no entity holds `<`, `>`, `"` or `'` |
| Escape.EscapeEachHasNoSpecials | frontend/script.js:158-165 | the per-character escape leaves none of them |
| Escape.EscapeHtmlHasNoSpecials | frontend/script.js:158-165 | escaped text holds no `<`, `>`, `"` or `'` |
| Escape.EntityAtShift | frontend/script.js:158-165 | an entity is still found after text is put before it |
| Escape.EscapeEachAmpersands | frontend/script.js:158-165 | every `&` of the per-character escape starts one of the five entities |
| Escape.EscapeHtmlAmpersands | frontend/script.js:158-165 | every `&` of escaped text starts one of the five entities, so the escape can be read back unambiguously |
| Escape.LeadingEntity | frontend/script.js:158-165 | an entity found at the front is one of the five and fits |
| Escape.UnescapeChar | frontend/script.js:158-165 | unescaping after one escaped character gives that character back |
| Escape.UnescapeEscapeEach | frontend/script.js:158-165 | unescaping inverts the per-character escape |
| Escape.UnescapeEscapeHtml | frontend/script.js:158-165 | unescaping inverts escapeHtml on every string |
| Escape.EscapeAttributeQuotes | frontend/script.js:166-168 | the result has no `"`, is two characters longer per `"`, and is the input when there was none |
| Escape.UnescapeEscapeAttribute | frontend/script.js:166-168 | on text without `%`, turning "%22" back into `"` inverts escapeAttribute |

## Left out

- The language models (`ChatOllama`, `Ollama`) are function parameters. Prompt templating is not modelled: the prompt is the record of values it is filled with. `app/main.py` (the HTTP routes) is not part of this model.
- `json.loads` is a parameter, not an implementation of JSON parsing. The RFC 8259 facts the array-branch lemmas need are stated as hypotheses about it.
- Logging (`print`, `traceback`) is left out; it has no effect on results.
- An exception from the chat model becomes the error record with the exception's message. The message text itself is an input.
- The summarizer's `_llm.invoke(...)` is a parameter. A language-model exception, which propagates unchanged, is not modelled.
- Text.Lower: models `str.lower()` on ASCII only; non-ASCII letters are left unchanged.
- LearningPath.SkipDigits: `\d` is modelled as ASCII digits only; Python also accepts other Unicode decimal digits.
- QaService.ReadTextFile: the upload is given already decoded. UTF-8 decoding with `errors="ignore"` and the reading of the upload are left out; since the decode step cannot raise, its 400 branch is dead.
- The rest of the front end (the requests it sends and the HTML it renders) is left out; only the two escape functions are modelled. Their argument is taken to be a string already: JavaScript's `String()` coercion of other values is not modelled.
- LearningPath.ArrayReplyHasNoWeeks: proved for non-empty arrays only. An empty array is falsy and goes to the fallback (LearningPath.EmptyParseFallsBack).
- Json.ReprChar: `repr()` of a string escapes the non-printable characters up to U+00FF; the other characters Python's Unicode database calls non-printable (such as U+200B, U+2028 or U+3000) are kept as they are instead of becoming `\uXXXX` or `\UXXXXXXXX`.
- LearningPath.WeekNumberOf: the 4300-digit limit is Python's default (Python 3.11 and later). A limit changed through `PYTHONINTMAXSTRDIGITS` or `sys.set_int_max_str_digits`, and older Pythons without a limit, are not modelled.
- Escape.UnescapeEscapeAttribute: stated for inputs without `%`. escapeAttribute does not escape `%`, so a literal "%22" in the input cannot be told apart afterwards.
