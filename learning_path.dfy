/** generate_learning_path: the prompt's resource block, the normalisation of
    the parsed reply into week records, the line-based fallback when nothing
    usable parses, and the error record. */
module LearningPath {
  import opened Text
  import opened Json
  import opened JsonExtract

  /** One week of the plan. `week` is whatever value the branch that built it
      chose (an int, or in the array branch any JSON value); `resources` and
      `practicals` are passed through from the reply. */
  datatype WeekPlan = WeekPlan(week: Json, topics: seq<string>, resources: Json, practicals: Json)

  /** The dict returned to the caller: {"weeks": ..., "raw_text": ...}. */
  datatype LearningPlan = LearningPlan(weeks: seq<WeekPlan>, rawText: string)

  /** The arguments the prompt template is rendered with. */
  datatype Prompt = Prompt(goal: string, background: string, weeks: int, hoursPerWeek: int, resourcesBlock: string)

  /** The record returned when anything in the pipeline raises. */
  function ErrorPlan(message: string): (r: LearningPlan)
    ensures r.weeks == [] && |r.rawText| >= 23 && r.rawText[..23] == "Error generating plan: "
  {
    LearningPlan([], "Error generating plan: " + message)
  }

  /** str() of the AttributeError raised by `w.get` on a value that is not a dict. */
  function NoGetMessage(w: Json): string
  {
    "'" + TypeName(w) + "' object has no attribute 'get'"
  }

  // ---------------------------------------------------------------------------
  // Field defaults shared by the two JSON branches

  /** `w.get(key) if isinstance(w.get(key), list) else []`. */
  function ListOr(v: Option<Json>): (r: Json)
    ensures r.JArray?
    ensures v.Some? && v.value.JArray? ==> r == v.value
    ensures !(v.Some? && v.value.JArray?) ==> r == JArray([])
  {
    if v.Some? && v.value.JArray? then v.value else JArray([])
  }

  /** `w.get(key, default)`: the stored value whatever its type. */
  function GetOr(members: seq<(string, Json)>, key: string, default: Json): Json
  {
    match Get(members, key)
    case Some(v) => v
    case None => default
  }

  /** The default is used exactly when no member has the key; otherwise the
      value is one stored under the key. */
  lemma GetOrCases(members: seq<(string, Json)>, key: string, default: Json)
    ensures var r := GetOr(members, key, default);
      ((forall k | 0 <= k < |members| :: members[k].0 != key) ==> r == default)
      && ((exists k | 0 <= k < |members| :: members[k].0 == key) ==> exists k | 0 <= k < |members| :: members[k] == (key, r))
  {
    GetFinds(members, key);
  }

  /** `[str(t) for t in topics]` for a list. */
  function StrList(v: Json): (r: seq<string>)
    requires v.JArray?
    ensures |r| == |v.items| && forall k | 0 <= k < |r| :: r[k] == PyStr(v.items[k])
  {
    seq(|v.items|, k requires 0 <= k < |v.items| => PyStr(v.items[k]))
  }

  // ---------------------------------------------------------------------------
  // Object branch: {"weeks": [...]}

  /** `week_no if week_no else len(weeks) + 1`, where week_no keeps only an int
      (and Python's bool is an int). */
  function WeekNumber(v: Option<Json>, position: nat): (r: Json)
    ensures position > 0 ==> Truthy(r)
    ensures v.Some? && v.value.JInt? && v.value.i != 0 ==> r == v.value
    ensures v == Some(JBool(true)) ==> r == JBool(true)
    ensures v == Some(JInt(0)) || v == Some(JBool(false)) ==> r == JInt(position)
    ensures !(v.Some? && (v.value.JInt? || v.value.JBool?)) ==> r == JInt(position)
  {
    if v.Some? && (v.value.JInt? || v.value.JBool?) && Truthy(v.value) then v.value else JInt(position)
  }

  /** The record built from one dict of the "weeks" list, at 1-based position. */
  function ObjectWeek(members: seq<(string, Json)>, position: nat): WeekPlan
  {
    WeekPlan(
      WeekNumber(Get(members, "week"), position),
      StrList(ListOr(Get(members, "topics"))),
      ListOr(Get(members, "resources")),
      ListOr(Get(members, "practicals")))
  }

  /** A week read from a dict always has a truthy number, list-valued resources
      and practicals, and the str() of its "topics" list (or none when that is
      missing or not a list). */
  lemma ObjectWeekFields(members: seq<(string, Json)>, position: nat)
    ensures var r := ObjectWeek(members, position);
      (position > 0 ==> Truthy(r.week))
      && r.resources.JArray? && r.practicals.JArray?
      && (Get(members, "topics").Some? && Get(members, "topics").value.JArray? ==>
            r.topics == StrList(Get(members, "topics").value))
      && (!(Get(members, "topics").Some? && Get(members, "topics").value.JArray?) ==> r.topics == [])
  {
  }

  /** The loop over parsed["weeks"] from index i on: the weeks of its elements,
      or the AttributeError `w.get` raises on the first one that is not a dict. */
  function ObjectWeeksFrom(items: seq<Json>, i: nat): Result<seq<WeekPlan>, string>
    requires i <= |items|
    decreases |items| - i
  {
    if i == |items| then Success([])
    else if !items[i].JObject? then Failure(NoGetMessage(items[i]))
    else PrependWeeks([ObjectWeek(items[i].members, i + 1)], ObjectWeeksFrom(items, i + 1))
  }

  /** The weeks already appended, in front of whatever the rest of the loop gives. */
  function PrependWeeks(weeks: seq<WeekPlan>, r: Result<seq<WeekPlan>, string>): Result<seq<WeekPlan>, string>
  {
    match r
    case Success(rest) => Success(weeks + rest)
    case Failure(e) => Failure(e)
  }

  /** The weeks the object branch produces, or the error its loop raises. */
  function ObjectWeeksOf(items: seq<Json>): Result<seq<WeekPlan>, string>
  {
    ObjectWeeksFrom(items, 0)
  }

  /** From index i on: one week per element, in order, when every element is a
      dict; otherwise the AttributeError of the first element that is not. */
  lemma {:induction false} ObjectWeeksFromCases(items: seq<Json>, i: nat)
    requires i <= |items|
    ensures ObjectWeeksFrom(items, i).Success? <==> forall k | i <= k < |items| :: items[k].JObject?
    ensures ObjectWeeksFrom(items, i).Success? ==> |ObjectWeeksFrom(items, i).value| == |items| - i
    ensures ObjectWeeksFrom(items, i).Success? ==>
      forall k | 0 <= k < |items| - i :: ObjectWeeksFrom(items, i).value[k] == ObjectWeek(items[i + k].members, i + k + 1)
    ensures ObjectWeeksFrom(items, i).Failure? ==> exists k | i <= k < |items| ::
      !items[k].JObject? && ObjectWeeksFrom(items, i).error == NoGetMessage(items[k])
      && forall m | i <= m < k :: items[m].JObject?
    decreases |items| - i
  {
    if i < |items| && items[i].JObject? {
      ObjectWeeksFromCases(items, i + 1);
      var rest := ObjectWeeksFrom(items, i + 1);
      var r := ObjectWeeksFrom(items, i);
      if rest.Success? {
        assert r.value == [ObjectWeek(items[i].members, i + 1)] + rest.value;
        assert forall k | 1 <= k < |r.value| :: r.value[k] == rest.value[k - 1];
      } else {
        var k :| i + 1 <= k < |items| && !items[k].JObject? && rest.error == NoGetMessage(items[k])
          && forall m | i + 1 <= m < k :: items[m].JObject?;
        assert r.error == rest.error;
        assert forall m | i <= m < k :: items[m].JObject?;
      }
    }
  }

  /** One week per element, in order, when every element is a dict; otherwise the
      AttributeError of the first element that is not. */
  lemma ObjectWeeksOfCases(items: seq<Json>)
    ensures var r := ObjectWeeksOf(items);
      (r.Success? <==> forall k | 0 <= k < |items| :: items[k].JObject?)
      && (r.Success? ==> |r.value| == |items| && forall k | 0 <= k < |items| :: r.value[k] == ObjectWeek(items[k].members, k + 1))
      && (r.Failure? ==> exists k | 0 <= k < |items| ::
            (!items[k].JObject? && r.error == NoGetMessage(items[k]) && forall m | 0 <= m < k :: items[m].JObject?))
  {
    ObjectWeeksFromCases(items, 0);
    var r := ObjectWeeksFrom(items, 0);
    if r.Failure? {
      var k :| 0 <= k < |items| && !items[k].JObject? && r.error == NoGetMessage(items[k])
        && forall m | 0 <= m < k :: items[m].JObject?;
    }
  }

  /** Appending in two steps is appending the concatenation. */
  lemma PrependTwice(a: seq<WeekPlan>, b: seq<WeekPlan>, r: Result<seq<WeekPlan>, string>)
    ensures PrependWeeks(a, PrependWeeks(b, r)) == PrependWeeks(a + b, r)
  {
    if r.Success? {
      assert a + (b + r.value) == (a + b) + r.value;
    }
  }

  /** The loop over parsed["weeks"]: `w.get` raises on the first element that is not a dict. */
  method ObjectWeeks(items: seq<Json>) returns (r: Result<seq<WeekPlan>, string>)
    ensures r == ObjectWeeksOf(items)
  {
    var weeks: seq<WeekPlan> := [];
    var i := 0;
    var all := ObjectWeeksFrom(items, 0);
    assert PrependWeeks([], all) == all by {
      if all.Success? {
        assert [] + all.value == all.value;
      }
    }
    while i < |items|
      invariant 0 <= i <= |items|
      invariant PrependWeeks(weeks, ObjectWeeksFrom(items, i)) == ObjectWeeksOf(items)
    {
      var w := items[i];
      if !w.JObject? {
        return Failure(NoGetMessage(w));
      }
      var week := ObjectWeek(w.members, i + 1);
      PrependTwice(weeks, [week], ObjectWeeksFrom(items, i + 1));
      weeks := weeks + [week];
      i := i + 1;
    }
    assert weeks + [] == weeks;
    return Success(weeks);
  }

  /** A "week" of 0 is replaced by the element's 1-based position. */
  lemma ZeroWeekTakesPosition(items: seq<Json>, k: nat)
    requires forall j | 0 <= j < |items| :: items[j].JObject?
    requires k < |items| && Get(items[k].members, "week") == Some(JInt(0))
    ensures var r := ObjectWeeksOf(items); r.Success? && k < |r.value| && r.value[k].week == JInt(k + 1)
  {
    ObjectWeeksOfCases(items);
  }

  // ---------------------------------------------------------------------------
  // Array branch: [...]

  /** The record built from a dict at 0-based index of a top-level list. */
  function ArrayWeek(members: seq<(string, Json)>, index: nat): WeekPlan
  {
    WeekPlan(
      GetOr(members, "week", JInt(index + 1)),
      StrList(ListOr(Get(members, "topics"))),
      GetOr(members, "resources", JArray([])),
      GetOr(members, "practicals", JArray([])))
  }

  /** The weeks the array branch produces from index i on: dicts only, each
      keeping its original index. */
  function ArrayWeeksFrom(items: seq<Json>, i: nat): seq<WeekPlan>
    requires i <= |items|
    decreases |items| - i
  {
    if i == |items| then []
    else (if items[i].JObject? then [ArrayWeek(items[i].members, i)] else []) + ArrayWeeksFrom(items, i + 1)
  }

  function ArrayWeeksOf(items: seq<Json>): seq<WeekPlan>
  {
    ArrayWeeksFrom(items, 0)
  }

  /** The array branch yields no week exactly when no element is a dict, and never
      more weeks than elements. */
  lemma {:induction false} ArrayWeeksEmptyIff(items: seq<Json>, i: nat)
    requires i <= |items|
    ensures |ArrayWeeksFrom(items, i)| <= |items| - i
    ensures ArrayWeeksFrom(items, i) == [] <==> forall k | i <= k < |items| :: !items[k].JObject?
    decreases |items| - i
  {
    if i < |items| {
      ArrayWeeksEmptyIff(items, i + 1);
    }
  }

  /** When every element from i on is a dict: one week per element, in order,
      each built with its own 0-based index (so its "week" value, or index + 1
      when it has none). */
  lemma {:induction false} ArrayWeekNumbers(items: seq<Json>, i: nat)
    requires i <= |items|
    requires forall k | i <= k < |items| :: items[k].JObject?
    ensures |ArrayWeeksFrom(items, i)| == |items| - i
    ensures forall k | 0 <= k < |items| - i :: ArrayWeeksFrom(items, i)[k] == ArrayWeek(items[i + k].members, i + k)
    decreases |items| - i
  {
    if i < |items| {
      ArrayWeekNumbers(items, i + 1);
      var rest := ArrayWeeksFrom(items, i + 1);
      var r := [ArrayWeek(items[i].members, i)] + rest;
      assert ArrayWeeksFrom(items, i) == r;
      assert forall k | 1 <= k < |r| :: r[k] == rest[k - 1];
    }
  }

  /** `for idx, w in enumerate(parsed): if isinstance(w, dict): weeks.append(...)`. */
  method ArrayWeeks(items: seq<Json>) returns (weeks: seq<WeekPlan>)
    ensures weeks == ArrayWeeksOf(items)
  {
    weeks := [];
    var i := 0;
    while i < |items|
      invariant 0 <= i <= |items|
      invariant weeks + ArrayWeeksFrom(items, i) == ArrayWeeksOf(items)
    {
      var w := items[i];
      if w.JObject? {
        weeks := weeks + [ArrayWeek(w.members, i)];
      }
      i := i + 1;
    }
  }

  // ---------------------------------------------------------------------------
  // Fallback: re.split(r"(?:\n){1,}\s*Week\s*(\d+)\s*:\s*", raw_text, flags=re.IGNORECASE)

  /** "week" at offset w, under IGNORECASE: the Kelvin sign folds to 'k' as well. */
  predicate IsWeekWordAt(s: string, w: nat)
    requires w + 4 <= |s|
  {
    (s[w] == 'w' || s[w] == 'W') && (s[w + 1] == 'e' || s[w + 1] == 'E') && (s[w + 2] == 'e' || s[w + 2] == 'E')
    && (s[w + 3] == 'k' || s[w + 3] == 'K' || s[w + 3] == '\U{212a}')
  }

  /** The first index at or after i that is not a digit (or |s|). */
  function SkipDigits(s: string, i: nat): (r: nat)
    requires i <= |s|
    ensures i <= r <= |s|
    ensures r < |s| ==> !IsDigit(s[r])
    decreases |s| - i
  {
    if i < |s| && IsDigit(s[i]) then SkipDigits(s, i + 1) else i
  }

  /** Everything SkipDigits passes over is a digit. */
  lemma {:induction false} SkipDigitsRun(s: string, i: nat)
    requires i <= |s|
    ensures AllDigits(s[i..SkipDigits(s, i)])
    decreases |s| - i
  {
    if i < |s| && IsDigit(s[i]) {
      SkipDigitsRun(s, i + 1);
      var e := SkipDigits(s, i);
      assert s[i..e] == [s[i]] + s[i + 1..e];
    }
  }

  /** A match of the marker pattern: where its captured digits start and stop,
      and where the match ends. */
  datatype Marker = Marker(digitsFrom: nat, digitsTo: nat, end: nat)

  /** The match of the marker pattern that starts at p, if any. The pattern
      begins with a line break, and every run of whitespace is matched greedily. */
  function MarkerAt(s: string, p: nat): (r: Option<Marker>)
    requires p < |s|
    ensures r.Some? ==> s[p] == '\n'
    ensures r.Some? ==> p < r.value.digitsFrom < r.value.digitsTo < r.value.end <= |s|
    ensures r.Some? ==> r.value.end == |s| || !IsSpace(s[r.value.end])
  {
    if s[p] != '\n' then None
    else
      var w := SkipSpace(s, p + 1);
      if w + 4 <= |s| && IsWeekWordAt(s, w) then
        var d := SkipSpace(s, w + 4);
        var e := SkipDigits(s, d);
        var c := SkipSpace(s, e);
        if d < e && c < |s| && s[c] == ':' then Some(Marker(d, e, SkipSpace(s, c + 1)))
        else None
      else None
  }

  /** The digits a match captured. */
  function Digits(s: string, m: Marker): (r: string)
    requires m.digitsFrom < m.digitsTo <= |s|
    ensures |r| == m.digitsTo - m.digitsFrom
  {
    s[m.digitsFrom..m.digitsTo]
  }

  /** What a match captures is a non-empty run of digits. */
  lemma MarkerDigits(s: string, p: nat)
    requires p < |s| && MarkerAt(s, p).Some?
    ensures var d := Digits(s, MarkerAt(s, p).value); d != [] && AllDigits(d)
  {
    var w := SkipSpace(s, p + 1);
    var d := SkipSpace(s, w + 4);
    SkipDigitsRun(s, d);
  }

  /** The leftmost match at or after `from`. */
  function FindMarker(s: string, from: nat): (r: Option<nat>)
    requires from <= |s|
    ensures r.Some? ==> from <= r.value < |s| && MarkerAt(s, r.value).Some?
    decreases |s| - from
  {
    if from == |s| then None
    else if MarkerAt(s, from).Some? then Some(from)
    else FindMarker(s, from + 1)
  }

  /** The match found is the leftmost one, and none is found only when there is none. */
  lemma {:induction false} FindMarkerLeftmost(s: string, from: nat)
    requires from <= |s|
    ensures FindMarker(s, from).Some? ==> forall p | from <= p < FindMarker(s, from).value :: MarkerAt(s, p).None?
    ensures FindMarker(s, from).None? ==> forall p | from <= p < |s| :: MarkerAt(s, p).None?
    decreases |s| - from
  {
    if from < |s| {
      var here := MarkerAt(s, from);
      if here.None? {
        FindMarkerLeftmost(s, from + 1);
        var r := FindMarker(s, from + 1);
        assert FindMarker(s, from) == r;
        var stop := if r.Some? then r.value else |s|;
        forall p | from <= p < stop
          ensures MarkerAt(s, p).None?
        {
          if p == from {
            assert MarkerAt(s, p) == here;
          }
        }
      }
    }
  }

  /** The (digits, content) pairs from the match at p onwards: each content runs
      to the start of the next match, the last one to the end of the text. */
  function BlocksFrom(s: string, p: nat): (r: seq<(string, string)>)
    requires p < |s| && MarkerAt(s, p).Some?
    ensures |r| >= 1 && r[0].0 == Digits(s, MarkerAt(s, p).value)
    ensures forall k | 0 <= k < |r| :: r[k].0 != [] && AllDigits(r[k].0)
    decreases |s| - p
  {
    var m := MarkerAt(s, p).value;
    MarkerDigits(s, p);
    match FindMarker(s, m.end)
    case None => [(Digits(s, m), s[m.end..])]
    case Some(q) => [(Digits(s, m), s[m.end..q])] + BlocksFrom(s, q)
  }

  /** The pairs of re.split's result after its first element, which is discarded. */
  function MarkerBlocks(s: string): (r: seq<(string, string)>)
    ensures forall k | 0 <= k < |r| :: r[k].0 != [] && AllDigits(r[k].0)
  {
    match FindMarker(s, 0)
    case None => []
    case Some(p) => BlocksFrom(s, p)
  }

  /** re.split leaves nothing after its first element exactly when the pattern never matches. */
  lemma MarkerBlocksEmptyIff(s: string)
    ensures MarkerBlocks(s) == [] <==> forall p | 0 <= p < |s| :: MarkerAt(s, p).None?
  {
    FindMarkerLeftmost(s, 0);
  }

  /** A stripped text cannot hold a marker at offset 0: the pattern needs a line break there. */
  lemma NoMarkerAtStart(raw: string)
    requires Strip(raw) != []
    ensures MarkerAt(Strip(raw), 0).None?
  {
    StripEnds(raw);
  }

  /** `-`, `•` and space: the characters `ln.lstrip("-• ")` removes. */
  predicate IsBulletChar(c: char)
  {
    c == '-' || c == '\U{2022}' || c == ' '
  }

  function StripBullets(s: string): (r: string)
    ensures |r| <= |s| && r == s[|s| - |r|..]
    ensures forall k | 0 <= k < |s| - |r| :: IsBulletChar(s[k])
    ensures r == [] || !IsBulletChar(r[0])
  {
    if s != [] && IsBulletChar(s[0]) then StripBullets(s[1..]) else s
  }

  /** `ln.strip().startswith(("-", "•"))`. */
  predicate IsBulletLine(ln: string)
  {
    var t := Strip(ln); t != [] && (t[0] == '-' || t[0] == '\U{2022}')
  }

  /** The bullet lines from index i on, bullets and whitespace trimmed. */
  function BulletTopicsFrom(lines: seq<string>, i: nat): (r: seq<string>)
    requires i <= |lines|
    ensures |r| <= |lines| - i
    decreases |lines| - i
  {
    if i == |lines| then []
    else (if IsBulletLine(lines[i]) then [Strip(StripBullets(lines[i]))] else []) + BulletTopicsFrom(lines, i + 1)
  }

  /** There are bullet topics exactly when some line is a bullet line. */
  lemma {:induction false} BulletTopicsEmptyIff(lines: seq<string>, i: nat)
    requires i <= |lines|
    ensures BulletTopicsFrom(lines, i) == [] <==> forall k | i <= k < |lines| :: !IsBulletLine(lines[k])
    decreases |lines| - i
  {
    if i < |lines| {
      BulletTopicsEmptyIff(lines, i + 1);
    }
  }

  /** The stripped non-blank lines from index i on. */
  function NonBlankFrom(lines: seq<string>, i: nat): (r: seq<string>)
    requires i <= |lines|
    ensures |r| <= |lines| - i
    decreases |lines| - i
  {
    if i == |lines| then []
    else
      var t := Strip(lines[i]);
      (if t != [] then [t] else []) + NonBlankFrom(lines, i + 1)
  }

  /** Nothing is kept exactly when every line is blank. */
  lemma {:induction false} NonBlankFromEmptyIff(lines: seq<string>, i: nat)
    requires i <= |lines|
    ensures NonBlankFrom(lines, i) == [] <==> forall k | i <= k < |lines| :: IsBlank(lines[k])
    decreases |lines| - i
  {
    if i < |lines| {
      NonBlankFromEmptyIff(lines, i + 1);
      StripEmptyIff(lines[i]);
    }
  }

  /** No kept line is empty. */
  lemma {:induction false} NonBlankFromNonEmpty(lines: seq<string>, i: nat)
    requires i <= |lines|
    ensures forall k | 0 <= k < |NonBlankFrom(lines, i)| :: NonBlankFrom(lines, i)[k] != []
    decreases |lines| - i
  {
    if i < |lines| {
      NonBlankFromNonEmpty(lines, i + 1);
      var t := Strip(lines[i]);
      var rest := NonBlankFrom(lines, i + 1);
      if t != [] {
        var r := [t] + rest;
        assert NonBlankFrom(lines, i) == r;
        forall k | 0 <= k < |r|
          ensures r[k] != []
        {
          if k > 0 {
            assert r[k] == rest[k - 1];
          }
        }
      } else {
        assert NonBlankFrom(lines, i) == rest;
      }
    }
  }

  /** A bullet line is not blank. */
  lemma BulletLinesAreNotBlank(lines: seq<string>)
    requires BulletTopicsFrom(lines, 0) != []
    ensures exists k | 0 <= k < |lines| :: !IsBlank(lines[k])
  {
    BulletTopicsEmptyIff(lines, 0);
    var k :| 0 <= k < |lines| && IsBulletLine(lines[k]);
    assert Strip(lines[k]) != [];
    StripEmptyIff(lines[k]);
  }

  /** The topics of a block's lines: the bullet lines, or else the first three non-blank lines. */
  function LineTopics(lines: seq<string>): seq<string>
  {
    var bullets := BulletTopicsFrom(lines, 0);
    if bullets != [] then bullets else PyTake(NonBlankFrom(lines, 0), 3)
  }

  function BlockTopics(content: string): seq<string>
  {
    LineTopics(SplitLines(content))
  }

  /** A block has no topic exactly when all its lines are blank; without bullet
      lines it has at most three topics, none of them empty. */
  lemma LineTopicsCases(lines: seq<string>)
    ensures var r := LineTopics(lines);
      (r == [] <==> forall k | 0 <= k < |lines| :: IsBlank(lines[k]))
      && (BulletTopicsFrom(lines, 0) == [] ==> |r| <= 3 && forall k | 0 <= k < |r| :: r[k] != [])
  {
    var r := LineTopics(lines);
    var bullets := BulletTopicsFrom(lines, 0);
    var nb := NonBlankFrom(lines, 0);
    NonBlankFromEmptyIff(lines, 0);
    NonBlankFromNonEmpty(lines, 0);
    if bullets != [] {
      assert r == bullets;
      BulletLinesAreNotBlank(lines);
    } else {
      var n := if 3 < |nb| then 3 else |nb|;
      assert r == nb[..n];
      assert r == [] <==> nb == [];
      forall k | 0 <= k < |r| ensures r[k] != [] {
        assert r[k] == nb[k];
      }
    }
  }

  /** The default of `sys.int_info.default_max_str_digits`: int() of a decimal
      string with more digits raises ValueError. */
  const MaxStrDigits: nat := 4300

  /** `num = int(weeknum)`, or `len(weeks) + 1` when int() raises, which it does
      only for a digit string over the length limit. */
  function WeekNumberOf(digits: string, position: nat): (r: Json)
    requires AllDigits(digits)
    ensures r.JInt? && r.i >= 0
    ensures |digits| <= MaxStrDigits ==> r.i == DigitsValue(digits)
    ensures |digits| > MaxStrDigits ==> r.i == position
  {
    if |digits| > MaxStrDigits then JInt(position) else JInt(DigitsValue(digits))
  }

  /** The record for one (digits, content) pair, given the topics of its
      content and the number of weeks before it plus one: resources and
      practicals empty. */
  function FallbackWeek(digits: string, topics: seq<string>, position: nat): WeekPlan
    requires AllDigits(digits)
  {
    WeekPlan(WeekNumberOf(digits, position), topics, JArray([]), JArray([]))
  }

  /** The weeks built from the (digits, content) pairs from index i on, one per
      pair; `topicsOf` reads the topics of a block's content (BlockTopics for
      the fallback itself). */
  function BlockWeeks(blocks: seq<(string, string)>, i: nat, topicsOf: string -> seq<string>): (r: seq<WeekPlan>)
    requires i <= |blocks| && forall k | 0 <= k < |blocks| :: AllDigits(blocks[k].0)
    decreases |blocks| - i
  {
    if i == |blocks| then []
    else [FallbackWeek(blocks[i].0, topicsOf(blocks[i].1), i + 1)] + BlockWeeks(blocks, i + 1, topicsOf)
  }

  /** One week per pair, in order. */
  lemma {:induction false} BlockWeeksElements(blocks: seq<(string, string)>, i: nat, topicsOf: string -> seq<string>)
    requires i <= |blocks| && forall k | 0 <= k < |blocks| :: AllDigits(blocks[k].0)
    ensures |BlockWeeks(blocks, i, topicsOf)| == |blocks| - i
    ensures forall k | 0 <= k < |blocks| - i ::
      BlockWeeks(blocks, i, topicsOf)[k] == FallbackWeek(blocks[i + k].0, topicsOf(blocks[i + k].1), i + k + 1)
    decreases |blocks| - i
  {
    if i < |blocks| {
      BlockWeeksElements(blocks, i + 1, topicsOf);
      var rest := BlockWeeks(blocks, i + 1, topicsOf);
      var r := [FallbackWeek(blocks[i].0, topicsOf(blocks[i].1), i + 1)] + rest;
      assert BlockWeeks(blocks, i, topicsOf) == r;
      forall k | 0 <= k < |r|
        ensures r[k] == FallbackWeek(blocks[i + k].0, topicsOf(blocks[i + k].1), i + k + 1)
      {
        if k > 0 {
          assert r[k] == rest[k - 1];
        }
      }
    }
  }

  /** The weeks the fallback produces. */
  function FallbackWeeksOf(raw: string): seq<WeekPlan>
  {
    BlockWeeks(MarkerBlocks(raw), 0, BlockTopics)
  }

  /** One week per marker match, numbered by the decimal value of its digits
      (or by its 1-based position when int() refuses that many digits), with
      the topics of its block and no resources and no practicals. */
  lemma FallbackWeeksNumbered(raw: string)
    ensures var r, blocks := FallbackWeeksOf(raw), MarkerBlocks(raw);
      |r| == |blocks|
      && (forall k | 0 <= k < |r| && |blocks[k].0| <= MaxStrDigits :: r[k].week == JInt(DigitsValue(blocks[k].0)))
      && (forall k | 0 <= k < |r| && |blocks[k].0| > MaxStrDigits :: r[k].week == JInt(k + 1))
      && (forall k | 0 <= k < |r| :: r[k].topics == BlockTopics(blocks[k].1))
      && (forall k | 0 <= k < |r| :: r[k].resources == JArray([]) && r[k].practicals == JArray([]))
  {
    var blocks := MarkerBlocks(raw);
    var r := FallbackWeeksOf(raw);
    BlockWeeksElements(blocks, 0, BlockTopics);
    forall k | 0 <= k < |r|
      ensures |blocks[k].0| <= MaxStrDigits ==> r[k].week == JInt(DigitsValue(blocks[k].0))
      ensures |blocks[k].0| > MaxStrDigits ==> r[k].week == JInt(k + 1)
      ensures r[k].topics == BlockTopics(blocks[k].1)
      ensures r[k].resources == JArray([]) && r[k].practicals == JArray([])
    {
      assert r[k] == FallbackWeek(blocks[k].0, BlockTopics(blocks[k].1), k + 1);
    }
  }

  /** The fallback finds no week exactly when the marker never matches. */
  lemma FallbackWeeksEmptyIff(raw: string)
    ensures FallbackWeeksOf(raw) == [] <==> forall p | 0 <= p < |raw| :: MarkerAt(raw, p).None?
  {
    MarkerBlocksEmptyIff(raw);
    BlockWeeksElements(MarkerBlocks(raw), 0, BlockTopics);
  }

  /** `for weeknum, content in zip(it, it): ... weeks.append(...)`. */
  method WeeksFromBlocks(blocks: seq<(string, string)>) returns (weeks: seq<WeekPlan>)
    requires forall k | 0 <= k < |blocks| :: AllDigits(blocks[k].0)
    ensures weeks == BlockWeeks(blocks, 0, BlockTopics)
  {
    weeks := [];
    var i := 0;
    while i < |blocks|
      invariant 0 <= i <= |blocks| && |weeks| == i
      invariant weeks + BlockWeeks(blocks, i, BlockTopics) == BlockWeeks(blocks, 0, BlockTopics)
    {
      var week := FallbackWeek(blocks[i].0, BlockTopics(blocks[i].1), |weeks| + 1);
      assert BlockWeeks(blocks, i, BlockTopics) == [week] + BlockWeeks(blocks, i + 1, BlockTopics);
      assert weeks + [week] + BlockWeeks(blocks, i + 1, BlockTopics)
          == weeks + ([week] + BlockWeeks(blocks, i + 1, BlockTopics));
      weeks := weeks + [week];
      i := i + 1;
    }
  }

  /** The fallback: split the text on its markers, then one week per pair. */
  method FallbackWeeks(raw: string) returns (weeks: seq<WeekPlan>)
    ensures weeks == FallbackWeeksOf(raw)
  {
    var blocks := MarkerBlocks(raw);
    weeks := WeeksFromBlocks(blocks);
  }

  // ---------------------------------------------------------------------------
  // The whole normalisation, and the pipeline around it

  /** The weeks read from an object: its "weeks" list, or nothing when it has none. */
  function PlanFromObject(members: seq<(string, Json)>, rawText: string): LearningPlan
  {
    match Get(members, "weeks")
    case Some(JArray(items)) =>
      (match ObjectWeeksOf(items)
       case Failure(e) => ErrorPlan(e)
       case Success(ws) => LearningPlan(ws, rawText))
    case _ => LearningPlan([], rawText)
  }

  /** The weeks read from a value that parsed and is truthy. */
  function PlanFromJson(j: Json, rawText: string): LearningPlan
  {
    match j
    case JObject(members) => PlanFromObject(members, rawText)
    case JArray(items) => LearningPlan(ArrayWeeksOf(items), rawText)
    case _ => LearningPlan([], rawText)
  }

  /** The plan built from the result of parsing the stripped reply (lines 146-185
      and, for a raised AttributeError, the error record). */
  function PlanFromParsed(parsed: Option<Json>, rawText: string): LearningPlan
  {
    if parsed.Some? && Truthy(parsed.value) then PlanFromJson(parsed.value, rawText)
    else LearningPlan(FallbackWeeksOf(rawText), rawText)
  }

  /** The plan built from the stripped reply. */
  function PlanOf(rawText: string, loads: string -> Option<Json>): LearningPlan
  {
    PlanFromParsed(TryParseJson(rawText, loads), rawText)
  }

  method BuildPlan(rawText: string, loads: string -> Option<Json>) returns (plan: LearningPlan)
    ensures plan == PlanOf(rawText, loads)
  {
    var parsed := TryParseJson(rawText, loads);
    if parsed.Some? && Truthy(parsed.value) {
      var j := parsed.value;
      var weeks := Get(Members(j), "weeks");
      if j.JObject? && weeks.Some? && weeks.value.JArray? {
        var r := ObjectWeeks(weeks.value.items);
        match r {
          case Failure(e) => plan := ErrorPlan(e);
          case Success(ws) => plan := LearningPlan(ws, rawText);
        }
      } else if j.JArray? {
        var ws := ArrayWeeks(j.items);
        plan := LearningPlan(ws, rawText);
      } else {
        plan := LearningPlan([], rawText);
      }
    } else {
      var ws := FallbackWeeks(rawText);
      plan := LearningPlan(ws, rawText);
    }
  }

  /** An empty object, an empty array or no parse at all: the fallback decides. */
  lemma EmptyParseFallsBack(parsed: Option<Json>, rawText: string)
    requires parsed == None || parsed == Some(JObject([])) || parsed == Some(JArray([]))
    ensures PlanFromParsed(parsed, rawText) == LearningPlan(FallbackWeeksOf(rawText), rawText)
  {
  }

  /** A "weeks" element that is not a dict turns the whole result into the error
      record, whose message names the type of the first such element. */
  lemma NonObjectWeekIsError(members: seq<(string, Json)>, items: seq<Json>, k: nat, rawText: string)
    requires Get(members, "weeks") == Some(JArray(items))
    requires k < |items| && !items[k].JObject?
    ensures exists m | 0 <= m <= k ::
      (!items[m].JObject? && PlanFromParsed(Some(JObject(members)), rawText) == ErrorPlan(NoGetMessage(items[m])))
  {
    assert members != [];
    ObjectWeeksOfCases(items);
    var e := ObjectWeeksOf(items);
    var m :| 0 <= m < |items| && !items[m].JObject? && e.error == NoGetMessage(items[m])
      && forall j | 0 <= j < m :: items[j].JObject?;
    assert m <= k;
    assert PlanFromObject(members, rawText) == ErrorPlan(NoGetMessage(items[m]));
    assert PlanFromParsed(Some(JObject(members)), rawText) == PlanFromObject(members, rawText);
  }

  /** Each element of an object-shaped reply gives one week, in order. */
  lemma ObjectReplyWeeks(members: seq<(string, Json)>, items: seq<Json>, rawText: string)
    requires Get(members, "weeks") == Some(JArray(items))
    requires forall k | 0 <= k < |items| :: items[k].JObject?
    ensures var plan := PlanFromParsed(Some(JObject(members)), rawText);
      plan.rawText == rawText && |plan.weeks| == |items|
      && forall k | 0 <= k < |items| :: plan.weeks[k] == ObjectWeek(items[k].members, k + 1)
  {
    assert Truthy(JObject(members));
    assert PlanFromParsed(Some(JObject(members)), rawText) == PlanFromObject(members, rawText);
    ObjectWeeksFromCases(items, 0);
  }

  /** A non-empty list without dicts yields no week (and does not fall back). */
  lemma ListWithoutObjectsHasNoWeeks(items: seq<Json>, rawText: string)
    requires items != [] && forall k | 0 <= k < |items| :: !items[k].JObject?
    ensures PlanFromParsed(Some(JArray(items)), rawText) == LearningPlan([], rawText)
  {
    ArrayWeeksEmptyIff(items, 0);
    assert ArrayWeeksOf(items) == [];
    assert Truthy(JArray(items));
    assert PlanFromJson(JArray(items), rawText) == LearningPlan(ArrayWeeksOf(items), rawText);
  }

  /** With a parser that follows RFC 8259, a non-empty top-level array never yields
      a week (an empty one is falsy and goes to the fallback). */
  lemma ArrayReplyHasNoWeeks(rawText: string, loads: string -> Option<Json>)
    requires RejectsOpenerAfterBrace(loads) && BraceTextIsObject(loads) && ObjectsNeedBraces(loads)
    requires TryParseJson(rawText, loads).Some? && TryParseJson(rawText, loads).value.JArray?
    requires TryParseJson(rawText, loads).value.items != []
    ensures PlanOf(rawText, loads) == LearningPlan([], rawText)
  {
    var items := TryParseJson(rawText, loads).value.items;
    ArrayResultHasNoObjects(rawText, loads);
    ListWithoutObjectsHasNoWeeks(items, rawText);
  }

  /** Without a line break and without brackets there is nothing to parse and no marker. */
  lemma SingleLineProseHasNoWeeks(rawText: string, loads: string -> Option<Json>)
    requires '\n' !in rawText && '{' !in rawText && '[' !in rawText
    ensures PlanOf(rawText, loads) == LearningPlan([], rawText)
  {
    assert Candidate(rawText).None?;
    MarkerBlocksEmptyIff(rawText);
    assert MarkerBlocks(rawText) == [];
    assert FallbackWeeksOf(rawText) == [];
    assert PlanOf(rawText, loads) == PlanFromParsed(None, rawText);
  }

  /** The plan carries the text it was built from; only the error record, which
      has no week, carries the error message instead. */
  lemma PlanKeepsRawText(rawText: string, loads: string -> Option<Json>)
    ensures var plan := PlanOf(rawText, loads);
      plan.rawText == rawText || (plan.weeks == [] && |plan.rawText| >= 23 && plan.rawText[..23] == "Error generating plan: ")
  {
    var parsed := TryParseJson(rawText, loads);
    if parsed.Some? && Truthy(parsed.value) && parsed.value.JObject? {
      assert PlanOf(rawText, loads) == PlanFromObject(parsed.value.members, rawText);
    }
  }

  /** An empty reply parses to nothing and holds no marker. */
  lemma EmptyReplyHasNoWeeks(loads: string -> Option<Json>)
    ensures PlanOf("", loads) == LearningPlan([], "")
  {
    assert Candidate("").None?;
    assert MarkerBlocks("") == [];
  }
}
