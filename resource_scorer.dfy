/** The keyword-overlap retrieval that picks catalog resources for the
    learning-path prompt, and the prompt lines it turns them into. */
module ResourceScorer {
  import opened Text

  datatype Resource = Resource(topic: string, tags: seq<string>, desc: string, link: string)

  // ---------------------------------------------------------------------------
  // Tokens: re.findall(r"[a-zA-Z0-9]+", text)

  /** Length of the leading run of [a-zA-Z0-9]. */
  function AlnumPrefix(s: string): (n: nat)
    ensures n <= |s|
    ensures forall k | 0 <= k < n :: IsAsciiAlnum(s[k])
    ensures n < |s| ==> !IsAsciiAlnum(s[n])
  {
    if s == [] || !IsAsciiAlnum(s[0]) then 0 else 1 + AlnumPrefix(s[1..])
  }

  /** The maximal [a-zA-Z0-9] runs of s, left to right. */
  function Runs(s: string): (runs: seq<string>)
    ensures forall k | 0 <= k < |runs| :: runs[k] != []
    ensures forall k, m | 0 <= k < |runs| && 0 <= m < |runs[k]| :: IsAsciiAlnum(runs[k][m])
    decreases |s|
  {
    if s == [] then []
    else if !IsAsciiAlnum(s[0]) then Runs(s[1..])
    else
      var n := AlnumPrefix(s);
      [s[..n]] + Runs(s[n..])
  }

  /** The characters of s that the pattern can match, in order. */
  function AlnumChars(s: string): string
  {
    if s == [] then [] else (if IsAsciiAlnum(s[0]) then [s[0]] else []) + AlnumChars(s[1..])
  }

  function Concat(runs: seq<string>): string
  {
    if runs == [] then [] else runs[0] + Concat(runs[1..])
  }

  /** The runs lose no matchable character and invent none: joined, they are
      exactly the alphanumeric characters of s. */
  lemma {:induction false} RunsCoverAlnum(s: string)
    ensures Concat(Runs(s)) == AlnumChars(s)
    decreases |s|
  {
    if s == [] {
    } else if !IsAsciiAlnum(s[0]) {
      RunsCoverAlnum(s[1..]);
    } else {
      var n := AlnumPrefix(s);
      RunsCoverAlnum(s[n..]);
      AlnumCharsOfRun(s, n);
      assert Runs(s) == [s[..n]] + Runs(s[n..]);
      assert Concat(Runs(s)) == s[..n] + Concat(Runs(s[n..]));
    }
  }

  /** A leading run of n alphanumerics contributes itself. */
  lemma {:induction false} AlnumCharsOfRun(s: string, n: nat)
    requires n <= |s|
    requires forall k | 0 <= k < n :: IsAsciiAlnum(s[k])
    ensures AlnumChars(s) == s[..n] + AlnumChars(s[n..])
    decreases n
  {
    if n > 0 {
      AlnumCharsOfRun(s[1..], n - 1);
      assert s[1..][n - 1..] == s[n..];
      assert s[..n] == [s[0]] + s[1..][..n - 1];
    }
  }

  function Tokens(text: string): (tokens: set<string>)
    ensures forall t | t in tokens :: t != [] && forall m | 0 <= m < |t| :: IsAsciiAlnum(t[m])
  {
    var runs := Runs(text);
    set k | 0 <= k < |runs| :: runs[k]
  }

  /** The token set of `f"{goal} {background or ''}".lower()`. */
  function QueryTokens(goal: string, background: Option<string>): set<string>
  {
    Tokens(Lower(goal + " " + (if background.Some? then background.value else "")))
  }

  /** A tag with a character outside [a-zA-Z0-9] (such as "scikit-learn") is,
      lowered, never a token, so it never counts as a hit. */
  lemma NonAlnumTagNeverMatches(tag: string, text: string, m: nat)
    requires m < |tag| && !IsAsciiAlnum(tag[m])
    ensures Lower(tag) !in Tokens(text)
    ensures TagHits([tag], Tokens(text)) == 0
  {
    assert Lower(tag)[m] == LowerChar(tag[m]);
    assert [tag][..0] == [];
  }

  /** t occurs at p of s as a maximal run of [a-zA-Z0-9]: non-empty,
      alphanumeric, with no alphanumeric character right before or after it. */
  predicate MaximalRunAt(s: string, p: nat, t: string)
  {
    t != [] && p + |t| <= |s| && s[p..p + |t|] == t
    && (forall m | 0 <= m < |t| :: IsAsciiAlnum(t[m]))
    && (p == 0 || !IsAsciiAlnum(s[p - 1]))
    && (p + |t| == |s| || !IsAsciiAlnum(s[p + |t|]))
  }

  /** A maximal run of a suffix of s is one of s itself, when nothing
      alphanumeric precedes it in s. */
  lemma MaximalRunShift(s: string, m: nat, p: nat, t: string)
    requires m <= |s| && MaximalRunAt(s[m..], p, t)
    requires p == 0 ==> m == 0 || !IsAsciiAlnum(s[m - 1])
    ensures MaximalRunAt(s, m + p, t)
  {
    assert s[m..][p..p + |t|] == s[m + p..m + p + |t|];
    if p > 0 {
      assert s[m..][p - 1] == s[m + p - 1];
    }
    if m + p + |t| < |s| {
      assert s[m..][p + |t|] == s[m + p + |t|];
    }
  }

  /** Every run found is maximal: re.findall never splits a run of [a-zA-Z0-9]. */
  lemma {:induction false} RunIsMaximal(s: string, k: nat)
    requires k < |Runs(s)|
    ensures exists p: nat :: MaximalRunAt(s, p, Runs(s)[k])
    decreases |s|
  {
    if !IsAsciiAlnum(s[0]) {
      assert Runs(s) == Runs(s[1..]);
      RunIsMaximal(s[1..], k);
      var t := Runs(s[1..])[k];
      var p: nat :| MaximalRunAt(s[1..], p, t);
      MaximalRunShift(s, 1, p, t);
    } else {
      var n := AlnumPrefix(s);
      var rest := Runs(s[n..]);
      assert Runs(s) == [s[..n]] + rest;
      if k == 0 {
        assert MaximalRunAt(s, 0, s[..n]);
      } else {
        RunIsMaximal(s[n..], k - 1);
        var t := rest[k - 1];
        var p: nat :| MaximalRunAt(s[n..], p, t);
        assert t[0] == s[n..][p];
        MaximalRunShift(s, n, p, t);
        assert Runs(s)[k] == t;
      }
    }
  }

  /** Every maximal run of the text is found. */
  lemma {:induction false} MaximalRunIsRun(s: string, p: nat, t: string)
    requires MaximalRunAt(s, p, t)
    ensures t in Runs(s)
    decreases |s|
  {
    assert s[p] == t[0];
    if !IsAsciiAlnum(s[0]) {
      assert s[1..][p - 1..p - 1 + |t|] == s[p..p + |t|];
      if p > 1 {
        assert s[1..][p - 2] == s[p - 1];
      }
      if p + |t| < |s| {
        assert s[1..][p - 1 + |t|] == s[p + |t|];
      }
      MaximalRunIsRun(s[1..], p - 1, t);
    } else {
      var n := AlnumPrefix(s);
      assert Runs(s) == [s[..n]] + Runs(s[n..]);
      if p == 0 {
        assert t == s[..n];
      } else {
        assert p > n;
        var q := p - n;
        assert s[n..][q..q + |t|] == s[p..p + |t|];
        assert s[n..][q - 1] == s[p - 1];
        if p + |t| < |s| {
          assert s[n..][q + |t|] == s[p + |t|];
        }
        MaximalRunIsRun(s[n..], q, t);
      }
    }
  }

  /** The tokens of a text are exactly its maximal [a-zA-Z0-9] runs. */
  lemma TokensAreMaximalRuns(text: string, t: string)
    ensures t in Tokens(text) <==> exists p: nat :: MaximalRunAt(text, p, t)
  {
    var runs := Runs(text);
    if t in Tokens(text) {
      var k :| 0 <= k < |runs| && runs[k] == t;
      RunIsMaximal(text, k);
    }
    if exists p: nat :: MaximalRunAt(text, p, t) {
      var p: nat :| MaximalRunAt(text, p, t);
      MaximalRunIsRun(text, p, t);
    }
  }

  /** Empty goal and background give no tokens at all. */
  lemma {:induction false} BlankQueryHasNoTokens(goal: string)
    requires forall k | 0 <= k < |goal| :: !IsAsciiAlnum(goal[k])
    ensures QueryTokens(goal, None) == {}
  {
    var text := Lower(goal + " ");
    assert goal + " " + "" == goal + " ";
    forall k | 0 <= k < |text| ensures !IsAsciiAlnum(text[k]) {
      assert text[k] == LowerChar((goal + " ")[k]);
    }
    NoAlnumNoRuns(text);
    assert Tokens(text) == {};
  }

  lemma {:induction false} NoAlnumNoRuns(s: string)
    requires forall k | 0 <= k < |s| :: !IsAsciiAlnum(s[k])
    ensures Runs(s) == []
    decreases |s|
  {
    if s != [] {
      NoAlnumNoRuns(s[1..]);
    }
  }

  // ---------------------------------------------------------------------------
  // Score

  /** How many tags, lowered, are tokens (counted over the tag list). */
  function TagHits(tags: seq<string>, tokens: set<string>): (n: nat)
    ensures n <= |tags|
  {
    if tags == [] then 0
    else TagHits(tags[..|tags| - 1], tokens) + (if Lower(tags[|tags| - 1]) in tokens then 1 else 0)
  }

  /** `any(tok in text for tok in tokens)`. */
  predicate AnyTokenIn(tokens: set<string>, text: string)
  {
    exists tok | tok in tokens :: IsInfix(tok, text)
  }

  /** 2 per matching tag, +1 when a token occurs in the topic, +1 when one occurs in the description. */
  function Score(item: Resource, tokens: set<string>): (score: nat)
    ensures score <= 2 * |item.tags| + 2
    ensures tokens == {} ==> score == 2 * TagHits(item.tags, tokens)
  {
    2 * TagHits(item.tags, tokens)
    + (if AnyTokenIn(tokens, Lower(item.topic)) then 1 else 0)
    + (if AnyTokenIn(tokens, Lower(item.desc)) then 1 else 0)
  }

  lemma {:induction false} NoTokensNoHits(tags: seq<string>)
    ensures TagHits(tags, {}) == 0
    decreases |tags|
  {
    if tags != [] {
      NoTokensNoHits(tags[..|tags| - 1]);
    }
  }

  datatype Scored = Scored(score: nat, item: Resource)

  /** The (score, item) list in catalog order, before sorting. */
  function ScoreAll(catalog: seq<Resource>, tokens: set<string>): (scored: seq<Scored>)
    ensures |scored| == |catalog|
    ensures forall k | 0 <= k < |catalog| :: scored[k] == Scored(Score(catalog[k], tokens), catalog[k])
  {
    seq(|catalog|, k requires 0 <= k < |catalog| => Scored(Score(catalog[k], tokens), catalog[k]))
  }

  function Items(xs: seq<Scored>): (r: seq<Resource>)
    ensures |r| == |xs| && forall k | 0 <= k < |xs| :: r[k] == xs[k].item
  {
    if xs == [] then [] else [xs[0].item] + Items(xs[1..])
  }

  // ---------------------------------------------------------------------------
  // Stable sort by descending score: scored.sort(key=lambda x: x[0], reverse=True)

  /** Inserts x, which came before every element of ys, ahead of the first element
      whose score does not exceed its own. */
  function Insert(x: Scored, ys: seq<Scored>): seq<Scored>
  {
    if ys == [] || ys[0].score <= x.score then [x] + ys else [ys[0]] + Insert(x, ys[1..])
  }

  function SortDesc(xs: seq<Scored>): seq<Scored>
  {
    if xs == [] then [] else Insert(xs[0], SortDesc(xs[1..]))
  }

  predicate NonIncreasing(xs: seq<Scored>)
  {
    forall i, j | 0 <= i < j < |xs| :: xs[i].score >= xs[j].score
  }

  /** The elements with score s, in their order. */
  function WithScore(xs: seq<Scored>, s: nat): seq<Scored>
  {
    if xs == [] then [] else (if xs[0].score == s then [xs[0]] else []) + WithScore(xs[1..], s)
  }

  /** The elements with a positive score, in their order (`if s > 0`). */
  function Positive(xs: seq<Scored>): seq<Scored>
  {
    if xs == [] then [] else (if xs[0].score > 0 then [xs[0]] else []) + Positive(xs[1..])
  }

  lemma {:induction false} InsertPermutes(x: Scored, ys: seq<Scored>)
    ensures multiset(Insert(x, ys)) == multiset([x] + ys)
    decreases |ys|
  {
    if !(ys == [] || ys[0].score <= x.score) {
      InsertPermutes(x, ys[1..]);
      assert ys == [ys[0]] + ys[1..];
    }
  }

  /** Sorting only reorders. */
  lemma {:induction false} SortDescPermutes(xs: seq<Scored>)
    ensures multiset(SortDesc(xs)) == multiset(xs)
    decreases |xs|
  {
    if xs != [] {
      SortDescPermutes(xs[1..]);
      InsertPermutes(xs[0], SortDesc(xs[1..]));
      assert xs == [xs[0]] + xs[1..];
    }
  }

  lemma {:induction false} InsertKeepsOrder(x: Scored, ys: seq<Scored>)
    requires NonIncreasing(ys)
    ensures NonIncreasing(Insert(x, ys))
    decreases |ys|
  {
    if !(ys == [] || ys[0].score <= x.score) {
      var rest := Insert(x, ys[1..]);
      InsertKeepsOrder(x, ys[1..]);
      InsertPermutes(x, ys[1..]);
      forall j | 0 <= j < |rest| ensures rest[j].score <= ys[0].score {
        assert rest[j] in multiset(rest);
        assert rest[j] in multiset([x] + ys[1..]);
        if rest[j] != x {
          assert rest[j] in ys[1..];
        }
      }
    }
  }

  /** Sorting yields non-increasing scores. */
  lemma {:induction false} SortDescOrders(xs: seq<Scored>)
    ensures NonIncreasing(SortDesc(xs))
    decreases |xs|
  {
    if xs != [] {
      SortDescOrders(xs[1..]);
      InsertKeepsOrder(xs[0], SortDesc(xs[1..]));
    }
  }

  lemma {:induction false} InsertStable(x: Scored, ys: seq<Scored>, s: nat)
    requires NonIncreasing(ys)
    ensures WithScore(Insert(x, ys), s) == WithScore([x] + ys, s)
    decreases |ys|
  {
    if ys == [] || ys[0].score <= x.score {
    } else {
      InsertStable(x, ys[1..], s);
      assert ([x] + ys)[1..] == ys;
      assert ([x] + ys[1..])[1..] == ys[1..];
      if x.score == s {
        // every element ahead of x scores above s, so x stays first among the s's
        assert ys[0].score > s;
      }
    }
  }

  /** Sorting is stable: the elements of each score keep their relative order. */
  lemma {:induction false} SortDescStable(xs: seq<Scored>, s: nat)
    ensures WithScore(SortDesc(xs), s) == WithScore(xs, s)
    decreases |xs|
  {
    if xs != [] {
      SortDescStable(xs[1..], s);
      SortDescOrders(xs[1..]);
      InsertStable(xs[0], SortDesc(xs[1..]), s);
      assert ([xs[0]] + SortDesc(xs[1..]))[1..] == SortDesc(xs[1..]);
    }
  }

  /** An already ordered list is left as it is. */
  lemma {:induction false} SortDescOfOrdered(xs: seq<Scored>)
    requires NonIncreasing(xs)
    ensures SortDesc(xs) == xs
    decreases |xs|
  {
    if xs != [] {
      SortDescOfOrdered(xs[1..]);
      assert xs == [xs[0]] + xs[1..];
    }
  }

  lemma {:induction false} PositiveInsert(x: Scored, ys: seq<Scored>)
    requires NonIncreasing(ys)
    ensures Positive(Insert(x, ys)) == if x.score > 0 then Insert(x, Positive(ys)) else Positive(ys)
    decreases |ys|
  {
    if ys == [] {
    } else if ys[0].score <= x.score {
      if x.score == 0 {
        assert Positive([x] + ys) == Positive(ys) by { assert ([x] + ys)[1..] == ys; }
      } else {
        assert ([x] + ys)[1..] == ys;
        PositiveOfLowHead(ys, x.score);
      }
    } else {
      PositiveInsert(x, ys[1..]);
      assert ([ys[0]] + Insert(x, ys[1..]))[1..] == Insert(x, ys[1..]);
      assert ys[0].score > 0;
      assert Positive(ys) == [ys[0]] + Positive(ys[1..]);
    }
  }

  /** When the head of an ordered list scores at most h (h > 0), so does the head of its positive part. */
  lemma PositiveOfLowHead(ys: seq<Scored>, h: nat)
    requires NonIncreasing(ys) && ys != [] && ys[0].score <= h && h > 0
    ensures Positive(ys) == [] || Positive(ys)[0].score <= h
  {
    PositiveMembers(ys);
    if Positive(ys) != [] {
      assert Positive(ys)[0] in multiset(ys);
      var k :| 0 <= k < |ys| && ys[k] == Positive(ys)[0];
    }
  }

  lemma {:induction false} PositiveMembers(xs: seq<Scored>)
    ensures multiset(Positive(xs)) <= multiset(xs)
    ensures forall k | 0 <= k < |Positive(xs)| :: Positive(xs)[k].score > 0
    decreases |xs|
  {
    if xs != [] {
      PositiveMembers(xs[1..]);
      assert xs == [xs[0]] + xs[1..];
    }
  }

  lemma {:induction false} PositiveKeepsOrder(xs: seq<Scored>)
    requires NonIncreasing(xs)
    ensures NonIncreasing(Positive(xs))
    decreases |xs|
  {
    if xs != [] {
      var tail := xs[1..];
      PositiveKeepsOrder(tail);
      if xs[0].score > 0 {
        var rest := Positive(tail);
        assert forall k | 0 <= k < |tail| :: tail[k] == xs[k + 1];
        PositiveBelow(tail, xs[0].score);
        var p := [xs[0]] + rest;
        assert Positive(xs) == p;
        forall i, j | 0 <= i < j < |p|
          ensures p[i].score >= p[j].score
        {
          assert p[j] == rest[j - 1];
          if i > 0 {
            assert p[i] == rest[i - 1];
          }
        }
      }
    }
  }

  /** A bound on every score is a bound on every positive score. */
  lemma {:induction false} PositiveBelow(xs: seq<Scored>, h: nat)
    requires forall k | 0 <= k < |xs| :: xs[k].score <= h
    ensures forall k | 0 <= k < |Positive(xs)| :: Positive(xs)[k].score <= h
    decreases |xs|
  {
    if xs != [] {
      var tail := xs[1..];
      assert forall k | 0 <= k < |tail| :: tail[k] == xs[k + 1];
      PositiveBelow(tail, h);
      if xs[0].score > 0 {
        var p := [xs[0]] + Positive(tail);
        assert Positive(xs) == p;
        assert forall k | 1 <= k < |p| :: p[k] == Positive(tail)[k - 1];
      }
    }
  }

  /** Dropping the zero scores commutes with the sort. */
  lemma {:induction false} PositiveSortCommutes(xs: seq<Scored>)
    ensures Positive(SortDesc(xs)) == SortDesc(Positive(xs))
    decreases |xs|
  {
    if xs != [] {
      PositiveSortCommutes(xs[1..]);
      SortDescOrders(xs[1..]);
      PositiveInsert(xs[0], SortDesc(xs[1..]));
      var p := Positive(xs);
      if xs[0].score > 0 {
        assert p == [xs[0]] + Positive(xs[1..]);
        assert p[1..] == Positive(xs[1..]);
      } else {
        assert p == Positive(xs[1..]);
      }
    }
  }

  // ---------------------------------------------------------------------------
  // The ranked selection

  /** `_retrieve_resources(goal, background, top_k)` as a value. */
  function Ranked(catalog: seq<Resource>, goal: string, background: Option<string>, topK: int): (r: seq<Resource>)
    ensures topK >= 0 ==> |r| <= topK
  {
    Select(SortDesc(ScoreAll(catalog, QueryTokens(goal, background))), topK)
  }

  /** What happens after the sort: keep the positive scores, fall back to the
      sorted head when there are none, cut to top_k. */
  function Select(sorted: seq<Scored>, topK: int): (r: seq<Resource>)
    ensures topK >= 0 ==> |r| <= topK
  {
    var selected := Items(Positive(sorted));
    PyTake(if selected == [] then Items(PyTake(sorted, topK)) else selected, topK)
  }

  /** When some entry scores above 0: the positive-scoring entries, stable-sorted by
      descending score, then cut to top_k (SortDesc's order, permutation and stability
      lemmas say what that list is). */
  lemma RankedWhenSomethingMatches(catalog: seq<Resource>, goal: string, background: Option<string>, topK: int)
    requires Positive(ScoreAll(catalog, QueryTokens(goal, background))) != []
    ensures Ranked(catalog, goal, background, topK)
      == PyTake(Items(SortDesc(Positive(ScoreAll(catalog, QueryTokens(goal, background))))), topK)
  {
    var scored := ScoreAll(catalog, QueryTokens(goal, background));
    PositiveSortCommutes(scored);
    SortDescPermutes(Positive(scored));
    assert Positive(SortDesc(scored)) != [];
  }

  /** When nothing scores above 0: the first min(top_k, 12) catalog entries, in catalog order. */
  lemma RankedWhenNothingMatches(catalog: seq<Resource>, goal: string, background: Option<string>, topK: nat)
    requires Positive(ScoreAll(catalog, QueryTokens(goal, background))) == []
    ensures Ranked(catalog, goal, background, topK) == catalog[..if topK < |catalog| then topK else |catalog|]
  {
    var scored := ScoreAll(catalog, QueryTokens(goal, background));
    AllZeroWhenNonePositive(scored);
    SortDescOfOrdered(scored);
    assert Ranked(catalog, goal, background, topK) == Select(scored, topK);
    SelectWhenNonePositive(scored, catalog, topK);
  }

  lemma SelectWhenNonePositive(scored: seq<Scored>, catalog: seq<Resource>, topK: nat)
    requires Positive(scored) == [] && Items(scored) == catalog
    ensures Select(scored, topK) == catalog[..if topK < |catalog| then topK else |catalog|]
  {
    var n := if topK < |catalog| then topK else |catalog|;
    assert Items(scored[..n]) == catalog[..n];
  }

  lemma {:induction false} AllZeroWhenNonePositive(xs: seq<Scored>)
    requires Positive(xs) == []
    ensures NonIncreasing(xs)
    ensures forall k | 0 <= k < |xs| :: xs[k].score == 0
    decreases |xs|
  {
    if xs != [] {
      AllZeroWhenNonePositive(xs[1..]);
      assert forall k | 1 <= k < |xs| :: xs[k] == xs[1..][k - 1];
    }
  }

  /** An empty goal with no background falls back to the catalog head. */
  lemma EmptyQueryFallsBack(catalog: seq<Resource>, topK: nat)
    ensures Ranked(catalog, "", None, topK) == catalog[..if topK < |catalog| then topK else |catalog|]
  {
    BlankQueryHasNoTokens("");
    var scored := ScoreAll(catalog, {});
    forall k | 0 <= k < |scored| ensures scored[k].score == 0 {
      NoTokensNoHits(catalog[k].tags);
    }
    NoPositiveWhenAllZero(scored);
    RankedWhenNothingMatches(catalog, "", None, topK);
  }

  lemma {:induction false} NoPositiveWhenAllZero(xs: seq<Scored>)
    requires forall k | 0 <= k < |xs| :: xs[k].score == 0
    ensures Positive(xs) == []
    decreases |xs|
  {
    if xs != [] {
      NoPositiveWhenAllZero(xs[1..]);
    }
  }

  /** _retrieve_resources: score every catalog entry, sort, filter and cut. */
  method RetrieveResources(catalog: seq<Resource>, goal: string, background: Option<string>, topK: int) returns (selected: seq<Resource>)
    ensures selected == Ranked(catalog, goal, background, topK)
    ensures topK >= 0 ==> |selected| <= topK
  {
    var text := Lower(goal + " " + (if background.Some? then background.value else ""));
    var tokens := Tokens(text);
    var scored := ScoreEntries(catalog, tokens);
    scored := SortDesc(scored);
    selected := Items(Positive(scored));
    if selected == [] {
      selected := Items(PyTake(scored, topK));
    }
    selected := PyTake(selected, topK);
  }

  /** The loops of _retrieve_resources: each entry's score accumulates over its
      tags, then the topic and description tests; (score, entry) pairs are
      appended in catalog order. */
  method ScoreEntries(catalog: seq<Resource>, tokens: set<string>) returns (scored: seq<Scored>)
    ensures scored == ScoreAll(catalog, tokens)
  {
    scored := [];
    var i := 0;
    while i < |catalog|
      invariant 0 <= i <= |catalog|
      invariant scored == ScoreAll(catalog, tokens)[..i]
    {
      var item := catalog[i];
      var score := 0;
      var j := 0;
      while j < |item.tags|
        invariant 0 <= j <= |item.tags|
        invariant score == 2 * TagHits(item.tags[..j], tokens)
      {
        assert item.tags[..j + 1][..j] == item.tags[..j];
        if Lower(item.tags[j]) in tokens {
          score := score + 2;
        }
        j := j + 1;
      }
      assert item.tags[..j] == item.tags;
      if AnyTokenIn(tokens, Lower(item.topic)) {
        score := score + 1;
      }
      if AnyTokenIn(tokens, Lower(item.desc)) {
        score := score + 1;
      }
      scored := scored + [Scored(score, item)];
      i := i + 1;
    }
  }

  // ---------------------------------------------------------------------------
  // Prompt lines: f"- {topic}: {desc}" + (f" ({link})" if link else "")

  function ResourceLine(r: Resource): (line: string)
    ensures |line| > 2 && line[..2] == "- "
    ensures SingleLine(r.topic) && SingleLine(r.desc) && SingleLine(r.link) ==> '\n' !in line
  {
    "- " + r.topic + ": " + r.desc + (if r.link != "" then " (" + r.link + ")" else "")
  }

  function ResourceLines(rs: seq<Resource>): (lines: seq<string>)
    ensures |lines| == |rs| && forall k | 0 <= k < |rs| :: lines[k] == ResourceLine(rs[k])
  {
    if rs == [] then [] else [ResourceLine(rs[0])] + ResourceLines(rs[1..])
  }

  /** "\n".join of the resource lines: the block put into the prompt. */
  function ResourcesBlock(rs: seq<Resource>): string
  {
    Join('\n', ResourceLines(rs))
  }

  /** The prompt block has exactly one line per resource, in order, when no field spans lines. */
  lemma BlockLinesAreResources(rs: seq<Resource>)
    requires rs != []
    requires forall k | 0 <= k < |rs| :: SingleLine(rs[k].topic) && SingleLine(rs[k].desc) && SingleLine(rs[k].link)
    ensures SplitOn(ResourcesBlock(rs), '\n') == ResourceLines(rs)
  {
    SplitJoin(ResourceLines(rs), '\n');
  }

  /** With top_k=10, as the learning-path call uses it, a non-empty catalog always
      puts at least one resource, taken from the catalog, into the prompt. */
  lemma PromptResourcesNonEmpty(catalog: seq<Resource>, goal: string, background: Option<string>)
    requires catalog != []
    ensures Ranked(catalog, goal, background, 10) != []
    ensures forall k | 0 <= k < |Ranked(catalog, goal, background, 10)| :: Ranked(catalog, goal, background, 10)[k] in catalog
  {
    var scored := ScoreAll(catalog, QueryTokens(goal, background));
    var sorted := SortDesc(scored);
    SortDescPermutes(scored);
    assert scored[0] in multiset(sorted);
    forall k | 0 <= k < |sorted| ensures sorted[k].item in catalog {
      assert sorted[k] in multiset(scored);
      var m :| 0 <= m < |scored| && scored[m] == sorted[k];
    }
    SelectFromSorted(sorted, 10);
  }

  lemma SelectFromSorted(sorted: seq<Scored>, topK: nat)
    requires sorted != [] && topK > 0
    ensures Select(sorted, topK) != []
    ensures forall k | 0 <= k < |Select(sorted, topK)| :: Select(sorted, topK)[k] in Items(sorted)
  {
    var p := Positive(sorted);
    var r := Select(sorted, topK);
    if p == [] {
      var n := if topK < |sorted| then topK else |sorted|;
      assert PyTake(sorted, topK) == sorted[..n];
      assert r == Items(sorted[..n]);
      forall k | 0 <= k < |r| ensures r[k] in Items(sorted) {
        assert r[k] == Items(sorted)[k];
      }
    } else {
      PositiveMembers(sorted);
      var n := if topK < |p| then topK else |p|;
      assert r == Items(p)[..n];
      forall k | 0 <= k < |r| ensures r[k] in Items(sorted) {
        assert r[k] == p[k].item;
        assert p[k] in multiset(sorted);
        var m :| 0 <= m < |sorted| && sorted[m] == p[k];
        assert Items(sorted)[m] == p[k].item;
      }
    }
  }
}
