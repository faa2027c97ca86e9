/** _try_parse_json_from_text: cut the JSON-looking part out of the model's
    reply, delete trailing commas, and hand the result to json.loads.
    json.loads itself is the parameter `loads`: None stands for a raised error. */
module JsonExtract {
  import opened Text
  import opened Json

  // ---------------------------------------------------------------------------
  // Candidate extraction: re.search(r"(\{[\s\S]*\})") and re.search(r"(\[[\s\S]*\])")

  /** The first `open` and the last `close`, when that close comes after that open:
      the greedy match of open, anything, close. */
  function Span(s: string, open: char, close: char): (r: Option<(nat, nat)>)
    requires open != close
    ensures r.Some? ==> r.value.0 < r.value.1 < |s| && s[r.value.0] == open && s[r.value.1] == close
    ensures r.Some? ==> open !in s[..r.value.0] && close !in s[r.value.1 + 1..]
  {
    var first, last := FirstIndex(s, open), LastIndex(s, close);
    if first.Some? && last.Some? && first.value < last.value then
      Some((first.value, last.value))
    else
      None
  }

  /** There is no span exactly when no `open` comes before a `close`. */
  lemma SpanNoneIff(s: string, open: char, close: char)
    requires open != close
    ensures Span(s, open, close).None? <==> forall i, j | 0 <= i < j < |s| :: !(s[i] == open && s[j] == close)
  {
    var first, last := FirstIndex(s, open), LastIndex(s, close);
    if !(first.Some? && last.Some? && first.value < last.value) {
      assert forall i | 0 <= i < |s| && s[i] == open :: first.Some? && first.value <= i;
      assert forall j | 0 <= j < |s| && s[j] == close :: last.Some? && j <= last.value;
    }
  }

  function SpanText(s: string, span: (nat, nat)): string
    requires span.0 <= span.1 < |s|
  {
    s[span.0..span.1 + 1]
  }

  /** The text handed to the repair step: the object span when there is one,
      otherwise the array span, otherwise nothing. */
  function Candidate(raw: string): (r: Option<string>)
    ensures r.None? <==> Span(raw, '{', '}').None? && Span(raw, '[', ']').None?
    ensures Span(raw, '{', '}').Some? ==> r == Some(SpanText(raw, Span(raw, '{', '}').value))
    ensures Span(raw, '{', '}').None? && Span(raw, '[', ']').Some? ==> r == Some(SpanText(raw, Span(raw, '[', ']').value))
    ensures r.Some? ==> |r.value| >= 2 && (r.value[0] == '{' || r.value[0] == '[')
  {
    match Span(raw, '{', '}')
    case Some(obj) => Some(SpanText(raw, obj))
    case None =>
      match Span(raw, '[', ']')
      case Some(arr) => Some(SpanText(raw, arr))
      case None => None
  }

  /** The object candidate is chosen even when a '[' comes first. */
  lemma ObjectCandidateWins(raw: string, i: nat, j: nat)
    requires i < j < |raw| && raw[i] == '{' && raw[j] == '}'
    ensures Candidate(raw).Some? && Candidate(raw).value[0] == '{'
    ensures Candidate(raw).value[|Candidate(raw).value| - 1] == '}'
  {
    SpanNoneIff(raw, '{', '}');
  }

  // ---------------------------------------------------------------------------
  // Trailing-comma repair: re.sub(r",\s*([\}\]])", r"\1", candidate)

  predicate IsCloser(c: char)
  {
    c == '}' || c == ']'
  }

  /** After i, whitespace and then a closing bracket. */
  predicate ClosesAfter(s: string, i: nat)
    requires i <= |s|
  {
    var b := SkipSpace(s, i); b < |s| && IsCloser(s[b])
  }

  /** The regex scan from position i onwards. */
  function RepairFrom(s: string, i: nat): string
    requires i <= |s|
    decreases |s| - i
  {
    if i == |s| then []
    else if s[i] == ',' && ClosesAfter(s, i + 1) then
      var b := SkipSpace(s, i + 1);
      [s[b]] + RepairFrom(s, b + 1)
    else [s[i]] + RepairFrom(s, i + 1)
  }

  function Repair(s: string): string
  {
    RepairFrom(s, 0)
  }

  /** s[p] is a comma, or whitespace that a comma precedes across whitespace only. */
  predicate AfterComma(s: string, p: nat)
    requires p < |s|
    decreases p
  {
    s[p] == ',' || (IsSpace(s[p]) && p > 0 && AfterComma(s, p - 1))
  }

  /** The characters the repair deletes: a comma and the whitespace after it,
      when a closing bracket follows that whitespace. */
  predicate Dropped(s: string, p: nat)
    requires p < |s|
  {
    AfterComma(s, p) && ClosesAfter(s, p + 1)
  }

  /** The characters of s[i..] that are not dropped, in order. */
  function Kept(s: string, i: nat): string
    requires i <= |s|
    decreases |s| - i
  {
    if i == |s| then [] else (if Dropped(s, i) then [] else [s[i]]) + Kept(s, i + 1)
  }

  /** A comma whose whitespace run ends in a bracket: the comma and the run are dropped. */
  lemma {:induction false} CommaRunDropped(s: string, i: nat, k: nat)
    requires i < |s| && s[i] == ',' && ClosesAfter(s, i + 1)
    requires i <= k < SkipSpace(s, i + 1)
    ensures Dropped(s, k)
    decreases k - i
  {
    if k > i {
      CommaRunDropped(s, i, k - 1);
      SkipSpaceRun(s, i + 1);
      SkipSpaceFromInside(s, i + 1, k + 1);
    }
  }

  /** A whitespace character after a comma leads back to that comma. */
  lemma {:induction false} CommaBehind(s: string, p: nat) returns (c: nat)
    requires p < |s| && AfterComma(s, p)
    ensures c <= p && s[c] == ',' && forall k | c < k <= p :: IsSpace(s[k])
    decreases p
  {
    if s[p] == ',' {
      c := p;
    } else {
      c := CommaBehind(s, p - 1);
    }
  }

  /** Every comma before i that the scan matched has been consumed together with its bracket. */
  predicate Resumable(s: string, i: nat)
    requires i <= |s|
  {
    forall c | 0 <= c < i && s[c] == ',' && ClosesAfter(s, c + 1) :: SkipSpace(s, c + 1) < i
  }

  /** A character the scan copies is not one of the dropped ones. */
  lemma NotDroppedWhenCopied(s: string, i: nat)
    requires i < |s| && Resumable(s, i)
    requires !(s[i] == ',' && ClosesAfter(s, i + 1))
    ensures !Dropped(s, i)
  {
    if s[i] != ',' && AfterComma(s, i) {
      var c := CommaBehind(s, i);
      SkipSpaceOverRun(s, c + 1, i + 1);
      SkipSpaceFromInside(s, c + 1, i + 1);
    }
  }

  /** After a matched comma the scan resumes past its bracket. */
  lemma ResumableAfterMatch(s: string, i: nat)
    requires i < |s| && Resumable(s, i)
    requires s[i] == ',' && ClosesAfter(s, i + 1)
    ensures Resumable(s, SkipSpace(s, i + 1) + 1)
  {
    var b := SkipSpace(s, i + 1);
    SkipSpaceRun(s, i + 1);
  }

  /** A matched comma: the comma and its whitespace are dropped, and the kept
      text continues with the bracket. */
  lemma MatchStep(s: string, i: nat)
    requires i < |s| && s[i] == ',' && ClosesAfter(s, i + 1)
    ensures SkipSpace(s, i + 1) < |s|
    ensures Kept(s, i) == [s[SkipSpace(s, i + 1)]] + Kept(s, SkipSpace(s, i + 1) + 1)
  {
    KeptOverCommaRun(s, i, i);
    NotDroppedAtBracket(s, SkipSpace(s, i + 1));
  }

  /** Nothing is kept from the comma up to its bracket. */
  lemma {:induction false} KeptOverCommaRun(s: string, i: nat, k: nat)
    requires i < |s| && s[i] == ',' && ClosesAfter(s, i + 1)
    requires i <= k <= SkipSpace(s, i + 1)
    ensures Kept(s, k) == Kept(s, SkipSpace(s, i + 1))
    decreases SkipSpace(s, i + 1) - k
  {
    if k < SkipSpace(s, i + 1) {
      CommaRunDropped(s, i, k);
      KeptOverCommaRun(s, i, k + 1);
    }
  }

  /** A closing bracket is never dropped. */
  lemma NotDroppedAtBracket(s: string, b: nat)
    requires b < |s| && IsCloser(s[b])
    ensures Kept(s, b) == [s[b]] + Kept(s, b + 1)
  {
    assert !AfterComma(s, b);
  }

  /** A copied character: the kept text continues with it. */
  lemma CopyStep(s: string, i: nat)
    requires i < |s| && Resumable(s, i)
    requires !(s[i] == ',' && ClosesAfter(s, i + 1))
    ensures Kept(s, i) == [s[i]] + Kept(s, i + 1) && Resumable(s, i + 1)
  {
    NotDroppedWhenCopied(s, i);
  }

  lemma {:induction false} RepairFromIsKept(s: string, i: nat)
    requires i <= |s| && Resumable(s, i)
    ensures RepairFrom(s, i) == Kept(s, i)
    decreases |s| - i
  {
    if i < |s| {
      if s[i] == ',' && ClosesAfter(s, i + 1) {
        var b := SkipSpace(s, i + 1);
        assert RepairFrom(s, i) == [s[b]] + RepairFrom(s, b + 1);
        MatchStep(s, i);
        ResumableAfterMatch(s, i);
        RepairFromIsKept(s, b + 1);
      } else {
        CopyStep(s, i);
        RepairFromIsKept(s, i + 1);
      }
    }
  }

  /** The repair deletes exactly the dropped characters and keeps every other one in order. */
  lemma RepairDeletesExactlyDropped(s: string)
    ensures Repair(s) == Kept(s, 0)
  {
    RepairFromIsKept(s, 0);
  }

  lemma {:induction false} KeptNotLonger(s: string, i: nat)
    requires i <= |s|
    ensures |Kept(s, i)| <= |s| - i
    decreases |s| - i
  {
    if i < |s| {
      KeptNotLonger(s, i + 1);
    }
  }

  /** The repair never lengthens its input. */
  lemma RepairNotLonger(s: string)
    ensures |Repair(s)| <= |s|
  {
    RepairDeletesExactlyDropped(s);
    KeptNotLonger(s, 0);
  }

  /** Text without a comma is left unchanged. */
  lemma {:induction false} RepairWithoutCommas(s: string, i: nat)
    requires i <= |s| && ',' !in s
    ensures RepairFrom(s, i) == s[i..]
    decreases |s| - i
  {
    if i < |s| {
      RepairWithoutCommas(s, i + 1);
      assert s[i..] == [s[i]] + s[i + 1..];
    }
  }

  /** The repair is not idempotent: ",,}" repairs to ",}", which repairs to "}". */
  lemma RepairNotIdempotent()
    ensures Repair(",,}") == ",}"
    ensures Repair(",}") == "}"
  {
    assert SkipSpace(",,}", 1) == 1;
    assert SkipSpace(",,}", 2) == 2;
    assert SkipSpace(",}", 1) == 1;
  }

  /** A trailing comma before a closing bracket goes; the other commas stay. */
  lemma RepairExample()
    ensures Repair("[1,2,]") == "[1,2]"
  {
    var s := "[1,2,]";
    assert SkipSpace(s, 3) == 3 && SkipSpace(s, 5) == 5;
    assert RepairFrom(s, 6) == "";
    assert RepairFrom(s, 4) == "]";
    assert RepairFrom(s, 2) == ",2]";
  }

  /** A first character that is not a comma survives the repair. */
  lemma RepairKeepsFirst(s: string)
    requires s != [] && s[0] != ','
    ensures Repair(s) != [] && Repair(s)[0] == s[0]
  {
  }

  /** Where each kept character came from. */
  function Origin(s: string, i: nat, a: nat): (p: nat)
    requires i <= |s| && a < |Kept(s, i)|
    ensures i <= p < |s| && s[p] == Kept(s, i)[a]
    decreases |s| - i
  {
    if Dropped(s, i) then Origin(s, i + 1, a)
    else if a == 0 then i
    else Origin(s, i + 1, a - 1)
  }

  lemma {:induction false} OriginIncreasing(s: string, i: nat, a: nat, b: nat)
    requires i <= |s| && a < b < |Kept(s, i)|
    ensures Origin(s, i, a) < Origin(s, i, b)
    decreases |s| - i
  {
    if Dropped(s, i) {
      OriginIncreasing(s, i + 1, a, b);
    } else if a > 0 {
      OriginIncreasing(s, i + 1, a - 1, b - 1);
    }
  }

  /** A '{' followed later by '}' in the repaired text was already in the input. */
  lemma RepairAddsNoBraceSpan(s: string)
    requires Span(Repair(s), '{', '}').Some?
    ensures Span(s, '{', '}').Some?
  {
    RepairDeletesExactlyDropped(s);
    var span := Span(Repair(s), '{', '}').value;
    OriginIncreasing(s, 0, span.0, span.1);
    var p, q := Origin(s, 0, span.0), Origin(s, 0, span.1);
    assert s[p] == '{' && s[q] == '}';
    SpanNoneIff(s, '{', '}');
  }

  /** A text without a '{' before a '}' has none in any slice, nor after the repair. */
  lemma NoBraceSpanInSlice(s: string, lo: nat, hi: nat)
    requires lo <= hi <= |s|
    requires Span(s, '{', '}').None?
    ensures Span(s[lo..hi], '{', '}').None?
    ensures Span(Repair(s[lo..hi]), '{', '}').None?
  {
    var t := s[lo..hi];
    if Span(Repair(t), '{', '}').Some? {
      RepairAddsNoBraceSpan(t);
    }
  }

  // ---------------------------------------------------------------------------
  // Parsing

  /** Parse the repaired candidate; on failure parse it once more wrapped in braces. */
  function TryParseJson(raw: string, loads: string -> Option<Json>): (r: Option<Json>)
    ensures Candidate(raw).None? ==> r.None?
  {
    match Candidate(raw)
    case None => None
    case Some(candidate) =>
      var repaired := Repair(candidate);
      if loads(repaired).Some? then loads(repaired) else loads("{" + repaired + "}")
  }

  /** Section 4 of RFC 8259: inside an object the first thing after '{' is a member
      name (a string) or '}', never another '{' or '['. */
  ghost predicate RejectsOpenerAfterBrace(loads: string -> Option<Json>)
  {
    forall t | |t| >= 2 && t[0] == '{' && (t[1] == '{' || t[1] == '[') :: loads(t).None?
  }

  /** A JSON text that starts with '{' is an object (RFC 8259, sections 2 and 4). */
  ghost predicate BraceTextIsObject(loads: string -> Option<Json>)
  {
    forall t | |t| >= 1 && t[0] == '{' && loads(t).Some? :: loads(t).value.JObject?
  }

  predicate HasObjectItem(j: Json)
  {
    j.JArray? && exists k | 0 <= k < |j.items| :: j.items[k].JObject?
  }

  /** An array with an object element was written with a '{' before a '}'. */
  ghost predicate ObjectsNeedBraces(loads: string -> Option<Json>)
  {
    forall t | loads(t).Some? && HasObjectItem(loads(t).value) :: Span(t, '{', '}').Some?
  }

  /** The brace-wrapping retry can never succeed for a parser that follows RFC 8259:
      the wrapped text starts "{{" or "{[". */
  lemma RetryNeverSucceeds(raw: string, loads: string -> Option<Json>)
    requires RejectsOpenerAfterBrace(loads)
    requires Candidate(raw).Some?
    ensures TryParseJson(raw, loads) == loads(Repair(Candidate(raw).value))
  {
    var c := Candidate(raw).value;
    RepairKeepsFirst(c);
    var wrapped := "{" + Repair(c) + "}";
    assert wrapped[1] == Repair(c)[0];
  }

  /** When the text has a '{' before a '}', whatever parses is an object. */
  lemma ObjectCandidateParsesAsObject(raw: string, loads: string -> Option<Json>)
    requires RejectsOpenerAfterBrace(loads) && BraceTextIsObject(loads)
    requires Span(raw, '{', '}').Some? && TryParseJson(raw, loads).Some?
    ensures TryParseJson(raw, loads).value.JObject?
  {
    var c := Candidate(raw).value;
    RetryNeverSucceeds(raw, loads);
    RepairKeepsFirst(c);
    var t := Repair(c);
    assert |t| >= 1 && t[0] == '{' && loads(t).Some?;
  }

  /** Otherwise the repaired array candidate has no '{' before a '}', so no
      object inside what it parses to. */
  lemma ArrayCandidateHasNoObjects(raw: string, loads: string -> Option<Json>)
    requires ObjectsNeedBraces(loads)
    requires Span(raw, '{', '}').None? && Candidate(raw).Some?
    requires loads(Repair(Candidate(raw).value)).Some?
    ensures !HasObjectItem(loads(Repair(Candidate(raw).value)).value)
  {
    var span := Span(raw, '[', ']').value;
    var c := raw[span.0..span.1 + 1];
    assert Candidate(raw) == Some(c);
    NoBraceSpanInSlice(raw, span.0, span.1 + 1);
    NoBracesNoObjects(loads, Repair(c));
  }

  lemma NoBracesNoObjects(loads: string -> Option<Json>, t: string)
    requires ObjectsNeedBraces(loads) && Span(t, '{', '}').None? && loads(t).Some?
    ensures !HasObjectItem(loads(t).value)
  {
  }

  /** The top-level array the learning-path code walks never holds an object: an
      array is only parsed when the text has no '{' before a '}'. */
  lemma ArrayResultHasNoObjects(raw: string, loads: string -> Option<Json>)
    requires RejectsOpenerAfterBrace(loads) && BraceTextIsObject(loads) && ObjectsNeedBraces(loads)
    requires TryParseJson(raw, loads).Some? && TryParseJson(raw, loads).value.JArray?
    ensures !HasObjectItem(TryParseJson(raw, loads).value)
  {
    if Span(raw, '{', '}').Some? {
      ObjectCandidateParsesAsObject(raw, loads);
    } else {
      RetryNeverSucceeds(raw, loads);
      ArrayCandidateHasNoObjects(raw, loads);
    }
  }
}
