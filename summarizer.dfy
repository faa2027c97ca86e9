/** summarize_text: the mapping of the requested length onto the phrase the
    prompt uses, and the guard against an empty input. */
module Summarizer {
  import opened Text

  const ShortWords: string := "in ~3-4 sentences"
  const MediumWords: string := "in ~8-10 sentences"
  const LongWords: string := "in a detailed paragraph with bullets if needed"

  /** The dictionary lookup with the short phrase as the default. */
  function PhraseFor(normalized: string): (r: string)
    ensures normalized == "medium" ==> r == MediumWords
    ensures normalized == "long" ==> r == LongWords
    ensures normalized != "medium" && normalized != "long" ==> r == ShortWords
  {
    if normalized == "short" then ShortWords
    else if normalized == "medium" then MediumWords
    else if normalized == "long" then LongWords
    else ShortWords
  }

  /** _length_to_words: `(length or "short")`, stripped and lower-cased, looked up. */
  function LengthToWords(length: Option<string>): (r: string)
    ensures r == ShortWords || r == MediumWords || r == LongWords
  {
    var given := if length.Some? && length.value != [] then length.value else "short";
    PhraseFor(Lower(Strip(given)))
  }

  /** No length, an empty one, or one whose normal form is not a known name,
      gives the short phrase. */
  lemma LengthDefaultsToShort(length: Option<string>)
    requires length.None? || length.value == []
      || (Lower(Strip(length.value)) != "medium" && Lower(Strip(length.value)) != "long")
    ensures LengthToWords(length) == ShortWords
  {
    if length.Some? && length.value != [] {
      assert PhraseFor(Lower(Strip(length.value))) == ShortWords;
    } else {
      StripOfTrimmed("short");
      assert Lower("short") == "short";
    }
  }

  /** Surrounding whitespace and upper case do not matter: " MEDIUM " asks for
      the medium phrase. */
  lemma PaddedUpperCaseMedium()
    ensures LengthToWords(Some(" MEDIUM ")) == MediumWords
  {
    assert StripStart(" MEDIUM ") == StripStart("MEDIUM ") == "MEDIUM ";
    assert StripEnd("MEDIUM ") == StripEnd("MEDIUM") == "MEDIUM";
    var l := Lower("MEDIUM");
    assert l[0] == 'm' && l[1] == 'e' && l[2] == 'd' && l[3] == 'i' && l[4] == 'u' && l[5] == 'm';
    assert l == "medium";
  }

  /** summarize_text. `invoke` is the language model: given the length phrase
      and the stripped text it returns the summary; a ValueError is its message. */
  function SummarizeText(text: string, length: Option<string>,
                         invoke: (string, string) -> string): (r: Result<string, string>)
    ensures r.Failure? <==> IsBlank(text)
    ensures r.Failure? ==> r.error == "Input text is empty."
  {
    StripEmptyIff(text);
    if Strip(text) == [] then Failure("Input text is empty.")
    else Success(Strip(invoke(LengthToWords(length), Strip(text))))
  }

  /** A blank input fails the same way whatever the model would answer: no
      prompt is built. */
  lemma EmptyInputNeverReachesModel(text: string, length: Option<string>,
                                    invoke1: (string, string) -> string, invoke2: (string, string) -> string)
    requires IsBlank(text)
    ensures SummarizeText(text, length, invoke1) == SummarizeText(text, length, invoke2)
  {
  }
}
