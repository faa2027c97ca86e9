/** answer_question_over_text_or_file: the query check, the choice between
    inline text and an uploaded file, the upload's content-type check, the
    clipping of the document to the context budget, and the split of the
    model's reply into an answer and its reasoning. */
module QaService {
  import opened Text

  /** An HTTPException: status code and detail message. */
  datatype HttpError = HttpError(status: int, detail: string)

  /** An upload: its declared content type (if any) and its body, already
      decoded as UTF-8 text. */
  datatype Upload = Upload(contentType: Option<string>, body: string)

  /** The pair the service returns: the answer line and, when the reply has
      more than one line, the rest of it. */
  datatype QaAnswer = QaAnswer(answer: string, reasoning: Option<string>)

  /** _MAX_CONTEXT_CHARS. */
  const MaxContextChars: nat := 12000

  /** The characters kept from each end of an over-long document. */
  const HalfContext: nat := MaxContextChars / 2

  /** What joins the kept head and tail. */
  const Ellipsis: string := "\n...\n"

  const UnsupportedType := HttpError(415, "Only text files (.txt, .md) are supported in this minimal build.")
  const NoContent := HttpError(400, "No document content provided.")
  const NoQuery := HttpError(400, "Query is required.")
  const NoInput := HttpError(400, "Provide either 'text' or a text 'file'.")

  /** _read_text_file: only plain text and markdown uploads are read. */
  function ReadTextFile(upload: Upload): (r: Result<string, HttpError>)
    ensures r.Failure? <==> upload.contentType != Some("text/plain") && upload.contentType != Some("text/markdown")
    ensures r.Failure? ==> r.error == UnsupportedType
    ensures r.Success? ==> r.value == upload.body
  {
    if upload.contentType == Some("text/plain") || upload.contentType == Some("text/markdown") then
      Success(upload.body)
    else
      Failure(UnsupportedType)
  }

  /** _prepare_context: strip, refuse an empty document, and keep only the head
      and tail of one longer than the budget. */
  function PrepareContext(text: string): (r: Result<string, HttpError>)
    ensures r.Failure? <==> IsBlank(text)
    ensures r.Failure? ==> r.error == NoContent
    ensures r.Success? ==> |r.value| <= MaxContextChars + |Ellipsis|
  {
    var t := Strip(text);
    StripEmptyIff(text);
    if t == [] then Failure(NoContent)
    else if |t| > MaxContextChars then Success(t[..HalfContext] + Ellipsis + t[|t| - HalfContext..])
    else Success(t)
  }

  /** A document within the budget is passed on as it is, once stripped. */
  lemma ShortContextUnchanged(text: string)
    requires !IsBlank(text) && |Strip(text)| <= MaxContextChars
    ensures PrepareContext(text) == Success(Strip(text))
  {
  }

  /** A longer document keeps its first and last 6000 characters, which do not
      overlap, around the marker: exactly 12005 characters. */
  lemma LongContextClipped(text: string)
    requires |Strip(text)| > MaxContextChars
    ensures var t, r := Strip(text), PrepareContext(text);
      r.Success? && |r.value| == 12005
      && r.value[..6000] == t[..6000]
      && r.value[6000..6005] == "\n...\n"
      && r.value[6005..] == t[|t| - 6000..]
      && 6000 < |t| - 6000
  {
    StripEmptyIff(text);
    var t := Strip(text);
    var r := t[..6000] + "\n...\n" + t[|t| - 6000..];
    assert PrepareContext(text) == Success(r);
    assert r[..6000] == t[..6000];
    assert r[6000..6005] == "\n...\n";
    assert r[6005..] == t[|t| - 6000..];
  }

  /** The prepared context begins and ends with the document's own first and
      last non-whitespace characters, so preparing it again changes nothing. */
  lemma PrepareContextIdempotent(text: string)
    requires PrepareContext(text).Success?
    ensures PrepareContext(PrepareContext(text).value) == PrepareContext(text)
  {
    var t := Strip(text);
    StripEmptyIff(text);
    StripEnds(text);
    var r := PrepareContext(text).value;
    if |t| > MaxContextChars {
      LongContextClipped(text);
      assert r[0] == t[0] && r[|r| - 1] == t[|t| - 1];
      StripOfTrimmed(r);
      StripEmptyIff(r);
      assert r[..6000] == t[..6000];
      assert r[|r| - 6000..] == t[|t| - 6000..];
    } else {
      StripOfTrimmed(t);
      StripEmptyIff(t);
    }
  }

  /** The document text: the stripped inline text when it is not blank,
      otherwise the uploaded file, otherwise an error. */
  function DocumentText(inlineText: Option<string>, file: Option<Upload>): (r: Result<string, HttpError>)
    ensures inlineText.Some? && !IsBlank(inlineText.value) ==> r == Success(Strip(inlineText.value))
    ensures (inlineText.None? || IsBlank(inlineText.value)) && file.Some? ==> r == ReadTextFile(file.value)
    ensures (inlineText.None? || IsBlank(inlineText.value)) && file.None? ==> r == Failure(NoInput)
  {
    match inlineText
    case Some(t) =>
      StripEmptyIff(t);
      if Strip(t) != [] then Success(Strip(t)) else UploadText(file)
    case None => UploadText(file)
  }

  /** The `elif file is not None` and `else` branches. */
  function UploadText(file: Option<Upload>): Result<string, HttpError>
  {
    if file.Some? then ReadTextFile(file.value) else Failure(NoInput)
  }

  /** `output.split("\n", 1)`, each part stripped: the answer is the first line,
      the reasoning the rest of the reply, if there is a line break at all. */
  function SplitAnswer(output: string): (r: QaAnswer)
    ensures r.reasoning.None? <==> '\n' !in output
    ensures '\n' !in r.answer
    ensures '\n' !in output ==> r == QaAnswer(Strip(output), None)
    ensures forall i | 0 <= i < |output| && output[i] == '\n' && '\n' !in output[..i] ::
      r.answer == Strip(output[..i]) && r.reasoning == Some(Strip(output[i + 1..]))
  {
    FirstIndexUnique(output, '\n');
    match FirstIndex(output, '\n')
    case None =>
      StripKeepsAbsence(output, '\n');
      QaAnswer(Strip(output), None)
    case Some(i) =>
      StripKeepsAbsence(output[..i], '\n');
      QaAnswer(Strip(output[..i]), Some(Strip(output[i + 1..])))
  }

  /** On a stripped, non-empty reply neither part is empty: the reply begins
      and ends with non-whitespace and the line break is whitespace. */
  lemma SplitAnswerNonEmpty(output: string)
    requires output != [] && Strip(output) == output
    ensures var r := SplitAnswer(output);
      r.answer != [] && (r.reasoning.Some? ==> r.reasoning.value != [])
  {
    StripEnds(output);
    match FirstIndex(output, '\n')
    case None =>
    case Some(i) =>
      assert i > 0 && i < |output| - 1;
      assert !IsSpace(output[..i][0]);
      StripEmptyIff(output[..i]);
      var rest := output[i + 1..];
      assert !IsSpace(rest[|rest| - 1]);
      StripEmptyIff(rest);
  }

  /** answer_question_over_text_or_file. `invoke` is the language model: given
      the context and the stripped query it returns the reply. */
  function AnswerQuestion(query: string, inlineText: Option<string>, file: Option<Upload>,
                          invoke: (string, string) -> string): Result<QaAnswer, HttpError>
  {
    if Strip(query) == [] then Failure(NoQuery)
    else match DocumentText(inlineText, file)
      case Failure(e) => Failure(e)
      case Success(doc) =>
        match PrepareContext(doc)
        case Failure(e) => Failure(e)
        case Success(context) => Success(SplitAnswer(Strip(invoke(context, Strip(query)))))
  }

  /** A blank query is refused before any document is looked at. */
  lemma QueryCheckedFirst(query: string, inlineText: Option<string>, file: Option<Upload>,
                          invoke: (string, string) -> string)
    requires IsBlank(query)
    ensures AnswerQuestion(query, inlineText, file, invoke) == Failure(NoQuery)
  {
    StripEmptyIff(query);
  }

  /** Non-blank inline text wins: the upload is then never read. */
  lemma InlineTextWins(query: string, inlineText: string, file1: Option<Upload>, file2: Option<Upload>,
                       invoke: (string, string) -> string)
    requires !IsBlank(inlineText)
    ensures AnswerQuestion(query, Some(inlineText), file1, invoke)
         == AnswerQuestion(query, Some(inlineText), file2, invoke)
  {
  }

  /** With a query but neither inline text nor an upload, the call fails with 400. */
  lemma NoDocumentFails(query: string, inlineText: Option<string>, invoke: (string, string) -> string)
    requires !IsBlank(query)
    requires inlineText.None? || IsBlank(inlineText.value)
    ensures AnswerQuestion(query, inlineText, None, invoke) == Failure(NoInput)
  {
    StripEmptyIff(query);
  }

  /** Without usable inline text, an upload of another content type fails with 415. */
  lemma UnsupportedUploadFails(query: string, inlineText: Option<string>, upload: Upload,
                               invoke: (string, string) -> string)
    requires !IsBlank(query)
    requires inlineText.None? || IsBlank(inlineText.value)
    requires upload.contentType != Some("text/plain") && upload.contentType != Some("text/markdown")
    ensures AnswerQuestion(query, inlineText, Some(upload), invoke) == Failure(UnsupportedType)
  {
    StripEmptyIff(query);
  }

  /** On success the model was given a context within the budget, and the
      answer holds no line break. */
  lemma AnswerFromBoundedContext(query: string, inlineText: Option<string>, file: Option<Upload>,
                                 invoke: (string, string) -> string)
    requires AnswerQuestion(query, inlineText, file, invoke).Success?
    ensures var doc := DocumentText(inlineText, file);
      doc.Success? && PrepareContext(doc.value).Success?
      && |PrepareContext(doc.value).value| <= 12005
      && AnswerQuestion(query, inlineText, file, invoke).value
         == SplitAnswer(Strip(invoke(PrepareContext(doc.value).value, Strip(query))))
      && '\n' !in AnswerQuestion(query, inlineText, file, invoke).value.answer
  {
  }
}
