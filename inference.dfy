/**
 * The inference wrappers of app/ai_utils.py around an abstract language
 * model. Every call to the model goes through an `Oracle`: a function from
 * the request the wrapper makes to the reply it gets. A different oracle
 * may be passed to every call, so nothing assumes the model answers the
 * same way twice. What the wrappers decide on their own is modelled exactly:
 * truncation, the canned error strings, the `"Error:"` short-circuit, the
 * line filter for references, and the organ defaults.
 */
module Inference {
  import opened Wrappers
  import opened Text
  import opened Json
  import opened Sanitizer
  import opened Organs

  /** The longest input text embedded in a prompt. */
  const MaxInputLength: nat := 12000

  /** What a wrapper sends: the inputs its prompt embeds. */
  datatype Request =
    | SummaryRequest(text: string)
    | TranslationRequest(text: string, language: string, context: string)
    | DetailsRequest(summary: string, fullText: string)
    | ReferencesRequest(summary: string)
    | VisionRequest(imagePath: string)

  /** What comes back: the message content, a connection error, or any other
      failure (including a reply whose content is missing). */
  datatype Reply =
    | Text(content: string)
    | ConnectionFailure
    | UnexpectedFailure

  type Oracle = Request -> Reply

  /** `json.loads` followed by the dictionary operations: the object it
      decodes, or `None` when the text is not a JSON object. */
  type Parser = string -> Option<Object>

  /** `text[:12000]` when the text is longer than that. */
  function Truncate(text: string): (r: string)
    ensures |r| <= |text| && |r| <= MaxInputLength && r == text[..|r|]
    ensures |r| == |text| || |r| == MaxInputLength
  {
    if |text| > MaxInputLength then text[..MaxInputLength] else text
  }

  /** Truncation keeps a short text and cuts a long one at the bound. */
  lemma TruncateShort(text: string)
    requires |text| <= MaxInputLength
    ensures Truncate(text) == text
  {
  }

  /** Characters past the bound never reach the model. */
  lemma TruncateIgnoresTail(text: string, extra: string)
    requires |text| >= MaxInputLength
    ensures Truncate(text + extra) == Truncate(text)
  {
    assert (text + extra)[..MaxInputLength] == text[..MaxInputLength];
  }

  /** The prefix every canned failure text starts with. */
  const ErrorTag: string := "Error:"

  /** The canned texts the wrappers return when the model fails. */
  const SummaryConnectionError: string := ErrorTag + " unable to contact Azure OpenAI for summary. Please check endpoint / network."
  const SummaryFailure: string := ErrorTag + " summarization failed."
  const TranslationFailure: string := ErrorTag + " translation failed."
  const DetailsConnectionError: string := ErrorTag + " unable to contact Azure OpenAI for detailed explanation."
  const DetailsFailure: string := ErrorTag + " details generation failed."
  const ReferencesConnectionError: string := ErrorTag + " unable to contact Azure OpenAI for references."
  const ReferencesFailure: string := ErrorTag + " reference generation failed."

  function TranslationConnectionError(language: string): string {
    ErrorTag + (" unable to contact Azure OpenAI for translation to " + language + ".")
  }

  predicate IsErrorText(s: string) {
    StartsWith(s, ErrorTag)
  }

  lemma ErrorPrefix(rest: string)
    ensures IsErrorText(ErrorTag + rest)
  {
    assert (ErrorTag + rest)[..|ErrorTag|] == ErrorTag;
  }

  /** Every canned failure text starts with "Error:". */
  lemma CannedTextsAreErrors(language: string)
    ensures IsErrorText(SummaryConnectionError) && IsErrorText(SummaryFailure)
    ensures IsErrorText(TranslationConnectionError(language)) && IsErrorText(TranslationFailure)
    ensures IsErrorText(DetailsConnectionError) && IsErrorText(DetailsFailure)
    ensures IsErrorText(ReferencesConnectionError) && IsErrorText(ReferencesFailure)
  {
    ErrorPrefix(" unable to contact Azure OpenAI for summary. Please check endpoint / network.");
    ErrorPrefix(" summarization failed.");
    ErrorPrefix(" unable to contact Azure OpenAI for translation to " + language + ".");
    ErrorPrefix(" translation failed.");
    ErrorPrefix(" unable to contact Azure OpenAI for detailed explanation.");
    ErrorPrefix(" details generation failed.");
    ErrorPrefix(" unable to contact Azure OpenAI for references.");
    ErrorPrefix(" reference generation failed.");
  }

  /** `summarize_text`. */
  function SummarizeText(text: string, oracle: Oracle): (r: string)
    ensures oracle(SummaryRequest(Truncate(text))).Text? ==> r == Strip(oracle(SummaryRequest(Truncate(text))).content)
    ensures oracle(SummaryRequest(Truncate(text))).ConnectionFailure? ==>
              r == SummaryConnectionError
    ensures oracle(SummaryRequest(Truncate(text))).UnexpectedFailure? ==> r == SummaryFailure
  {
    match oracle(SummaryRequest(Truncate(text)))
    case Text(c) => Strip(c)
    case ConnectionFailure => SummaryConnectionError
    case UnexpectedFailure => SummaryFailure
  }

  /** `translate_text`. */
  function TranslateText(text: string, language: string, context: string, oracle: Oracle): (r: string)
    ensures oracle(TranslationRequest(text, language, context)).Text? ==>
              r == Strip(oracle(TranslationRequest(text, language, context)).content)
    ensures oracle(TranslationRequest(text, language, context)).ConnectionFailure? ==>
              r == TranslationConnectionError(language)
    ensures oracle(TranslationRequest(text, language, context)).UnexpectedFailure? ==> r == TranslationFailure
  {
    match oracle(TranslationRequest(text, language, context))
    case Text(c) => Strip(c)
    case ConnectionFailure => TranslationConnectionError(language)
    case UnexpectedFailure => TranslationFailure
  }

  /** `translate_summary`: the translation with the summary context. */
  function TranslateSummary(summary: string, language: string, oracle: Oracle): (r: string)
    ensures oracle(TranslationRequest(summary, language, "medical summary")).Text? ==>
              r == Strip(oracle(TranslationRequest(summary, language, "medical summary")).content)
    ensures !oracle(TranslationRequest(summary, language, "medical summary")).Text? ==> IsErrorText(r)
  {
    CannedTextsAreErrors(language);
    TranslateText(summary, language, "medical summary", oracle)
  }

  /** `generate_detailed_text`: the summary goes in whole, the full text
      truncated. */
  function GenerateDetailedText(summary: string, fullText: string, oracle: Oracle): (r: string)
    ensures oracle(DetailsRequest(summary, Truncate(fullText))).Text? ==>
              r == Strip(oracle(DetailsRequest(summary, Truncate(fullText))).content)
    ensures oracle(DetailsRequest(summary, Truncate(fullText))).ConnectionFailure? ==>
              r == DetailsConnectionError
    ensures oracle(DetailsRequest(summary, Truncate(fullText))).UnexpectedFailure? ==> r == DetailsFailure
  {
    match oracle(DetailsRequest(summary, Truncate(fullText)))
    case Text(c) => Strip(c)
    case ConnectionFailure => DetailsConnectionError
    case UnexpectedFailure => DetailsFailure
  }

  /** Every failure of the model comes back as a text starting with "Error:". */
  lemma FailuresAreErrorTexts(text: string, summary: string, language: string, context: string, oracle: Oracle)
    ensures !oracle(SummaryRequest(Truncate(text))).Text? ==> IsErrorText(SummarizeText(text, oracle))
    ensures !oracle(TranslationRequest(text, language, context)).Text? ==> IsErrorText(TranslateText(text, language, context, oracle))
    ensures !oracle(DetailsRequest(summary, Truncate(text))).Text? ==> IsErrorText(GenerateDetailedText(summary, text, oracle))
  {
    CannedTextsAreErrors(language);
  }

  /** Only the first 12000 characters of the document affect the summary and
      the detailed explanation. */
  lemma LongInputTailIgnored(text: string, extra: string, summary: string, oracle: Oracle)
    requires |text| >= MaxInputLength
    ensures SummarizeText(text + extra, oracle) == SummarizeText(text, oracle)
    ensures GenerateDetailedText(summary, text + extra, oracle) == GenerateDetailedText(summary, text, oracle)
  {
    TruncateIgnoresTail(text, extra);
  }

  /** `generate_detailed_text_translated`: details that start with "Error:"
      are returned as they are; any others are translated. */
  function GenerateDetailedTextTranslated(summary: string, fullText: string, language: string, oracle: Oracle): (r: string)
    ensures IsErrorText(GenerateDetailedText(summary, fullText, oracle)) ==> r == GenerateDetailedText(summary, fullText, oracle)
    ensures !IsErrorText(GenerateDetailedText(summary, fullText, oracle)) ==>
              r == TranslateText(GenerateDetailedText(summary, fullText, oracle), language, "detailed medical explanation", oracle)
  {
    var details := GenerateDetailedText(summary, fullText, oracle);
    if IsErrorText(details) then details
    else TranslateText(details, language, "detailed medical explanation", oracle)
  }

  /** The model is never asked to translate failed details: two oracles that
      agree on everything but translations give the same result. */
  lemma FailedDetailsNotTranslated(summary: string, fullText: string, language: string, o1: Oracle, o2: Oracle)
    requires o1(DetailsRequest(summary, Truncate(fullText))) == o2(DetailsRequest(summary, Truncate(fullText)))
    requires !o1(DetailsRequest(summary, Truncate(fullText))).Text?
    ensures GenerateDetailedTextTranslated(summary, fullText, language, o1)
         == GenerateDetailedTextTranslated(summary, fullText, language, o2)
         == GenerateDetailedText(summary, fullText, o1)
  {
    FailuresAreErrorTexts(fullText, summary, language, "", o1);
    FailuresAreErrorTexts(fullText, summary, language, "", o2);
  }

  /** `[line for line in lines if line.strip()]`; a stripped line is truthy
      exactly when the line is not blank. */
  function NonBlankLines(lines: seq<string>): (r: seq<string>)
    ensures |r| <= |lines|
    ensures forall i :: 0 <= i < |r| ==> !Blank(r[i]) && r[i] in lines
    ensures forall i :: 0 <= i < |lines| && !Blank(lines[i]) ==> lines[i] in r
  {
    if lines == [] then []
    else
      var rest := NonBlankLines(lines[1..]);
      assert forall i :: 1 <= i < |lines| ==> lines[i] == lines[1..][i - 1];
      if Blank(lines[0]) then rest else [lines[0]] + rest
  }

  /** The filter keeps the order of the lines: it distributes over
      concatenation. */
  lemma {:induction false} NonBlankLinesConcat(a: seq<string>, b: seq<string>)
    ensures NonBlankLines(a + b) == NonBlankLines(a) + NonBlankLines(b)
    decreases |a|
  {
    if a == [] {
      assert a + b == b;
    } else {
      assert (a + b)[0] == a[0];
      assert (a + b)[1..] == a[1..] + b;
      NonBlankLinesConcat(a[1..], b);
    }
  }

  /** `generate_references`. */
  function GenerateReferences(summary: string, oracle: Oracle): (r: seq<string>)
    ensures oracle(ReferencesRequest(summary)).Text? ==>
              r == NonBlankLines(SplitLines(Strip(oracle(ReferencesRequest(summary)).content)))
    ensures oracle(ReferencesRequest(summary)).ConnectionFailure? ==>
              r == [ReferencesConnectionError]
    ensures oracle(ReferencesRequest(summary)).UnexpectedFailure? ==> r == [ReferencesFailure]
  {
    match oracle(ReferencesRequest(summary))
    case Text(c) => NonBlankLines(SplitLines(Strip(c)))
    case ConnectionFailure => [ReferencesConnectionError]
    case UnexpectedFailure => [ReferencesFailure]
  }

  /** When the reply breaks its lines with "\n" only, the references are
      cut from lines that together spell out the stripped reply. */
  lemma ReferencesCoverReply(summary: string, oracle: Oracle)
    requires oracle(ReferencesRequest(summary)).Text?
    requires OnlyNewlines(Strip(oracle(ReferencesRequest(summary)).content))
    ensures var t := Strip(oracle(ReferencesRequest(summary)).content);
            GenerateReferences(summary, oracle) == NonBlankLines(SplitLines(t)) && Join("\n", SplitLines(t)) == t
  {
    SplitLinesJoin(Strip(oracle(ReferencesRequest(summary)).content));
  }

  /** A successful reply gives one reference per non-blank line: none of
      them is blank or holds a line break. A blank reply gives none. */
  lemma ReferencesShape(summary: string, oracle: Oracle)
    requires oracle(ReferencesRequest(summary)).Text?
    ensures forall i :: 0 <= i < |GenerateReferences(summary, oracle)| ==>
              !Blank(GenerateReferences(summary, oracle)[i])
              && forall k :: 0 <= k < |GenerateReferences(summary, oracle)[i]| ==> !IsLineBreak(GenerateReferences(summary, oracle)[i][k])
    ensures Blank(oracle(ReferencesRequest(summary)).content) ==> GenerateReferences(summary, oracle) == []
  {
    var lines := SplitLines(Strip(oracle(ReferencesRequest(summary)).content));
    var r := NonBlankLines(lines);
    forall i | 0 <= i < |r|
      ensures forall k :: 0 <= k < |r[i]| ==> !IsLineBreak(r[i][k])
    {
      var m :| 0 <= m < |lines| && lines[m] == r[i];
    }
  }

  /** `{"organ": "unknown", "labels": []}`. */
  const Unknown: Object := map["organ" := Str("unknown"), "labels" := List([])]

  /** The default filling: "organ" and "labels" are added when missing and
      nothing already there changes. */
  function WithDefaults(data: Object): (r: Object)
    ensures r.Keys == data.Keys + {"organ", "labels"}
    ensures forall k :: k in data ==> r[k] == data[k]
    ensures "organ" !in data ==> r["organ"] == Str("unknown")
    ensures "labels" !in data ==> r["labels"] == List([])
  {
    var d := if "organ" !in data then data["organ" := Str("unknown")] else data;
    if "labels" !in d then d["labels" := List([])] else d
  }

  /** `identify_organ` (its second definition, the one in effect): the image
      file must be readable, the model's reply is sanitised and parsed, and
      any failure gives the unknown organ. `files` are the readable paths. */
  function IdentifyOrgan(imagePath: string, files: set<string>, oracle: Oracle, parse: Parser): (r: Object)
    ensures "organ" in r && "labels" in r
    ensures imagePath !in files ==> r == Unknown
    ensures imagePath in files && !oracle(VisionRequest(imagePath)).Text? ==> r == Unknown
    ensures imagePath in files && oracle(VisionRequest(imagePath)).Text? ==>
              match parse(ExtractJsonObject(oracle(VisionRequest(imagePath)).content))
              case None => r == Unknown
              case Some(data) => r == WithDefaults(data)
  {
    if imagePath !in files then Unknown
    else
      match oracle(VisionRequest(imagePath))
      case Text(content) =>
        (match parse(ExtractJsonObject(content))
         case None => Unknown
         case Some(data) => WithDefaults(data))
      case _ => Unknown
  }

  /** Whatever the model and the parser do, the values the source's callers
      read under "organ" and "labels" are those of the parsed object when it
      has them, and the unknown defaults otherwise. */
  lemma IdentifyKeepsParsedValues(imagePath: string, files: set<string>, oracle: Oracle, parse: Parser, data: Object)
    requires imagePath in files && oracle(VisionRequest(imagePath)).Text?
    requires parse(ExtractJsonObject(oracle(VisionRequest(imagePath)).content)) == Some(data)
    ensures IdentifyOrgan(imagePath, files, oracle, parse)["organ"] == if "organ" in data then data["organ"] else Str("unknown")
    ensures IdentifyOrgan(imagePath, files, oracle, parse)["labels"] == if "labels" in data then data["labels"] else List([])
  {
  }

  /** The result of `identify_organ_with_static_image`. */
  datatype OrganMatch = OrganMatch(organ: Value, labels: Value, staticImagePath: Option<string>)

  /** `identify_organ_with_static_image`: the organ the model names and the
      static image it resolves to, or the failure of the lookup. */
  function IdentifyOrganWithStaticImage(imagePath: string, organDir: string, files: set<string>, oracle: Oracle, parse: Parser)
    : (r: Result<OrganMatch, Fault>)
    ensures var organ := IdentifyOrgan(imagePath, files, oracle, parse)["organ"];
            r.Err? <==> Truthy(organ) && !organ.Str?
    ensures var info := IdentifyOrgan(imagePath, files, oracle, parse);
            r.Ok? ==> && r.value.organ == info["organ"] && r.value.labels == info["labels"]
                      && Ok(r.value.staticImagePath) == StaticOrganImage(info["organ"], organDir, files)
    ensures r.Ok? && r.value.staticImagePath.Some? ==>
              r.value.staticImagePath.value in files && StartsWith(r.value.staticImagePath.value, organDir)
    ensures imagePath !in files ==> r == Ok(OrganMatch(Str("unknown"), List([]), None))
    ensures imagePath in files && !oracle(VisionRequest(imagePath)).Text? ==>
              r == Ok(OrganMatch(Str("unknown"), List([]), None))
  {
    var info := IdentifyOrgan(imagePath, files, oracle, parse);
    StaticImageUnderOrganDir(info["organ"], organDir, files);
    UnknownHasNoImage(organDir, files);
    match StaticOrganImage(info["organ"], organDir, files)
    case Ok(path) => Ok(OrganMatch(info["organ"], info["labels"], path))
    case Err(e) => Err(e)
  }
}
