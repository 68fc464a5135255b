# EduVision core, modelled in Dafny

EduVision is a small web service for doctors. It takes an uploaded medical
PDF, extracts the text and the embedded images, and asks a hosted language
model for a summary. On request it also asks for a translation, a longer
explanation or a list of references, and caches each answer in an in-memory
session record. It can also send every stored image to a vision model, then
map the organ the model names to one of the static anatomical pictures
shipped with the service.

This project models the three core files:

- `app/ai_utils.py`, the language-model wrappers and the static-image lookup;
- `app/main.py`, the HTTP handlers over the session store;
- `app/pdf_utils.py`, saving the upload and extracting its text and images.

It proves what those files promise about their results and about the state
they leave behind.

Modules, one per concern, in dependency order:

- `Wrappers`: `Option` and `Result`.
- `Text`: the CPython `str` operations the code relies on:
  - `strip` with CPython's whitespace set;
  - `startswith`, `endswith`, `find`, `rfind` and substring `in`;
  - `splitlines`, `join`, split on one character;
  - ASCII `lower`;
  - `str(n)`.
- `Json`: a decoded JSON value with Python truthiness.
- `Paths`: POSIX `os.path.join` and `os.path.relpath` for a path under the
  start directory.
- `Storage`: the file system as a `Disk` object mapping each existing path to
  its size in bytes.
- `Pdf`: `save_upload`, `extract_text` and `extract_images`, over a document
  given as its pages. Each page has its extracted text and the sizes of its
  images.
- `Sanitizer`: `_extract_json_object`.
- `Organs`: the synonym table and `get_static_organ_image`.
- `Inference`: every model call.
  - The language model is an *oracle*: a function from the request a wrapper
    makes to the reply it gets. A reply is message text, a connection error
    or any other failure.
  - A different oracle is passed to each call, so no property relies on the
    model answering twice alike.
  - `json.loads` is an abstract parser argument.
- `Urls`: `to_original_url` and `to_organ_url`.
- `Sessions`: the handlers.
  - A `Server` class holds the session store `SESSION_DATA` as a map field,
    plus the `Disk` it writes to. Each handler is a method that updates them.
  - A response is a JSON body (`Success`), the 404 for an unknown session
    (`InvalidSession`), or an exception escaping the handler (`ServerError`).

The static-image lookup is stated twice:

- once for any ordered table (`Organs.ResolveIn`, `Organs.StaticImageIn`);
- once for the source's own 35-entry table (`Organs.Catalog`).

All properties proved about the former hold for the latter.

## Model

| member | source | states |
|---|---|---|
| Inference.Truncate | app/ai_utils.py:30-31 | the text sent is a prefix of the input of at most 12000 characters: the whole input when it is short enough, exactly 12000 characters otherwise |
| Inference.TruncateShort | app/ai_utils.py:30-31 | an input of at most 12000 characters reaches the model unchanged |
| Inference.TruncateIgnoresTail | app/ai_utils.py:30-31 | characters past position 12000 never reach the prompt |
| Inference.CannedTextsAreErrors | app/ai_utils.py:46-148 | every canned failure text of the summary, translation, details and references wrappers starts with "Error:" |
| Inference.SummarizeText | app/ai_utils.py:28-51 | the model sees the truncated text; a reply comes back stripped; a connection error and any other failure each give their own canned text |
| Inference.TranslateText | app/ai_utils.py:57-73 | the model sees text, language and context; a reply comes back stripped; a connection error names the language; any other failure gives the translation failure text |
| Inference.GenerateDetailedText | app/ai_utils.py:85-107 | the summary goes in whole and the full text truncated; a reply comes back stripped; each failure gives its canned text |
| Inference.FailuresAreErrorTexts | app/ai_utils.py:28-107 | whenever the model does not answer, the summary, the translation and the details all start with "Error:" |
| Inference.LongInputTailIgnored | app/ai_utils.py:30-87 | for documents of 12000 characters or more, appending text changes neither the summary nor the detailed explanation |
| Inference.GenerateDetailedTextTranslated | app/ai_utils.py:109-122 | details starting with "Error:" are returned unchanged; any other details are translated with the "detailed medical explanation" context |
| Inference.FailedDetailsNotTranslated | app/ai_utils.py:117-119 | after a failed generation the result is the error text, whatever the model would answer to a translation request |
| Inference.NonBlankLines | app/ai_utils.py:142 | the kept lines are all non-blank lines of the input and only those |
| Inference.NonBlankLinesConcat | app/ai_utils.py:142 | the line filter keeps order: filtering a concatenation concatenates the filtered parts |
| Inference.TranslateSummary | app/ai_utils.py:76-77 | the summary is translated in the "medical summary" context: a reply comes back stripped, and any failure gives a text starting with "Error:" |
| Inference.GenerateReferences | app/ai_utils.py:128-148 | a reply becomes its non-blank lines after stripping and splitting; each failure gives a one-element list with its canned text |
| Inference.ReferencesCoverReply | app/ai_utils.py:141-142 | when the reply breaks lines with "\n" only, its lines joined back give the stripped reply, and the references are the non-blank ones among them |
| Inference.ReferencesShape | app/ai_utils.py:141-142 | no reference is blank or holds a line break, and a blank reply gives none |
| Inference.WithDefaults | app/ai_utils.py:426-429 | "organ" and "labels" are added with their unknown defaults only when missing; every key already present keeps its value |
| Inference.IdentifyOrgan | app/ai_utils.py:364-438 | the result always has "organ" and "labels"; an unreadable image, a failed model call and an unparsable sanitised reply all give the unknown organ; a parsed object gets its defaults filled in |
| Inference.IdentifyKeepsParsedValues | app/ai_utils.py:417-431 | the organ and labels callers read are those of the parsed object when it has them, the unknown defaults otherwise |
| Inference.IdentifyOrganWithStaticImage | app/ai_utils.py:303-325 | it fails exactly when the identified organ is a truthy non-string; otherwise it carries the identified organ and labels and the image the lookup gives, which is an existing file under the organ directory; an image that is not on disk, or a vision call that fails, gives organ "unknown", no labels and no image |
| Sanitizer.FencedSegment | app/ai_utils.py:345-347 | the segment after an opening fence runs up to the next fence, or to the end when there is none, and no fence starts inside it |
| Sanitizer.FencedSegmentSlice | app/ai_utils.py:345-347 | that segment is a contiguous part of the text |
| Sanitizer.Unfenced | app/ai_utils.py:340-349 | a stripped text with neither an opening nor a closing fence passes through unchanged |
| Sanitizer.UnfencedSlice | app/ai_utils.py:340-349 | stripping and fence removal only cut: the result is a contiguous part of the reply |
| Sanitizer.Unfence | app/ai_utils.py:343-349 | a text with neither fence is left alone |
| Sanitizer.UnfenceSlice | app/ai_utils.py:343-349 | fence removal on a stripped text yields a contiguous part of it |
| Sanitizer.OpeningCutSlice | app/ai_utils.py:343-347 | dropping the opening fence yields a contiguous part of the text |
| Sanitizer.ClosingCutSlice | app/ai_utils.py:348-349 | dropping the closing fence yields a contiguous part of the text |
| Sanitizer.BraceTest | app/ai_utils.py:352-355 | the test on `find("{")` and `rfind("}")` succeeds exactly when some `{` precedes some `}` |
| Sanitizer.OutermostObject | app/ai_utils.py:352-358 | when some `{` precedes some `}`, the result runs from the first `{` to the last `}`; otherwise the text is returned |
| Sanitizer.OutermostSlice | app/ai_utils.py:352-358 | the brace span is a contiguous part of the text |
| Sanitizer.ExtractJsonObject | app/ai_utils.py:331-358 | an empty reply gives an empty result; otherwise the outermost brace span of the unfenced reply when there is one, else the unfenced reply |
| Sanitizer.ExtractSlice | app/ai_utils.py:331-358 | the sanitiser never adds characters: its result is a contiguous part of the reply |
| Sanitizer.BracedIsFixedPoint | app/ai_utils.py:331-358 | a text starting with `{` and ending with `}` comes back unchanged |
| Sanitizer.ExtractIdempotent | app/ai_utils.py:331-358 | sanitising a result that found an object changes nothing |
| Sanitizer.ObjectAmidProse | app/ai_utils.py:352-356 | prose before the object without `{` and prose after it without `}` are dropped |
| Sanitizer.SegmentBetweenFences | app/ai_utils.py:345-347 | between two fences with no backquote inside, the segment is exactly the enclosed text |
| Sanitizer.NoClosingFence | app/ai_utils.py:348-349 | a stripped segment without backquotes does not end with a fence |
| Sanitizer.UnfenceFenced | app/ai_utils.py:343-349 | fence removal turns a fenced block into its stripped content |
| Sanitizer.UnfenceBlock | app/ai_utils.py:340-349 | a fenced reply with no backquote inside unfences to its stripped content |
| Sanitizer.BlockObject | app/ai_utils.py:340-356 | a fenced block whose content is a first line without `{` followed by an object yields that object |
| Sanitizer.ExtractAfterUnfencing | app/ai_utils.py:352-356 | once unfencing leaves an object after a prefix without `{`, that object is the result |
| Sanitizer.FencedObject | app/ai_utils.py:331-358 | a reply of the form "```tag", newline, an object, newline, "```" yields exactly the object, for an empty or a non-empty tag |
| Organs.EntryAt | app/ai_utils.py:225-280 | no contract of its own: entry i of the synonym table, key and file as the source writes them, in order; see CatalogKeysDistinct, CatalogFilesRelative, NoKeyInUnknown |
| Organs.Catalog | app/ai_utils.py:225-280 | no contract of its own: the 35 entries as a sequence in the source's order; see CatalogKeysDistinct, ExactKeyResolves |
| Organs.Normalize | app/ai_utils.py:222 | no contract of its own: `organ.lower().strip()`; see NormalizePadded, NormalizeTrimmed, NormalizeLowered |
| Organs.FirstKeyEqual | app/ai_utils.py:284-286 | the index of the first entry whose key equals the label, and no entry before it has that key |
| Organs.FirstKeyWithin | app/ai_utils.py:287-292 | the index of the first entry whose key occurs in the label, and no earlier key does |
| Organs.ResolveIn | app/ai_utils.py:282-292 | an exact key gives its file; otherwise the first key contained in the label gives its file; there is no file exactly when no key occurs in the label |
| Organs.ResolveFilename | app/ai_utils.py:282-292 | no contract of its own: the resolution over the source's table; see ExactKeyResolves, HumanHeartExample |
| Organs.StaticImageIn | app/ai_utils.py:213-298 | a falsy organ gives no image; a truthy non-string raises; a string is normalised and resolved; an image is returned exactly when the resolved file exists under the organ directory, and then it is that path |
| Organs.StaticOrganImage | app/ai_utils.py:213-298 | no contract of its own: the lookup over the source's table; see StaticImageIn, StaticImageUnderOrganDir, UnknownHasNoImage, GetStaticOrganImage |
| Organs.GetStaticOrganImage | app/ai_utils.py:213-298 | the exact lookup followed by the ordered scan computes the lookup over the source's table |
| Organs.ScanForKey | app/ai_utils.py:287-292 | the loop with its `break` returns the file of the first key contained in the label, or none |
| Organs.CatalogKeysDistinct | app/ai_utils.py:225-280 | no key of the synonym table is written twice, so the dictionary keeps all 35 entries |
| Organs.ExactKeyResolvesIn | app/ai_utils.py:284-286 | a label equal to a key with no equal key before it resolves to that key's file, whichever keys it also contains |
| Organs.ExactKeyResolves | app/ai_utils.py:225-286 | every key of the source's table resolves to its own file |
| Organs.NormalizePadded | app/ai_utils.py:222 | surrounding whitespace does not change the normal form |
| Organs.NormalizeTrimmed | app/ai_utils.py:222 | a label without surrounding whitespace normalises to its lower case |
| Organs.NormalizeLowered | app/ai_utils.py:222 | lowering first does not change the normal form |
| Organs.SameNormalFormSameImage | app/ai_utils.py:219-298 | two non-empty labels with the same normal form get the same image |
| Organs.LookupIgnoresCaseAndPadding | app/ai_utils.py:219-298 | the image for a label does not depend on its surrounding whitespace or its case |
| Organs.CatalogFilesRelative | app/ai_utils.py:225-280 | every file name of the table is non-empty and relative |
| Organs.StaticImageUnderOrganDir | app/ai_utils.py:294-298 | an image found by the lookup is an existing file inside the organ directory |
| Organs.NoKeyInUnknown | app/ai_utils.py:225-292 | no key of the table occurs in the label "unknown" |
| Organs.UnknownHasNoImage | app/ai_utils.py:219-298 | the label "unknown" has no static image, whatever files exist |
| Organs.HumanHeartExample | app/ai_utils.py:287-292 | "human heart" is not a key and resolves to heart.jpg by the substring scan |
| Organs.NotAKey | app/ai_utils.py:284-286 | "human heart" does not take the exact-match branch |
| Paths.PathJoin | app/pdf_utils.py:10 | an absolute second part replaces the first; otherwise the result ends with the second part and starts with the first, joined by one `/` when needed |
| Paths.PathJoinInjective | app/pdf_utils.py:39-42 | joining relative names under one directory keeps different names apart |
| Paths.RelPath | app/main.py:46 | a path under the start directory loses exactly the directory and its `/`; any other path is unchanged |
| Paths.RelPathOfJoin | app/main.py:46 | taking the directory off a name joined under it gives back the name |
| Urls.ForwardSlashes | app/main.py:46 | every backslash becomes `/` and nothing else changes |
| Urls.ForwardSlashesUnchanged | app/main.py:46 | a path without backslashes is left alone |
| Urls.ToOriginalUrl | app/main.py:45-47 | the URL is under `/files/` and has no backslash |
| Urls.ToOrganUrl | app/main.py:57-61 | there is no URL exactly when there is no path or it is empty; a URL is under `/organs/` and has no backslash |
| Urls.OriginalUrlOfJoin | app/main.py:45-47 | an upload saved under the upload directory is served at `/files/` followed by its name |
| Urls.OrganUrlOfJoin | app/main.py:57-61 | a static picture under the organ directory is served at `/organs/` followed by its file name |
| Storage.Disk.Write | app/pdf_utils.py:11-12 | writing creates or replaces exactly one file |
| Storage.Disk.Remove | app/main.py:85 | removing deletes exactly one existing file |
| Storage.WriteAll | app/pdf_utils.py:31-44 | no contract of its own: the disk after writing each path with its size in turn; see WriteAllKeys, WriteAllOthers, WriteAllValues, WriteAllContents |
| Storage.WriteAllKeys | app/pdf_utils.py:31-44 | writing a list of files adds exactly those paths |
| Storage.WriteAllOthers | app/pdf_utils.py:31-44 | files that are not written keep their size |
| Storage.WriteAllValues | app/pdf_utils.py:31-44 | with distinct paths, each written path holds what was written to it |
| Storage.WriteAllContents | app/pdf_utils.py:31-44 | with distinct paths, exactly the written paths are added, each holds its own content, and every other file is untouched |
| Pdf.SaveUpload | app/pdf_utils.py:7-13 | the upload is written under the upload directory at the returned path and nothing else changes |
| Pdf.PageText | app/pdf_utils.py:20 | a page without extractable text contributes "" |
| Pdf.PageTexts | app/pdf_utils.py:18-21 | one text per page, in page order |
| Pdf.ExtractText | app/pdf_utils.py:15-22 | the loop returns the page texts joined with newlines, and "" for a document without pages |
| Pdf.PagesRecoverable | app/pdf_utils.py:15-22 | when no page text holds a newline, splitting the result at newlines gives back every page's text, empty pages included, in order |
| Pdf.SessionImageDir | app/pdf_utils.py:27 | no contract of its own: the `images` directory of the session under the upload directory; see ImagePaths |
| Pdf.PageSlots | app/pdf_utils.py:34 | the images of a page are visited by index from 0 |
| Pdf.SlotsEnumerate | app/pdf_utils.py:31-34 | the two loops visit every image of the document exactly once, strictly in page-then-index order |
| Pdf.Slots | app/pdf_utils.py:31-34 | no contract of its own: the images in visiting order, page by page; see SlotsEnumerate |
| Pdf.ImageName | app/pdf_utils.py:39-42 | the file name starts with "page" and ends with ".png"; see ImageNameInjective |
| Pdf.ImageNameInjective | app/pdf_utils.py:39-42 | different images get different `page{p}_img{i}.png` names |
| Pdf.ImagePaths | app/pdf_utils.py:39-44 | one path per visited image, in visiting order, under the session's image directory |
| Pdf.ImageSizes | app/pdf_utils.py:43 | one saved size per visited image, in visiting order |
| Pdf.ExtractImages | app/pdf_utils.py:24-47 | every image is saved under the session's image directory, and its path returned, in visiting order |
| Pdf.SavePageImages | app/pdf_utils.py:33-45 | the inner loop saves and lists the images of one page after those of earlier pages |
| Pdf.ImagePathsDistinct | app/pdf_utils.py:39-44 | no two images of a document are saved under the same path |
| Pdf.ExtractedImagesSaved | app/pdf_utils.py:24-47 | extraction leaves one file per image, holding that image's size, and every other file as it was |
| Text.LStrip | app/ai_utils.py:340 | the result is a suffix of the input with only whitespace cut off before it and no leading whitespace |
| Text.RStrip | app/ai_utils.py:340 | the result is a prefix of the input with only whitespace cut off after it and no trailing whitespace |
| Text.Strip | app/ai_utils.py:340 | the result has no surrounding whitespace, and it is empty exactly when the input is blank |
| Text.StripSlice | app/ai_utils.py:340 | stripping yields a contiguous part of the input |
| Text.StripPadded | app/ai_utils.py:340 | stripping a trimmed text padded with whitespace gives back the text |
| Text.StripUnchanged | app/ai_utils.py:340 | a text without surrounding whitespace is its own strip |
| Text.FindChar | app/ai_utils.py:352 | -1 when the character is absent, otherwise the index of its first occurrence |
| Text.RFindChar | app/ai_utils.py:353 | -1 when the character is absent, otherwise the index of its last occurrence |
| Text.FindSub | app/ai_utils.py:345 | the index of the first occurrence of the pattern, or none when it does not occur |
| Text.SplitLines | app/ai_utils.py:142 | no line holds a line break, and there are no lines exactly for the empty text |
| Text.SplitLinesJoin | app/ai_utils.py:142 | for a text whose only line break is "\n" and that does not end with one, joining the lines with "\n" gives the text back |
| Text.SplitLinesSingle | app/ai_utils.py:142 | a non-empty text without line breaks is one line |
| Text.Join | app/pdf_utils.py:22 | joining no parts gives "" and joining one part gives that part |
| Text.SplitJoin | app/pdf_utils.py:22 | splitting a newline-join at the separator gives back the parts when none holds it |
| Text.Lower | app/ai_utils.py:222 | the length is kept and each ASCII capital is lowered |
| Text.LowerIdempotent | app/ai_utils.py:222 | lowering twice is lowering once |
| Text.Decimal | app/pdf_utils.py:41 | the decimal numeral of a natural is non-empty and all digits |
| Text.DecimalRoundTrip | app/pdf_utils.py:41 | reading a numeral back gives the number |
| Text.DecimalInjective | app/pdf_utils.py:41 | different numbers have different numerals |
| Sessions.NewSession | app/main.py:90-99 | a fresh record keeps the path, text, summary and kept images, with empty translations and labels and no details or references |
| Sessions.FilterStep | app/main.py:78-88 | one pass of the loop body either keeps its path or not, never adds a file, and touches no file but its own path |
| Sessions.FilterImages | app/main.py:77-88 | the filter loop over a list keeps at most one path per listed path and never adds a file; see FilterDistinct, FilterWritten |
| Sessions.LargeImages | app/main.py:77-88 | the kept list holds exactly the listed paths whose file exists and is over 1024 bytes |
| Sessions.LargeImagesShorter | app/main.py:77-88 | the selection is never longer than the listed paths |
| Sessions.LargeImagesConcat | app/main.py:77-88 | the selection distributes over concatenation; with LargeImagesShorter and the membership clauses of LargeImages this fixes it to keep each large listed path once per listing, in order |
| Sessions.FilterDistinct | app/main.py:77-88 | for distinct paths the loop keeps exactly the large files in order, deletes exactly the small ones, and skips the missing ones |
| Sessions.KeepLargeImages | app/main.py:77-88 | the loop computes the filter on the disk it is given |
| Sessions.FilterWritten | app/main.py:74-88 | for freshly written distinct paths, a path is kept exactly when over 1024 bytes were written to it, the small ones are gone, and other files are untouched |
| Sessions.UploadKeepsLargeImages | app/main.py:74-94 | the upload keeps exactly the extracted images over 1024 bytes, in document order, deletes the others and leaves every other file as it was |
| Sessions.TranslationStep | app/main.py:122-124 | no contract of its own: how a translation request updates a record; see TranslationStored, TranslationCached |
| Sessions.TranslationStored | app/main.py:122-124 | after a request the language's translation is stored and returned, earlier translations are kept, and nothing else in the record changes |
| Sessions.TranslationCached | app/main.py:122-124 | a second request for a language returns the stored text, whatever the model would answer, and changes nothing |
| Sessions.DetailsStep | app/main.py:133-134 | after the details handler the details slot always holds a value |
| Sessions.DetailsCached | app/main.py:133-134 | filled details are returned as stored, whatever the model would answer |
| Sessions.DetailsErrorSticks | app/main.py:133-134 | a failed generation stores an "Error:" text that every later request returns |
| Sessions.EmptyDetailsRecomputed | app/main.py:133-134 | details that strip to "" are stored as "" and generated again on the next request |
| Sessions.DetailsStepFrame | app/main.py:133-134 | only the details slot of the record changes |
| Sessions.ReferencesStep | app/main.py:163-164 | after the references handler the slot always holds a list |
| Sessions.ReferencesStepFrame | app/main.py:163-164 | only the references slot of the record changes |
| Sessions.ReferencesCached | app/main.py:163-164 | a non-empty stored list is returned as stored |
| Sessions.ReferencesErrorSticks | app/main.py:163-164 | a failure stores a one-line "Error:" list that is then kept |
| Sessions.EmptyReferencesRecomputed | app/main.py:163-164 | a reply without a non-blank line stores [] and is asked for again |
| Sessions.Status | app/main.py:200-202 | "ok" exactly when there is a non-empty image path, otherwise "not_found" |
| Sessions.LabelOne | app/main.py:186-204 | no contract of its own: the entry for one image, or the lookup's failure; see LabelOneShape, LabelImage |
| Sessions.LabelOneShape | app/main.py:186-204 | an entry carries the image URL, the organ, the labels and the static image; its status is "ok" exactly when it has an image, and then it has an image URL; labelling fails exactly when the lookup does |
| Sessions.MapAll | app/main.py:184-204 | one result per element in order, each that element's own result; the whole fails exactly when some element fails |
| Sessions.LabelAll | app/main.py:182-206 | no contract of its own: the entries for all stored images, or the first failure; see LabelAllPointwise, LabelEachLoop |
| Sessions.LabelAllPointwise | app/main.py:182-206 | labelling succeeds exactly when every image can be labelled, and then entry k is image k's entry |
| Sessions.LabelImage | app/main.py:186-204 | the loop body computes one image's entry or its failure |
| Sessions.LabelEachLoop | app/main.py:182-206 | the loop computes the entries of all images in order, or stops at the first failure |
| Sessions.IdentifyOrganImage | app/main.py:229-243 | on success the organ, labels and detailed image are those the identification gives, and the detailed image is an existing file under the organ directory; the status is "ok" exactly when there is a detailed image, and then there is a URL; the original URL is under the upload mount; the handler fails exactly when the lookup does |
| Sessions.SingleImagePath | app/main.py:220-225 | a single upload is saved under `single_images` with its extension, or ".png" when there is none |
| Sessions.Server.constructor | app/main.py:42 | the store starts empty |
| Sessions.Server.Upload | app/main.py:64-105 | the PDF is saved; an unreadable document fails after that, with the store unchanged; otherwise the images are extracted and filtered, one new record holds the text, the summary and the kept images, and the reply counts the kept images |
| Sessions.Server.GetSummary | app/main.py:108-113 | an unknown session gives the 404, a known one its stored summary |
| Sessions.Server.GetTranslation | app/main.py:116-124 | an unknown session gives the 404 and changes nothing; otherwise the translation is cached for the language and returned |
| Sessions.Server.GetDetails | app/main.py:127-135 | an unknown session gives the 404 and changes nothing; otherwise the details are filled if needed and returned |
| Sessions.Server.TranslateDetails | app/main.py:138-154 | the details are filled as in the details handler, then translated with the summary context; the translation is not stored |
| Sessions.Server.EnsureDetails | app/main.py:144-146 | the details are generated only when the slot is not filled, stored, and returned |
| Sessions.Server.GetReferences | app/main.py:157-165 | an unknown session gives the 404 and changes nothing; otherwise the references are filled if needed and returned |
| Sessions.Server.GetImages | app/main.py:168-173 | an unknown session gives the 404, a known one its stored images and labels |
| Sessions.Server.LabelImages | app/main.py:176-209 | an unknown session gives the 404; a failed lookup aborts with the store unchanged; otherwise the record's labels are replaced by one entry per stored image, in order, and returned |
| Sessions.Server.IdentifyUploadedImage | app/main.py:211-243 | the upload is written as `single_images/<id><ext>` and then identified against the files as they are after that write |

## Left out

- The Azure OpenAI client, the prompts and the deployment names are not
  modelled. Each call is an oracle argument: the oracle sees every input a
  prompt embeds, and its reply is the message text or one of the two
  failure kinds.
- A reply whose content is missing (`None`) is treated as the general
  failure. In the text wrappers `None.strip()` raises and is caught. In
  `identify_organ` the empty string fails to parse. Both end where the
  general failure does.
- The list form of the vision reply's content is joined into one text by
  the source; the model takes the joined text as the reply. Base64 encoding
  of the image is not modelled; the image path stands for the image.
- The first definition of `identify_organ` (app/ai_utils.py:154-207) is
  shadowed by the second and is never called; only the second is modelled.
- Inference.IdentifyOrgan: `json.loads` is an abstract parser returning the
  decoded top-level object or nothing. Numbers, booleans and nested objects
  are kept only as their truthiness. A top-level array or string
  containing both "organ" and "labels" would be returned as it is by the
  source, and then fail in `.get`. The model folds every non-object top
  level into the unknown organ.
- Text.Lower: lowers ASCII letters only. The synonym table's keys are
  ASCII, but a non-ASCII capital in a label is not lowered.
- Paths.RelPath: only a path lying under the start directory is made
  relative. Every path the source passes lies there; for other paths
  `os.path.relpath` would produce `..` components, which are not modelled.
- CMYK conversion, PNG encoding and the PDF libraries are not modelled. A
  document is its pages' texts and image sizes; an unreadable PDF is the
  absent document.
- Pdf.ExtractImages always succeeds. In the source, `fitz.Pixmap` or
  `pix.save` (app/pdf_utils.py:36-43) can raise partway through, for
  instance on a four-channel CMYK image, which `pix.n > 4` lets through
  unconverted. The upload then fails with a server error, the images
  already saved remain on disk, and no session is stored. The model does
  not capture that partial state.
- Pdf.ExtractText: a page whose `extract_text()` raises
  (app/pdf_utils.py:19-20) aborts the upload in the source. The model
  treats every page of a readable document as giving its text.
- The `print` logging in the handlers of app/ai_utils.py is output only
  and is not modelled.
- FastAPI routing, CORS, the static mounts, request parsing and
  concurrency between requests are not modelled. Each handler runs alone,
  as a method of the server.
- `to_diagram_url` (app/main.py:50-54) has no caller in the core and is not
  modelled.
- `uuid.uuid4()` becomes an identifier argument, as does the extension
  `os.path.splitext` finds. `os.makedirs` is not modelled, because
  directories are implicit on the model's disk.
- `app/config.py` (the directory constants) becomes directory arguments.
  `test_azure_openai.py` is not part of this model.
- The substring scan's order is the dictionary's insertion order. The model
  keeps that order and does not choose a longest match.
