/**
 * The HTTP handlers of app/main.py as sequential operations on the
 * in-memory session store `SESSION_DATA`: upload creates a session record,
 * the other handlers read it and fill its lazily computed slots.
 */
module Sessions {
  import opened Wrappers
  import opened Text
  import opened Json
  import opened Paths
  import opened Storage
  import opened Pdf
  import opened Organs
  import opened Inference
  import opened Urls

  /** One entry of the `labeled` list. */
  datatype LabeledImage = LabeledImage(
    original: string,
    organ: Value,
    labels: Value,
    labeledImage: Option<string>,
    labeledImageUrl: Option<string>,
    status: string)

  /** The record stored per session id. */
  datatype Session = Session(
    pdfPath: string,
    text: string,
    summary: string,
    images: seq<string>,
    translations: map<string, string>,
    details: Option<string>,
    references: Option<seq<string>>,
    labeled: seq<LabeledImage>)

  /** A handler's outcome: its JSON body, the 404 `{"error": "Invalid
      session_id"}`, or an exception that escapes the handler (a 500). */
  datatype Response<T> = Success(body: T) | InvalidSession | ServerError

  datatype UploadReply = UploadReply(sessionId: string, summary: string, imageCount: nat)

  /** Extracted images of at most this many bytes are discarded. */
  const SmallImageLimit: nat := 1024

  /** The record a fresh upload stores. */
  function NewSession(pdfPath: string, text: string, summary: string, images: seq<string>): (s: Session)
    ensures s.images == images && s.translations == map[] && s.details == None
    ensures s.references == None && s.labeled == []
    ensures s.pdfPath == pdfPath && s.text == text && s.summary == summary
  {
    Session(pdfPath, text, summary, images, map[], None, None, [])
  }

  // ---------------------------------------------------------------------
  // The upload image filter
  // ---------------------------------------------------------------------

  /** The kept list and the files, after the filter loop. */
  datatype Filtered = Filtered(kept: seq<string>, files: map<string, nat>)

  /** The filter loop, path by path: a path that cannot be sized is skipped,
      a large one kept, a small one deleted. */
  function FilterImages(files: map<string, nat>, paths: seq<string>): (r: Filtered)
    ensures |r.kept| <= |paths|
    ensures r.files.Keys <= files.Keys
  {
    if paths == [] then Filtered([], files)
    else FilterStep(FilterImages(files, paths[..|paths| - 1]), paths[|paths| - 1])
  }

  /** One pass of the loop body for path `q`. */
  function FilterStep(before: Filtered, q: string): (r: Filtered)
    ensures r.kept == before.kept || r.kept == before.kept + [q]
    ensures r.files.Keys <= before.files.Keys
    ensures forall p :: p in before.files && p != q ==> p in r.files && r.files[p] == before.files[p]
  {
    if q !in before.files then before
    else if before.files[q] > SmallImageLimit then Filtered(before.kept + [q], before.files)
    else Filtered(before.kept, before.files - {q})
  }

  /** A path seen for the first time is kept when large, removed when small
      and skipped when missing. */
  lemma FilterStepFresh(files: map<string, nat>, kept: seq<string>, small: set<string>, q: string)
    requires q !in small
    ensures FilterStep(Filtered(kept, files - small), q)
         == Filtered(if q in files && files[q] > SmallImageLimit then kept + [q] else kept,
                     files - (small + (if q in files && files[q] <= SmallImageLimit then {q} else {})))
  {
    if q in files && files[q] <= SmallImageLimit {
      assert files - small - {q} == files - (small + {q});
    } else {
      assert small + {} == small;
    }
  }

  /** The paths whose file exists and is larger than the limit, in order. */
  function LargeImages(files: map<string, nat>, paths: seq<string>): (r: seq<string>)
    ensures forall k :: 0 <= k < |r| ==> r[k] in paths && r[k] in files && files[r[k]] > SmallImageLimit
    ensures forall q :: q in paths && q in files && files[q] > SmallImageLimit ==> q in r
  {
    if paths == [] then []
    else
      var init := LargeImages(files, paths[..|paths| - 1]);
      var q := paths[|paths| - 1];
      assert forall p :: p in paths <==> p in paths[..|paths| - 1] || p == q;
      if q in files && files[q] > SmallImageLimit then init + [q] else init
  }

  /** The selection is never longer than the list it selects from. With
      the concatenation law below this fixes how often each path is kept:
      a one-element list gives at most itself, and a list is the
      concatenation of its elements. */
  lemma {:induction false} LargeImagesShorter(files: map<string, nat>, paths: seq<string>)
    ensures |LargeImages(files, paths)| <= |paths|
    decreases |paths|
  {
    if paths != [] {
      LargeImagesShorter(files, paths[..|paths| - 1]);
    }
  }

  /** The selection keeps order and multiplicity: it distributes over
      concatenation. */
  lemma {:induction false} LargeImagesConcat(files: map<string, nat>, a: seq<string>, b: seq<string>)
    ensures LargeImages(files, a + b) == LargeImages(files, a) + LargeImages(files, b)
    decreases |b|
  {
    if b == [] {
      assert a + b == a;
    } else {
      var n := |b| - 1;
      assert (a + b)[..|a + b| - 1] == a + b[..n];
      assert (a + b)[|a + b| - 1] == b[n];
      LargeImagesConcat(files, a, b[..n]);
    }
  }

  /** The paths whose file exists and is at most the limit. */
  function SmallImages(files: map<string, nat>, paths: seq<string>): set<string> {
    set q | q in paths && q in files && files[q] <= SmallImageLimit
  }

  /** For distinct paths, the loop keeps exactly the large files in their
      original order, deletes exactly the small ones, and leaves every file
      it cannot size (and every other file) alone. */
  lemma {:induction false} FilterDistinct(files: map<string, nat>, paths: seq<string>)
    requires forall i, j :: 0 <= i < j < |paths| ==> paths[i] != paths[j]
    ensures FilterImages(files, paths).kept == LargeImages(files, paths)
    ensures FilterImages(files, paths).files == files - SmallImages(files, paths)
    decreases |paths|
  {
    if paths != [] {
      var n := |paths| - 1;
      var init := paths[..n];
      var q := paths[n];
      assert forall i, j :: 0 <= i < j < |init| ==> init[i] != init[j] by {
        forall i, j | 0 <= i < j < |init| ensures init[i] != init[j] {
          assert init[i] == paths[i] && init[j] == paths[j];
        }
      }
      FilterDistinct(files, init);
      assert q !in init by {
        forall k | 0 <= k < |init| ensures init[k] != q {
          assert init[k] == paths[k];
        }
      }
      assert paths == init + [q];
      FilterSnocFresh(files, init, q);
    }
  }

  /** One more path, not seen before, extends the filter as the
      specification does. */
  lemma FilterSnocFresh(files: map<string, nat>, init: seq<string>, q: string)
    requires FilterImages(files, init).kept == LargeImages(files, init)
    requires FilterImages(files, init).files == files - SmallImages(files, init)
    requires q !in init
    ensures FilterImages(files, init + [q]).kept == LargeImages(files, init + [q])
    ensures FilterImages(files, init + [q]).files == files - SmallImages(files, init + [q])
  {
    var p := init + [q];
    assert p[..|p| - 1] == init;
    assert p[|p| - 1] == q;
    SmallImagesSnoc(files, init, q);
    assert q !in SmallImages(files, init);
    FilterStepFresh(files, LargeImages(files, init), SmallImages(files, init), q);
  }

  lemma SmallImagesSnoc(files: map<string, nat>, init: seq<string>, q: string)
    ensures SmallImages(files, init + [q])
         == SmallImages(files, init) + (if q in files && files[q] <= SmallImageLimit then {q} else {})
  {
    assert forall p :: p in init + [q] <==> p in init || p == q;
  }

  /** The loop of `upload_pdf` over the extracted paths. */
  method KeepLargeImages(disk: Disk, paths: seq<string>) returns (kept: seq<string>)
    modifies disk
    ensures kept == FilterImages(old(disk.files), paths).kept
    ensures disk.files == FilterImages(old(disk.files), paths).files
  {
    kept := [];
    for i := 0 to |paths|
      invariant FilterImages(old(disk.files), paths[..i]) == Filtered(kept, disk.files)
    {
      var q := paths[i];
      assert paths[..i + 1][..i] == paths[..i];
      if q in disk.files {
        if disk.files[q] > SmallImageLimit {
          kept := kept + [q];
        } else {
          disk.Remove(q);
        }
      }
    }
    assert paths[..|paths|] == paths;
  }

  /** Filtering freshly written distinct paths: a path is kept exactly when
      what was written to it is larger than the limit, the small ones are
      gone afterwards, and every other file is left as it was. */
  lemma FilterWritten(files: map<string, nat>, paths: seq<string>, sizes: seq<nat>)
    requires |paths| == |sizes|
    requires forall i, j :: 0 <= i < j < |paths| ==> paths[i] != paths[j]
    ensures var w := WriteAll(files, paths, sizes);
            var f := FilterImages(w, paths);
            && f.kept == LargeImages(w, paths)
            && (forall k :: 0 <= k < |paths| ==> (paths[k] in f.kept <==> sizes[k] > SmallImageLimit))
            && (forall k :: 0 <= k < |paths| && sizes[k] <= SmallImageLimit ==> paths[k] !in f.files)
            && (forall q :: q in files && q !in paths ==> q in f.files && f.files[q] == files[q])
  {
    var w := WriteAll(files, paths, sizes);
    WriteAllContents(files, paths, sizes);
    FilterDistinct(w, paths);
    var f := FilterImages(w, paths);
    forall k | 0 <= k < |paths|
      ensures paths[k] in f.kept <==> sizes[k] > SmallImageLimit
    {
      WriteAllValues(files, paths, sizes, k);
    }
    forall k | 0 <= k < |paths| && sizes[k] <= SmallImageLimit
      ensures paths[k] !in f.files
    {
      WriteAllValues(files, paths, sizes, k);
      assert paths[k] in SmallImages(w, paths);
    }
    forall q | q in files && q !in paths
      ensures q in f.files && f.files[q] == files[q]
    {
      WriteAllOthers(files, paths, sizes, q);
      assert q !in SmallImages(w, paths);
    }
  }

  /** What the upload keeps of the images it extracts from `doc` into `dir`
      on top of `files`: exactly the images larger than the limit, in
      document order; the small ones are deleted and every file that is
      not an extracted image is left as it was. */
  lemma UploadKeepsLargeImages(files: map<string, nat>, dir: string, doc: Document)
    ensures var extracted := ImagePaths(dir, Slots(doc));
            var f := FilterImages(WriteAll(files, extracted, ImageSizes(doc, Slots(doc))), extracted);
            && f.kept == LargeImages(WriteAll(files, extracted, ImageSizes(doc, Slots(doc))), extracted)
            && (forall k :: 0 <= k < |extracted| ==>
                  (extracted[k] in f.kept <==> ImageSize(doc, Slots(doc)[k]) > SmallImageLimit))
            && (forall k :: 0 <= k < |extracted| && ImageSize(doc, Slots(doc)[k]) <= SmallImageLimit ==>
                  extracted[k] !in f.files)
            && (forall q :: q in files && q !in extracted ==> q in f.files && f.files[q] == files[q])
  {
    ImagePathsDistinct(dir, doc);
    FilterWritten(files, ImagePaths(dir, Slots(doc)), ImageSizes(doc, Slots(doc)));
  }

  // ---------------------------------------------------------------------
  // Lazily filled slots
  // ---------------------------------------------------------------------

  /** How `get_translation` updates a record: a cached language is returned
      as stored; otherwise the summary is translated and cached. */
  function TranslationStep(s: Session, language: string, oracle: Oracle): (r: (Session, string))
  {
    if language in s.translations then (s, s.translations[language])
    else
      var t := TranslateSummary(s.summary, language, oracle);
      (s.(translations := s.translations[language := t]), t)
  }

  /** After a request for a language, its translation is stored and
      returned; nothing else in the record changes. */
  lemma TranslationStored(s: Session, language: string, oracle: Oracle)
    ensures var (s', t) := TranslationStep(s, language, oracle);
            && language in s'.translations && s'.translations[language] == t
            && s' == s.(translations := s'.translations)
            && (forall l :: l in s.translations ==> l in s'.translations && s'.translations[l] == s.translations[l])
            && s'.translations.Keys == s.translations.Keys + {language}
  {
  }

  /** A second request for the same language returns the stored value,
      whatever the model would answer now, and changes nothing. */
  lemma TranslationCached(s: Session, language: string, o1: Oracle, o2: Oracle)
    ensures var (s', t) := TranslationStep(s, language, o1);
            TranslationStep(s', language, o2) == (s', t)
  {
  }

  /** A slot of `details` is filled exactly when it holds a non-empty string
      (`not data["details"]` is true for None and for ""). */
  predicate DetailsFilled(details: Option<string>) {
    details.Some? && details.value != []
  }

  /** `get_details` on a record: the details are generated only when the
      slot is not filled, and stored whatever they are. */
  function DetailsStep(s: Session, oracle: Oracle): (r: Session)
    ensures r.details.Some?
  {
    if DetailsFilled(s.details) then s
    else s.(details := Some(GenerateDetailedText(s.summary, s.text, oracle)))
  }

  /** A filled slot is returned as it is, whatever the model would answer;
      that includes an "Error:" text stored by an earlier failure. */
  lemma DetailsCached(s: Session, oracle: Oracle)
    requires DetailsFilled(s.details)
    ensures DetailsStep(s, oracle) == s
  {
  }

  /** A failed generation leaves an "Error:" text in the slot, which every
      later request then returns instead of asking again. */
  lemma DetailsErrorSticks(s: Session, o1: Oracle, o2: Oracle)
    requires !DetailsFilled(s.details)
    requires !o1(DetailsRequest(s.summary, Truncate(s.text))).Text?
    ensures IsErrorText(DetailsStep(s, o1).details.value)
    ensures DetailsStep(DetailsStep(s, o1), o2) == DetailsStep(s, o1)
  {
    FailuresAreErrorTexts(s.text, s.summary, "", "", o1);
    var v := DetailsStep(s, o1).details.value;
    assert v[..6] == "Error:";
  }

  /** A model reply that is empty after stripping is stored as "" and so
      generated again on the next request. */
  lemma EmptyDetailsRecomputed(s: Session, o1: Oracle, o2: Oracle)
    requires !DetailsFilled(s.details)
    requires o1(DetailsRequest(s.summary, Truncate(s.text))).Text?
    requires Blank(o1(DetailsRequest(s.summary, Truncate(s.text))).content)
    ensures DetailsStep(s, o1).details == Some("")
    ensures DetailsStep(DetailsStep(s, o1), o2).details == Some(GenerateDetailedText(s.summary, s.text, o2))
  {
  }

  /** Only the details slot changes. */
  lemma DetailsStepFrame(s: Session, oracle: Oracle)
    ensures DetailsStep(s, oracle) == s.(details := DetailsStep(s, oracle).details)
  {
  }

  /** `not data["references"]` is true for None and for []. */
  predicate ReferencesFilled(references: Option<seq<string>>) {
    references.Some? && references.value != []
  }

  /** `get_refs` on a record. */
  function ReferencesStep(s: Session, oracle: Oracle): (r: Session)
    ensures r.references.Some?
  {
    if ReferencesFilled(s.references) then s
    else s.(references := Some(GenerateReferences(s.summary, oracle)))
  }

  /** Only the references slot of the record can change. */
  lemma ReferencesStepFrame(s: Session, oracle: Oracle)
    ensures ReferencesStep(s, oracle) == s.(references := ReferencesStep(s, oracle).references)
  {
  }

  lemma ReferencesCached(s: Session, oracle: Oracle)
    requires ReferencesFilled(s.references)
    ensures ReferencesStep(s, oracle) == s
  {
  }

  /** A failure stores a one-line error list, which is then kept. */
  lemma ReferencesErrorSticks(s: Session, o1: Oracle, o2: Oracle)
    requires !ReferencesFilled(s.references)
    requires !o1(ReferencesRequest(s.summary)).Text?
    ensures |ReferencesStep(s, o1).references.value| == 1
    ensures IsErrorText(ReferencesStep(s, o1).references.value[0])
    ensures ReferencesStep(ReferencesStep(s, o1), o2) == ReferencesStep(s, o1)
  {
    CannedTextsAreErrors("");
  }

  /** A reply without a non-blank line stores [] and is asked for again. */
  lemma EmptyReferencesRecomputed(s: Session, o1: Oracle, o2: Oracle)
    requires !ReferencesFilled(s.references)
    requires o1(ReferencesRequest(s.summary)).Text? && Blank(o1(ReferencesRequest(s.summary)).content)
    ensures ReferencesStep(s, o1).references == Some([])
    ensures ReferencesStep(ReferencesStep(s, o1), o2).references == Some(GenerateReferences(s.summary, o2))
  {
    ReferencesShape(s.summary, o1);
  }

  // ---------------------------------------------------------------------
  // Labelling
  // ---------------------------------------------------------------------

  /** `"ok" if static_organ_path else "not_found"`. */
  function Status(path: Option<string>): (r: string)
    ensures r == "ok" <==> path.Some? && path.value != []
    ensures r != "ok" ==> r == "not_found"
  {
    if path.Some? && path.value != [] then "ok" else "not_found"
  }

  /** The entry `label_images` builds for one stored image, or the failure
      that aborts the handler. */
  function LabelOne(image: string, uploadDir: string, organDir: string, files: set<string>, oracle: Oracle, parse: Parser)
    : Result<LabeledImage, Fault>
  {
    var info := IdentifyOrgan(image, files, oracle, parse);
    var organ := info["organ"];
    match StaticOrganImage(organ, organDir, files)
    case Err(e) => Err(e)
    case Ok(path) =>
      Ok(LabeledImage(ToOriginalUrl(image, uploadDir), organ, info["labels"], path, ToOrganUrl(path, organDir), Status(path)))
  }

  /** The entry for an image carries its public URL, the organ and labels
      the vision step found, and the static image the organ resolves to; its
      status is "ok" exactly when there is such an image, and then it has a
      URL too. Labelling fails exactly when the organ lookup does. */
  lemma LabelOneShape(image: string, uploadDir: string, organDir: string, files: set<string>, oracle: Oracle, parse: Parser)
    ensures var r := LabelOne(image, uploadDir, organDir, files, oracle, parse);
            var info := IdentifyOrgan(image, files, oracle, parse);
            && (r.Err? <==> StaticOrganImage(info["organ"], organDir, files).Err?)
            && (r.Ok? ==>
                  && r.value.original == ToOriginalUrl(image, uploadDir)
                  && r.value.organ == info["organ"] && r.value.labels == info["labels"]
                  && Ok(r.value.labeledImage) == StaticOrganImage(info["organ"], organDir, files)
                  && (r.value.status == "ok" <==> r.value.labeledImage.Some?)
                  && (r.value.labeledImageUrl.Some? <==> r.value.labeledImage.Some?))
  {
  }

  /** Applying a step that may fail to each element in order, stopping at
      the first failure. */
  function MapAll<A, B, E>(xs: seq<A>, f: A -> Result<B, E>): (r: Result<seq<B>, E>)
    ensures r.Ok? ==> |r.value| == |xs| && forall k :: 0 <= k < |xs| ==> f(xs[k]) == Ok(r.value[k])
    ensures r.Err? <==> exists k :: 0 <= k < |xs| && f(xs[k]).Err?
  {
    if xs == [] then Ok([])
    else
      var n := |xs| - 1;
      assert forall k :: 0 <= k < n ==> xs[..n][k] == xs[k];
      match MapAll(xs[..n], f)
      case Err(e) => Err(e)
      case Ok(init) =>
        match f(xs[n])
        case Err(e) => Err(e)
        case Ok(entry) =>
          var r := init + [entry];
          assert forall k :: 0 <= k < n ==> r[k] == init[k];
          Ok(r)
  }

  /** One more successful step extends the result by its value. */
  lemma MapAllSnoc<A, B, E>(xs: seq<A>, f: A -> Result<B, E>, i: nat, ys: seq<B>, y: B)
    requires i < |xs| && MapAll(xs[..i], f) == Ok(ys) && f(xs[i]) == Ok(y)
    ensures MapAll(xs[..i + 1], f) == Ok(ys + [y])
  {
    assert xs[..i + 1][..i] == xs[..i];
  }

  /** The first failure is the result. */
  lemma {:induction false} MapAllStops<A, B, E>(xs: seq<A>, f: A -> Result<B, E>, i: nat, e: E)
    requires i < |xs| && MapAll(xs[..i], f).Ok? && f(xs[i]) == Err(e)
    ensures MapAll(xs, f) == Err(e)
    decreases |xs|
  {
    var n := |xs| - 1;
    if i < n {
      assert xs[..n][..i] == xs[..i] && xs[..n][i] == xs[i];
      MapAllStops(xs[..n], f, i, e);
    } else {
      assert xs[..n] == xs[..i];
    }
  }

  /** The labelling loop: one entry per image in order, or the first
      failure. */
  function LabelAll(images: seq<string>, uploadDir: string, organDir: string, files: set<string>, oracle: Oracle, parse: Parser)
    : Result<seq<LabeledImage>, Fault>
  {
    MapAll(images, image => LabelOne(image, uploadDir, organDir, files, oracle, parse))
  }

  /** Labelling succeeds exactly when every image can be labelled, and then
      gives each image its own entry at its own position. */
  lemma LabelAllPointwise(images: seq<string>, uploadDir: string, organDir: string, files: set<string>, oracle: Oracle, parse: Parser)
    ensures var r := LabelAll(images, uploadDir, organDir, files, oracle, parse);
            && (r.Ok? ==> |r.value| == |images|
                          && forall k :: 0 <= k < |images| ==> LabelOne(images[k], uploadDir, organDir, files, oracle, parse) == Ok(r.value[k]))
            && (r.Err? <==> exists k :: 0 <= k < |images| && LabelOne(images[k], uploadDir, organDir, files, oracle, parse).Err?)
  {
  }

  /** The body of that loop for one image: identify it, then look up the
      static image for the organ named. */
  method LabelImage(image: string, uploadDir: string, organDir: string, files: set<string>, oracle: Oracle, parse: Parser)
    returns (r: Result<LabeledImage, Fault>)
    ensures r == LabelOne(image, uploadDir, organDir, files, oracle, parse)
  {
    var info := IdentifyOrgan(image, files, oracle, parse);
    var organ := info["organ"];
    var path := GetStaticOrganImage(organ, organDir, files);
    if path.Err? {
      return Err(path.error);
    }
    r := Ok(LabeledImage(ToOriginalUrl(image, uploadDir), organ, info["labels"], path.value,
                         ToOrganUrl(path.value, organDir), Status(path.value)));
  }

  /** The source's `for img_path in data["images"]` loop. */
  method LabelEachLoop(images: seq<string>, uploadDir: string, organDir: string, files: set<string>, oracle: Oracle, parse: Parser)
    returns (r: Result<seq<LabeledImage>, Fault>)
    ensures r == LabelAll(images, uploadDir, organDir, files, oracle, parse)
  {
    var labelOne := image => LabelOne(image, uploadDir, organDir, files, oracle, parse);
    var outputs: seq<LabeledImage> := [];
    for i := 0 to |images|
      invariant MapAll(images[..i], labelOne) == Ok(outputs)
    {
      var entry := LabelImage(images[i], uploadDir, organDir, files, oracle, parse);
      if entry.Err? {
        MapAllStops(images, labelOne, i, entry.error);
        return Err(entry.error);
      }
      MapAllSnoc(images, labelOne, i, outputs, entry.value);
      outputs := outputs + [entry.value];
    }
    assert images[..|images|] == images;
    r := Ok(outputs);
  }

  // ---------------------------------------------------------------------
  // The single-image endpoint
  // ---------------------------------------------------------------------

  datatype OrganImageReply = OrganImageReply(
    organ: Value,
    labels: Value,
    originalImage: string,
    detailedImage: Option<string>,
    detailedImageUrl: Option<string>,
    status: string)

  /** `identify_organ_image` after the upload is saved at `imagePath`. */
  function IdentifyOrganImage(imagePath: string, uploadDir: string, organDir: string, files: set<string>, oracle: Oracle, parse: Parser)
    : (r: Response<OrganImageReply>)
    ensures r.Success? ==> (r.body.status == "ok" <==> r.body.detailedImage.Some?)
    ensures r.Success? ==> (r.body.detailedImageUrl.Some? <==> r.body.detailedImage.Some?)
    ensures r.Success? ==> r.body.originalImage == ToOriginalUrl(imagePath, uploadDir)
    ensures r.ServerError? <==> IdentifyOrganWithStaticImage(imagePath, organDir, files, oracle, parse).Err?
    ensures !r.InvalidSession?
    ensures r.Success? ==>
              var m := IdentifyOrganWithStaticImage(imagePath, organDir, files, oracle, parse);
              && m.Ok? && r.body.organ == m.value.organ && r.body.labels == m.value.labels
              && r.body.detailedImage == m.value.staticImagePath
    ensures r.Success? && r.body.detailedImage.Some? ==>
              r.body.detailedImage.value in files && StartsWith(r.body.detailedImage.value, organDir)
  {
    match IdentifyOrganWithStaticImage(imagePath, organDir, files, oracle, parse)
    case Err(_) => ServerError
    case Ok(m) =>
      Success(OrganImageReply(m.organ, m.labels, ToOriginalUrl(imagePath, uploadDir), m.staticImagePath,
                         ToOrganUrl(m.staticImagePath, organDir), Status(m.staticImagePath)))
  }

  // ---------------------------------------------------------------------
  // The server
  // ---------------------------------------------------------------------

  datatype Translated = Translated(language: string, text: string)

  datatype ImagesReply = ImagesReply(images: seq<string>, labeled: seq<LabeledImage>)

  /** The application: its directories, the file system it writes to and
      the session store. */
  class Server {
    const uploadDir: string
    const organDir: string
    const disk: Disk
    var sessions: map<string, Session>

    constructor(uploadDir: string, organDir: string, disk: Disk)
      ensures this.uploadDir == uploadDir && this.organDir == organDir && this.disk == disk
      ensures sessions == map[]
    {
      this.uploadDir := uploadDir;
      this.organDir := organDir;
      this.disk := disk;
      sessions := map[];
    }

    /** `upload_pdf`: the upload of `size` bytes named `filename` whose
        content, once opened, is `doc` (None when it cannot be read as a PDF,
        which raises after the upload is saved); `sessionId` is the fresh
        identifier. */
    method Upload(filename: string, size: nat, doc: Option<Document>, sessionId: string, oracle: Oracle)
      returns (r: Response<UploadReply>)
      modifies this, disk
      ensures doc.None? ==> r == ServerError && sessions == old(sessions)
                            && disk.files == old(disk.files)[PathJoin(uploadDir, filename) := size]
      ensures doc.Some? ==>
                var pdfPath := PathJoin(uploadDir, filename);
                var text := Join("\n", PageTexts(doc.value));
                var summary := SummarizeText(text, oracle);
                var extracted := ImagePaths(SessionImageDir(uploadDir, sessionId), Slots(doc.value));
                var written := WriteAll(old(disk.files)[pdfPath := size], extracted, ImageSizes(doc.value, Slots(doc.value)));
                var f := FilterImages(written, extracted);
                && disk.files == f.files
                && sessions == old(sessions)[sessionId := NewSession(pdfPath, text, summary, f.kept)]
                && r == Success(UploadReply(sessionId, summary, |f.kept|))
    {
      var pdfPath := SaveUpload(disk, uploadDir, filename, size);
      if doc.None? {
        return ServerError;
      }
      var text := ExtractText(doc.value);
      var summary := SummarizeText(text, oracle);
      var extracted := ExtractImages(disk, uploadDir, sessionId, doc.value);
      var kept := KeepLargeImages(disk, extracted);
      sessions := sessions[sessionId := NewSession(pdfPath, text, summary, kept)];
      r := Success(UploadReply(sessionId, summary, |kept|));
    }

    /** `get_summary`. */
    method GetSummary(sessionId: string) returns (r: Response<string>)
      ensures sessionId !in sessions ==> r == InvalidSession
      ensures sessionId in sessions ==> r == Success(sessions[sessionId].summary)
    {
      if sessionId !in sessions {
        return InvalidSession;
      }
      r := Success(sessions[sessionId].summary);
    }

    /** `get_translation`. */
    method GetTranslation(sessionId: string, language: string, oracle: Oracle) returns (r: Response<Translated>)
      modifies this
      ensures sessionId !in old(sessions) ==> r == InvalidSession && sessions == old(sessions)
      ensures sessionId in old(sessions) ==>
                var (s, t) := TranslationStep(old(sessions)[sessionId], language, oracle);
                sessions == old(sessions)[sessionId := s] && r == Success(Translated(language, t))
    {
      if sessionId !in sessions {
        return InvalidSession;
      }
      var data := sessions[sessionId];
      if language !in data.translations {
        var t := TranslateSummary(data.summary, language, oracle);
        data := data.(translations := data.translations[language := t]);
        sessions := sessions[sessionId := data];
      }
      r := Success(Translated(language, data.translations[language]));
    }

    /** `get_details`. */
    method GetDetails(sessionId: string, oracle: Oracle) returns (r: Response<string>)
      modifies this
      ensures sessionId !in old(sessions) ==> r == InvalidSession && sessions == old(sessions)
      ensures sessionId in old(sessions) ==>
                var s := DetailsStep(old(sessions)[sessionId], oracle);
                sessions == old(sessions)[sessionId := s] && r == Success(s.details.value)
    {
      if sessionId !in sessions {
        return InvalidSession;
      }
      var details := EnsureDetails(sessionId, oracle);
      r := Success(details);
    }

    /** `translate_details`: the details are made sure of as in `get_details`
        and then translated like a summary; the translation is not stored. */
    method TranslateDetails(sessionId: string, language: string, oracle: Oracle) returns (r: Response<Translated>)
      modifies this
      ensures sessionId !in old(sessions) ==> r == InvalidSession && sessions == old(sessions)
      ensures sessionId in old(sessions) ==>
                var s := DetailsStep(old(sessions)[sessionId], oracle);
                && sessions == old(sessions)[sessionId := s]
                && r == Success(Translated(language, TranslateSummary(s.details.value, language, oracle)))
    {
      if sessionId !in sessions {
        return InvalidSession;
      }
      var details := EnsureDetails(sessionId, oracle);
      r := Success(Translated(language, TranslateSummary(details, language, oracle)));
    }

    /** The `if not data["details"]` block both details handlers share. */
    method EnsureDetails(sessionId: string, oracle: Oracle) returns (details: string)
      requires sessionId in sessions
      modifies this
      ensures var s := DetailsStep(old(sessions)[sessionId], oracle);
              sessions == old(sessions)[sessionId := s] && details == s.details.value
    {
      var data := sessions[sessionId];
      if !DetailsFilled(data.details) {
        data := data.(details := Some(GenerateDetailedText(data.summary, data.text, oracle)));
      }
      sessions := sessions[sessionId := data];
      details := data.details.value;
    }

    /** `get_refs`. */
    method GetReferences(sessionId: string, oracle: Oracle) returns (r: Response<seq<string>>)
      modifies this
      ensures sessionId !in old(sessions) ==> r == InvalidSession && sessions == old(sessions)
      ensures sessionId in old(sessions) ==>
                var s := ReferencesStep(old(sessions)[sessionId], oracle);
                sessions == old(sessions)[sessionId := s] && r == Success(s.references.value)
    {
      if sessionId !in sessions {
        return InvalidSession;
      }
      var data := sessions[sessionId];
      if !ReferencesFilled(data.references) {
        data := data.(references := Some(GenerateReferences(data.summary, oracle)));
      }
      sessions := sessions[sessionId := data];
      r := Success(data.references.value);
    }

    /** `get_images`. */
    method GetImages(sessionId: string) returns (r: Response<ImagesReply>)
      ensures sessionId !in sessions ==> r == InvalidSession
      ensures sessionId in sessions ==>
                r == Success(ImagesReply(sessions[sessionId].images, sessions[sessionId].labeled))
    {
      if sessionId !in sessions {
        return InvalidSession;
      }
      r := Success(ImagesReply(sessions[sessionId].images, sessions[sessionId].labeled));
    }

    /** `label_images`: one entry per stored image, in order, replacing the
        session's earlier labels; a failure while labelling any image aborts
        the handler and leaves the session as it was. */
    method LabelImages(sessionId: string, oracle: Oracle, parse: Parser) returns (r: Response<seq<LabeledImage>>)
      modifies this
      ensures sessionId !in old(sessions) ==> r == InvalidSession && sessions == old(sessions)
      ensures sessionId in old(sessions) ==>
                var l := LabelAll(old(sessions)[sessionId].images, uploadDir, organDir, disk.files.Keys, oracle, parse);
                && (l.Err? ==> r == ServerError && sessions == old(sessions))
                && (l.Ok? ==> r == Success(l.value)
                              && sessions == old(sessions)[sessionId := old(sessions)[sessionId].(labeled := l.value)])
    {
      if sessionId !in sessions {
        return InvalidSession;
      }
      var data := sessions[sessionId];
      var outputs := LabelEachLoop(data.images, uploadDir, organDir, disk.files.Keys, oracle, parse);
      if outputs.Err? {
        return ServerError;
      }
      sessions := sessions[sessionId := data.(labeled := outputs.value)];
      r := Success(outputs.value);
    }

    /** `identify_organ_image`: the upload of `size` bytes is saved as
        `imageId` followed by `ext` (or ".png" when the client's file name has
        no extension) under the upload directory's `single_images`, and then
        identified. */
    method IdentifyUploadedImage(imageId: string, ext: string, size: nat, oracle: Oracle, parse: Parser)
      returns (r: Response<OrganImageReply>)
      modifies disk
      ensures var path := SingleImagePath(uploadDir, imageId, ext);
              && disk.files == old(disk.files)[path := size]
              && r == IdentifyOrganImage(path, uploadDir, organDir, disk.files.Keys, oracle, parse)
    {
      var path := SingleImagePath(uploadDir, imageId, ext);
      disk.Write(path, size);
      r := IdentifyOrganImage(path, uploadDir, organDir, disk.files.Keys, oracle, parse);
    }
  }

  /** Where `identify_organ_image` saves its upload. */
  function SingleImagePath(uploadDir: string, imageId: string, ext: string): (r: string)
    ensures imageId != [] && imageId[0] != '/' ==> StartsWith(r, PathJoin(uploadDir, "single_images"))
    ensures imageId != [] && imageId[0] != '/' && ext == [] ==> EndsWith(r, imageId + ".png")
    ensures imageId != [] && imageId[0] != '/' && ext != [] ==> EndsWith(r, imageId + ext)
  {
    var name := imageId + (if ext == [] then ".png" else ext);
    assert imageId != [] ==> name[0] == imageId[0];
    PathJoin(PathJoin(uploadDir, "single_images"), name)
  }
}
