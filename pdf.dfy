/**
 * The PDF helpers of app/pdf_utils.py over an abstract document: a sequence
 * of pages, each with the text the text extractor finds on it (or none) and
 * the embedded images in the order the image extractor lists them, each
 * given by the size of the PNG file it is saved as.
 */
module Pdf {
  import opened Wrappers
  import opened Text
  import opened Paths
  import opened Storage

  datatype Page = Page(text: Option<string>, images: seq<nat>)

  type Document = seq<Page>

  /** `save_upload`: writes the upload under the upload directory and
      returns where. */
  method SaveUpload(disk: Disk, uploadDir: string, filename: string, size: nat) returns (path: string)
    modifies disk
    ensures path == PathJoin(uploadDir, filename)
    ensures disk.files == old(disk.files)[path := size]
  {
    path := PathJoin(uploadDir, filename);
    disk.Write(path, size);
  }

  /** `page.extract_text() or ""`. */
  function PageText(page: Page): (t: string)
    ensures page.text.Some? ==> t == page.text.value
    ensures page.text.None? ==> t == ""
  {
    match page.text
    case None => ""
    case Some(s) => s
  }

  /** The text of every page, one entry per page, in page order. */
  function PageTexts(doc: Document): (r: seq<string>)
    ensures |r| == |doc|
    ensures forall i :: 0 <= i < |doc| ==> r[i] == PageText(doc[i])
  {
    seq(|doc|, i requires 0 <= i < |doc| => PageText(doc[i]))
  }

  /** `extract_text`. */
  method ExtractText(doc: Document) returns (text: string)
    ensures text == Join("\n", PageTexts(doc))
    ensures doc == [] ==> text == ""
  {
    var parts: seq<string> := [];
    for i := 0 to |doc|
      invariant |parts| == i
      invariant forall k :: 0 <= k < i ==> parts[k] == PageText(doc[k])
    {
      parts := parts + [PageText(doc[i])];
    }
    assert parts == PageTexts(doc);
    text := Join("\n", parts);
  }

  /** Pages whose text has no line break can be read back off the extracted
      text: one segment per page, empty pages included, in page order. */
  lemma PagesRecoverable(doc: Document)
    requires |doc| >= 1
    requires forall i :: 0 <= i < |doc| ==> '\n' !in PageText(doc[i])
    ensures SplitOn(Join("\n", PageTexts(doc)), '\n') == PageTexts(doc)
  {
    SplitJoin(PageTexts(doc), '\n');
  }

  /** Image `index` of page `page`, both counted from 0. */
  datatype Slot = Slot(page: nat, index: nat)

  predicate ValidSlot(doc: Document, s: Slot) {
    s.page < |doc| && s.index < |doc[s.page].images|
  }

  /** Slot `a` comes strictly before slot `b`: an earlier page, or the same
      page and an earlier image. */
  predicate Before(a: Slot, b: Slot) {
    a.page < b.page || (a.page == b.page && a.index < b.index)
  }

  /** The slots of images 0 .. n-1 of page p. */
  function PageSlots(p: nat, n: nat): (r: seq<Slot>)
    ensures |r| == n
    ensures forall j :: 0 <= j < n ==> r[j] == Slot(p, j)
  {
    seq(n, j requires 0 <= j < n => Slot(p, j))
  }

  /** The order `extract_images` visits the images in: page by page,
      and within a page by index. */
  function Slots(doc: Document): seq<Slot>
  {
    if doc == [] then []
    else Slots(doc[..|doc| - 1]) + PageSlots(|doc| - 1, |doc[|doc| - 1].images|)
  }

  function TotalImages(doc: Document): nat
  {
    if doc == [] then 0 else TotalImages(doc[..|doc| - 1]) + |doc[|doc| - 1].images|
  }

  /** The visiting order lists every image of the document exactly once,
      strictly in page-then-index order. */
  lemma {:induction false} SlotsEnumerate(doc: Document)
    ensures |Slots(doc)| == TotalImages(doc)
    ensures forall k :: 0 <= k < |Slots(doc)| ==> ValidSlot(doc, Slots(doc)[k])
    ensures forall k, l :: 0 <= k < l < |Slots(doc)| ==> Before(Slots(doc)[k], Slots(doc)[l])
    ensures forall s :: ValidSlot(doc, s) ==> s in Slots(doc)
    decreases |doc|
  {
    if doc != [] {
      var init := doc[..|doc| - 1];
      var p := |doc| - 1;
      SlotsEnumerate(init);
      var a, b := Slots(init), PageSlots(p, |doc[p].images|);
      assert Slots(doc) == a + b;
      assert forall k :: 0 <= k < |a| ==> a[k].page < p && ValidSlot(doc, a[k]);
      forall s | ValidSlot(doc, s) ensures s in Slots(doc) {
        if s.page < p {
          assert ValidSlot(init, s);
        } else {
          assert b[s.index] == s;
        }
      }
    }
  }

  /** `f"page{page_index+1}_img{img_index+1}.png"`. */
  function ImageName(s: Slot): (r: string)
    ensures StartsWith(r, "page") && EndsWith(r, ".png")
  {
    "page" + (Decimal(s.page + 1) + ("_img" + (Decimal(s.index + 1) + ".png")))
  }

  lemma CancelPrefix(p: string, x: string, y: string)
    requires p + x == p + y
    ensures x == y
  {
    assert x == (p + x)[|p|..];
    assert y == (p + y)[|p|..];
  }

  /** `_img{n}.png` determines n. */
  lemma ImageSuffixInjective(m: nat, n: nat)
    requires "_img" + (Decimal(m) + ".png") == "_img" + (Decimal(n) + ".png")
    ensures m == n
  {
    CancelPrefix("_img", Decimal(m) + ".png", Decimal(n) + ".png");
    assert !IsDigit(".png"[0]);
    DigitPrefixUnique(Decimal(m), ".png", Decimal(n), ".png");
    DecimalInjective(m, n);
  }

  /** Different slots get different file names. */
  lemma ImageNameInjective(a: Slot, b: Slot)
    requires ImageName(a) == ImageName(b)
    ensures a == b
  {
    var ta := "_img" + (Decimal(a.index + 1) + ".png");
    var tb := "_img" + (Decimal(b.index + 1) + ".png");
    CancelPrefix("page", Decimal(a.page + 1) + ta, Decimal(b.page + 1) + tb);
    assert ta[0] == '_' && tb[0] == '_';
    DigitPrefixUnique(Decimal(a.page + 1), ta, Decimal(b.page + 1), tb);
    DecimalInjective(a.page + 1, b.page + 1);
    ImageSuffixInjective(a.index + 1, b.index + 1);
  }

  /** `os.path.join(BASE_UPLOAD_DIR, session_id, "images")`. */
  function SessionImageDir(uploadDir: string, sessionId: string): string {
    PathJoin(PathJoin(uploadDir, sessionId), "images")
  }

  /** The paths `extract_images` returns, one per slot in visiting order. */
  function ImagePaths(dir: string, slots: seq<Slot>): (r: seq<string>)
    ensures |r| == |slots|
    ensures forall k :: 0 <= k < |slots| ==> r[k] == PathJoin(dir, ImageName(slots[k]))
  {
    seq(|slots|, k requires 0 <= k < |slots| => PathJoin(dir, ImageName(slots[k])))
  }

  /** The size of the PNG saved for a slot. */
  function ImageSize(doc: Document, s: Slot): nat {
    if ValidSlot(doc, s) then doc[s.page].images[s.index] else 0
  }

  /** The sizes of the PNGs saved for the slots, in the same order. */
  function ImageSizes(doc: Document, slots: seq<Slot>): (r: seq<nat>)
    ensures |r| == |slots|
    ensures forall k :: 0 <= k < |slots| ==> r[k] == ImageSize(doc, slots[k])
  {
    seq(|slots|, k requires 0 <= k < |slots| => ImageSize(doc, slots[k]))
  }

  lemma PageSlotsSnoc(done: seq<Slot>, p: nat, j: nat)
    ensures done + PageSlots(p, j + 1) == (done + PageSlots(p, j)) + [Slot(p, j)]
  {
  }

  /** One more image of page `p` extends the paths and the sizes by one. */
  lemma SaveNext(dir: string, doc: Document, done: seq<Slot>, p: nat, j: nat)
    requires p < |doc| && j < |doc[p].images|
    ensures ImagePaths(dir, done + PageSlots(p, j + 1)) == ImagePaths(dir, done + PageSlots(p, j)) + [PathJoin(dir, ImageName(Slot(p, j)))]
    ensures ImageSizes(doc, done + PageSlots(p, j + 1)) == ImageSizes(doc, done + PageSlots(p, j)) + [doc[p].images[j]]
  {
    PageSlotsSnoc(done, p, j);
    assert ImageSize(doc, Slot(p, j)) == doc[p].images[j];
  }

  /** `extract_images`: every image is saved under the session's image
      directory and its path returned, in visiting order. */
  method ExtractImages(disk: Disk, uploadDir: string, sessionId: string, doc: Document) returns (paths: seq<string>)
    modifies disk
    ensures paths == ImagePaths(SessionImageDir(uploadDir, sessionId), Slots(doc))
    ensures disk.files == WriteAll(old(disk.files), ImagePaths(SessionImageDir(uploadDir, sessionId), Slots(doc)), ImageSizes(doc, Slots(doc)))
  {
    var dir := SessionImageDir(uploadDir, sessionId);
    paths := [];
    for p := 0 to |doc|
      invariant paths == ImagePaths(dir, Slots(doc[..p]))
      invariant disk.files == WriteAll(old(disk.files), ImagePaths(dir, Slots(doc[..p])), ImageSizes(doc, Slots(doc[..p])))
    {
      SlotsPrefix(doc, p);
      paths := SavePageImages(disk, dir, doc, p, Slots(doc[..p]), old(disk.files), paths);
    }
    assert doc[..|doc|] == doc;
  }

  lemma SlotsPrefix(doc: Document, p: nat)
    requires p < |doc|
    ensures Slots(doc[..p + 1]) == Slots(doc[..p]) + PageSlots(p, |doc[p].images|)
  {
    var d := doc[..p + 1];
    assert d[..p] == doc[..p] && d[p] == doc[p];
  }

  /** The inner loop of `extract_images`: the images of page `p`. */
  method SavePageImages(disk: Disk, dir: string, doc: Document, p: nat, ghost done: seq<Slot>,
                        ghost initial: map<string, nat>, pathsIn: seq<string>)
    returns (paths: seq<string>)
    requires p < |doc|
    requires pathsIn == ImagePaths(dir, done)
    requires disk.files == WriteAll(initial, ImagePaths(dir, done), ImageSizes(doc, done))
    modifies disk
    ensures paths == ImagePaths(dir, done + PageSlots(p, |doc[p].images|))
    ensures disk.files == WriteAll(initial, paths, ImageSizes(doc, done + PageSlots(p, |doc[p].images|)))
  {
    paths := pathsIn;
    assert done + PageSlots(p, 0) == done;
    for j := 0 to |doc[p].images|
      invariant paths == ImagePaths(dir, done + PageSlots(p, j))
      invariant disk.files == WriteAll(initial, paths, ImageSizes(doc, done + PageSlots(p, j)))
    {
      var path := PathJoin(dir, ImageName(Slot(p, j)));
      SaveNext(dir, doc, done, p, j);
      WriteAllSnoc(initial, paths, ImageSizes(doc, done + PageSlots(p, j)), path, doc[p].images[j]);
      disk.Write(path, doc[p].images[j]);
      paths := paths + [path];
    }
  }

  /** No two images of a document are saved under the same path. */
  lemma ImagePathsDistinct(dir: string, doc: Document)
    ensures forall k, l :: 0 <= k < l < |Slots(doc)| ==>
              ImagePaths(dir, Slots(doc))[k] != ImagePaths(dir, Slots(doc))[l]
  {
    SlotsEnumerate(doc);
    var slots := Slots(doc);
    forall k, l | 0 <= k < l < |slots|
      ensures PathJoin(dir, ImageName(slots[k])) != PathJoin(dir, ImageName(slots[l]))
    {
      assert slots[k] != slots[l];
      if PathJoin(dir, ImageName(slots[k])) == PathJoin(dir, ImageName(slots[l])) {
        assert ImageName(slots[k])[0] == 'p' && ImageName(slots[l])[0] == 'p';
        PathJoinInjective(dir, ImageName(slots[k]), ImageName(slots[l]));
        ImageNameInjective(slots[k], slots[l]);
      }
    }
  }

  /** What `extract_images` leaves behind: one file per image, holding that
      image, and every other file as it was. */
  lemma ExtractedImagesSaved(files: map<string, nat>, dir: string, doc: Document)
    ensures |ImagePaths(dir, Slots(doc))| == TotalImages(doc)
    ensures forall k :: 0 <= k < |Slots(doc)| ==>
              ImagePaths(dir, Slots(doc))[k] in WriteAll(files, ImagePaths(dir, Slots(doc)), ImageSizes(doc, Slots(doc)))
              && WriteAll(files, ImagePaths(dir, Slots(doc)), ImageSizes(doc, Slots(doc)))[ImagePaths(dir, Slots(doc))[k]]
              == ImageSize(doc, Slots(doc)[k]) && ValidSlot(doc, Slots(doc)[k])
    ensures forall path :: path in files && path !in ImagePaths(dir, Slots(doc)) ==>
              path in WriteAll(files, ImagePaths(dir, Slots(doc)), ImageSizes(doc, Slots(doc)))
              && WriteAll(files, ImagePaths(dir, Slots(doc)), ImageSizes(doc, Slots(doc)))[path] == files[path]
  {
    SlotsEnumerate(doc);
    ImagePathsDistinct(dir, doc);
    WriteAllContents(files, ImagePaths(dir, Slots(doc)), ImageSizes(doc, Slots(doc)));
  }
}
