/**
 * The static organ catalog and `get_static_organ_image` (app/ai_utils.py):
 * a free-text organ label from the vision model is normalised, looked up
 * exactly in an ordered synonym table, otherwise matched against the first
 * table key it contains, and resolved to an image file under the organ
 * directory when that file exists.
 */
module Organs {
  import opened Wrappers
  import opened Text
  import opened Paths
  import opened Json

  /** One synonym of the table: a lower-case key and its image file name. */
  datatype Entry = Entry(key: string, file: string)

  /** The synonym table, in the order the source writes it (which is the
      order `mapping.items()` visits it): entry `i` of the table. It is a
      chain of cases on the index rather than a sequence display so that
      facts about every entry can be proved by splitting on the index; the
      lemmas below that cover one range of entries at a time exist because
      one split over all 35 entries is too costly for the solver. */
  function EntryAt(i: nat): Entry
  {
    if i == 0 then Entry("heart", "heart.jpg")
    else if i == 1 then Entry("left ventricle", "heart.jpg")
    else if i == 2 then Entry("right ventricle", "heart.jpg")
    else if i == 3 then Entry("right atrium", "heart.jpg")
    else if i == 4 then Entry("left atrium", "heart.jpg")
    else if i == 5 then Entry("lung", "lungs.jpg")
    else if i == 6 then Entry("lungs", "lungs.jpg")
    else if i == 7 then Entry("brain", "brain.jpg")
    else if i == 8 then Entry("liver", "liver.jpg")
    else if i == 9 then Entry("kidney", "kidney.jpg")
    else if i == 10 then Entry("kidneys", "kidney.jpg")
    else if i == 11 then Entry("stomach", "stomach.jpg")
    else if i == 12 then Entry("small intestine", "intestine.jpg")
    else if i == 13 then Entry("large intestine", "intestine.jpg")
    else if i == 14 then Entry("intestines", "intestine.jpg")
    else if i == 15 then Entry("pancreas", "pancreas.jpg")
    else if i == 16 then Entry("spleen", "spleen.jpg")
    else if i == 17 then Entry("esophagus", "esophagus.jpg")
    else if i == 18 then Entry("trachea", "trachea.jpg")
    else if i == 19 then Entry("gallbladder", "gallbladder.jpg")
    else if i == 20 then Entry("urinary bladder", "urinary_bladder.jpg")
    else if i == 21 then Entry("bladder", "urinary_bladder.jpg")
    else if i == 22 then Entry("thyroid", "thyroid.jpg")
    else if i == 23 then Entry("thyroid gland", "thyroid.jpg")
    else if i == 24 then Entry("adrenal gland", "adrenal.jpg")
    else if i == 25 then Entry("adrenal glands", "adrenal.jpg")
    else if i == 26 then Entry("skin", "skin.jpg")
    else if i == 27 then Entry("eye", "eye.jpg")
    else if i == 28 then Entry("eyes", "eye.jpg")
    else if i == 29 then Entry("ear", "ear.jpg")
    else if i == 30 then Entry("ears", "ear.jpg")
    else if i == 31 then Entry("ovary", "ovary.jpg")
    else if i == 32 then Entry("ovaries", "ovary.jpg")
    else if i == 33 then Entry("testis", "testis.jpg")
    else Entry("testes", "testis.jpg")
  }

  const CatalogSize: nat := 35

  /** The whole table as a sequence. */
  function Catalog(): seq<Entry> {
    seq(CatalogSize, i requires 0 <= i < CatalogSize => EntryAt(i))
  }

  /** What `organ.lower()` raises on a truthy value that is not a string. */
  datatype Fault = AttributeError

  /** The index of the first entry whose key is exactly `name`. */
  function FirstKeyEqual(cat: seq<Entry>, name: string): (r: Option<nat>)
    ensures r.Some? ==> r.value < |cat| && cat[r.value].key == name
    ensures forall j :: 0 <= j < |cat| && (r.None? || j < r.value) ==> cat[j].key != name
  {
    if cat == [] then None
    else if cat[0].key == name then Some(0)
    else
      assert forall j :: 1 <= j < |cat| ==> cat[1..][j - 1] == cat[j];
      match FirstKeyEqual(cat[1..], name)
      case None => None
      case Some(k) => Some(k + 1)
  }

  /** The index of the first entry whose key occurs inside `name`. */
  function FirstKeyWithin(cat: seq<Entry>, name: string): (r: Option<nat>)
    ensures r.Some? ==> r.value < |cat| && Contains(name, cat[r.value].key)
    ensures forall j :: 0 <= j < |cat| && (r.None? || j < r.value) ==> !Contains(name, cat[j].key)
  {
    if cat == [] then None
    else if Contains(name, cat[0].key) then Some(0)
    else
      assert forall j :: 1 <= j < |cat| ==> cat[1..][j - 1] == cat[j];
      match FirstKeyWithin(cat[1..], name)
      case None => None
      case Some(k) => Some(k + 1)
  }

  /** The file name a table gives a normalised label: the exact key's file
      if there is one, else the file of the first key the label contains. */
  function ResolveIn(cat: seq<Entry>, name: string): (r: Option<string>)
    ensures FirstKeyEqual(cat, name).Some? ==> r == Some(cat[FirstKeyEqual(cat, name).value].file)
    ensures FirstKeyEqual(cat, name).None? && FirstKeyWithin(cat, name).Some? ==>
              r == Some(cat[FirstKeyWithin(cat, name).value].file)
    ensures r.None? <==> forall j :: 0 <= j < |cat| ==> !Contains(name, cat[j].key)
  {
    match FirstKeyEqual(cat, name)
    case Some(i) =>
      ContainsAt(name, name, 0);
      Some(cat[i].file)
    case None =>
      match FirstKeyWithin(cat, name)
      case Some(i) => Some(cat[i].file)
      case None => None
  }

  /** The resolution through the source's own table. */
  function ResolveFilename(name: string): Option<string> {
    ResolveIn(Catalog(), name)
  }

  /** `name = organ.lower().strip()`. */
  function Normalize(organ: string): string {
    Strip(Lower(organ))
  }

  /** `get_static_organ_image(organ)` over a table, for any JSON value the
      vision reply may hold under "organ": a falsy value gives no image, a
      string is resolved, and any other value fails in `.lower()`. `files`
      are the paths that exist. */
  function StaticImageIn(cat: seq<Entry>, organ: Value, organDir: string, files: set<string>): (r: Result<Option<string>, Fault>)
    ensures !Truthy(organ) ==> r == Ok(None)
    ensures Truthy(organ) && !organ.Str? ==> r == Err(AttributeError)
    ensures organ.Str? ==> r.Ok?
    ensures r.Ok? && r.value.Some? ==>
              r.value.value in files && r.value.value != []
              && ResolveIn(cat, Normalize(organ.s)).Some?
              && r.value.value == PathJoin(organDir, ResolveIn(cat, Normalize(organ.s)).value)
    ensures Truthy(organ) && organ.Str? && ResolveIn(cat, Normalize(organ.s)).None? ==> r == Ok(None)
    ensures Truthy(organ) && organ.Str? && ResolveIn(cat, Normalize(organ.s)).Some? && ResolveIn(cat, Normalize(organ.s)).value != [] ==>
              (r == Ok(Some(PathJoin(organDir, ResolveIn(cat, Normalize(organ.s)).value)))
               <==> PathJoin(organDir, ResolveIn(cat, Normalize(organ.s)).value) in files)
  {
    if !Truthy(organ) then Ok(None)
    else if !organ.Str? then Err(AttributeError)
    else
      match ResolveIn(cat, Normalize(organ.s))
      case None => Ok(None)
      case Some(filename) =>
        if filename == [] then Ok(None)
        else
          var path := PathJoin(organDir, filename);
          if path in files then Ok(Some(path)) else Ok(None)
  }

  /** The lookup through the source's own table. */
  function StaticOrganImage(organ: Value, organDir: string, files: set<string>): Result<Option<string>, Fault> {
    StaticImageIn(Catalog(), organ, organDir, files)
  }

  /** The source's procedure: an exact dictionary lookup, then a scan of the
      table in order that stops at the first key contained in the label. */
  method GetStaticOrganImage(organ: Value, organDir: string, files: set<string>) returns (r: Result<Option<string>, Fault>)
    ensures r == StaticOrganImage(organ, organDir, files)
  {
    if !Truthy(organ) {
      return Ok(None);
    }
    if !organ.Str? {
      return Err(AttributeError);
    }
    var name := Normalize(organ.s);
    var filename: Option<string>;
    var exact := FirstKeyEqual(Catalog(), name);
    if exact.Some? {
      filename := Some(Catalog()[exact.value].file);
    } else {
      filename := ScanForKey(Catalog(), name);
    }
    assert filename == ResolveIn(Catalog(), name);
    if filename.None? || filename.value == [] {
      return Ok(None);
    }
    var path := PathJoin(organDir, filename.value);
    r := if path in files then Ok(Some(path)) else Ok(None);
  }

  /** The `for key, value in mapping.items()` loop with its `break`. */
  method ScanForKey(cat: seq<Entry>, name: string) returns (filename: Option<string>)
    ensures FirstKeyWithin(cat, name).None? ==> filename == None
    ensures FirstKeyWithin(cat, name).Some? ==> filename == Some(cat[FirstKeyWithin(cat, name).value].file)
  {
    filename := None;
    var i := 0;
    while i < |cat|
      invariant 0 <= i <= |cat|
      invariant filename == None
      invariant forall j :: 0 <= j < i ==> !Contains(name, cat[j].key)
    {
      if Contains(name, cat[i].key) {
        filename := Some(cat[i].file);
        assert FirstKeyWithin(cat, name) == Some(i);
        break;
      }
      i := i + 1;
    }
  }

  /** The keys from "heart" to "lung" (entries 0 to 5) differ from every
      later key. */
  lemma KeysFromHeartDistinct()
    ensures forall i, j :: 0 <= i < 6 && i < j < CatalogSize ==> EntryAt(i).key != EntryAt(j).key
  {
  }

  /** The keys from "lungs" to "intestines" (entries 6 to 14) differ from
      every later key. */
  lemma KeysFromLungsDistinct()
    ensures forall i, j :: 6 <= i < 15 && i < j < CatalogSize ==> EntryAt(i).key != EntryAt(j).key
  {
  }

  /** The keys from "pancreas" to "testes" (entries 15 to 34) differ from
      one another. */
  lemma KeysFromPancreasDistinct()
    ensures forall i, j :: 15 <= i < j < CatalogSize ==> EntryAt(i).key != EntryAt(j).key
  {
  }

  /** No key of the table is written twice, so a dictionary built from it
      keeps every entry. */
  lemma CatalogKeysDistinct()
    ensures forall i, j :: 0 <= i < j < |Catalog()| ==> Catalog()[i].key != Catalog()[j].key
  {
    KeysFromHeartDistinct();
    KeysFromLungsDistinct();
    KeysFromPancreasDistinct();
  }

  /** A label that is exactly a key, written after no equal key, gets that
      key's file. */
  lemma ExactKeyResolvesIn(cat: seq<Entry>, i: nat)
    requires i < |cat|
    requires forall j :: 0 <= j < i ==> cat[j].key != cat[i].key
    ensures ResolveIn(cat, cat[i].key) == Some(cat[i].file)
  {
    var e := FirstKeyEqual(cat, cat[i].key);
    assert e == Some(i) by {
      if e.None? || e.value > i {
        assert cat[i].key != cat[i].key;
      }
    }
  }

  /** In the source's table that is every entry. */
  lemma ExactKeyResolves(i: nat)
    requires i < |Catalog()|
    ensures ResolveFilename(Catalog()[i].key) == Some(Catalog()[i].file)
  {
    CatalogKeysDistinct();
    ExactKeyResolvesIn(Catalog(), i);
  }

  /** Surrounding whitespace does not change the normal form. */
  lemma NormalizePadded(p: string, s: string, q: string)
    requires Blank(p) && Blank(q)
    requires s != [] && !IsSpace(s[0]) && !IsSpace(s[|s| - 1])
    ensures Normalize(p + s + q) == Lower(s)
  {
    LowerConcat(p + s, q);
    LowerConcat(p, s);
    LowerKeepsSpace(p);
    LowerKeepsSpace(q);
    LowerKeepsSpace(s);
    StripPadded(p, Lower(s), q);
  }

  lemma NormalizeTrimmed(s: string)
    requires s != [] && !IsSpace(s[0]) && !IsSpace(s[|s| - 1])
    ensures Normalize(s) == Lower(s)
  {
    LowerKeepsSpace(s);
    StripUnchanged(Lower(s));
  }

  /** Case does not change the normal form. */
  lemma NormalizeLowered(s: string)
    ensures Normalize(Lower(s)) == Normalize(s)
  {
    LowerIdempotent(s);
  }

  /** Two non-empty labels with the same normal form get the same image. */
  lemma SameNormalFormSameImage(cat: seq<Entry>, a: string, b: string, organDir: string, files: set<string>)
    requires a != [] && b != [] && Normalize(a) == Normalize(b)
    ensures StaticImageIn(cat, Str(a), organDir, files) == StaticImageIn(cat, Str(b), organDir, files)
  {
  }

  /** So the label the model returns may differ in case and padding. */
  lemma LookupIgnoresCaseAndPadding(cat: seq<Entry>, p: string, s: string, q: string, organDir: string, files: set<string>)
    requires Blank(p) && Blank(q)
    requires s != [] && !IsSpace(s[0]) && !IsSpace(s[|s| - 1])
    ensures StaticImageIn(cat, Str(p + s + q), organDir, files) == StaticImageIn(cat, Str(s), organDir, files)
    ensures StaticImageIn(cat, Str(Lower(s)), organDir, files) == StaticImageIn(cat, Str(s), organDir, files)
  {
    NormalizePadded(p, s, q);
    NormalizeTrimmed(s);
    NormalizeLowered(s);
    assert |p + s + q| > 0 && |Lower(s)| > 0;
    SameNormalFormSameImage(cat, p + s + q, s, organDir, files);
    SameNormalFormSameImage(cat, Lower(s), s, organDir, files);
  }

  /** "human heart" is not a key; "heart" is the first key inside it. */
  lemma HumanHeartExample(name: string)
    requires name == "human heart"
    ensures ResolveFilename(name) == Some("heart.jpg")
  {
    NotAKey(name);
    ContainsAt(name, "heart", 6);
    assert Catalog()[0] == EntryAt(0);
    assert FirstKeyWithin(Catalog(), name) == Some(0);
  }

  lemma NotAKey(name: string)
    requires name == "human heart"
    ensures FirstKeyEqual(Catalog(), name) == None
  {
    assert forall j :: 0 <= j < CatalogSize ==> EntryAt(j).key != "human heart";
    assert forall j :: 0 <= j < |Catalog()| ==> Catalog()[j].key != "human heart";
  }

  /** The file names of the entries "heart" to "liver" begin with a letter. */
  lemma FileHeadFromHeart(i: nat)
    requires i < 9
    ensures EntryAt(i).file != [] && 'a' <= EntryAt(i).file[0] <= 'z'
  {
  }

  /** The file names of the entries "kidney" to "esophagus" begin with a letter. */
  lemma FileHeadFromKidney(i: nat)
    requires 9 <= i < 18
    ensures EntryAt(i).file != [] && 'a' <= EntryAt(i).file[0] <= 'z'
  {
  }

  /** The file names of the entries "trachea" to "skin" begin with a letter. */
  lemma FileHeadFromTrachea(i: nat)
    requires 18 <= i < 27
    ensures EntryAt(i).file != [] && 'a' <= EntryAt(i).file[0] <= 'z'
  {
  }

  /** The file names of the entries "eye" to "testes" begin with a letter. */
  lemma FileHeadFromEye(i: nat)
    requires 27 <= i < CatalogSize
    ensures EntryAt(i).file != [] && 'a' <= EntryAt(i).file[0] <= 'z'
  {
  }

  lemma NotRooted(f: string)
    requires f != [] && f[0] != '/'
    ensures !StartsWith(f, "/")
  {
    assert f[..1][0] == f[0];
  }

  /** Every file name of the table is relative, so it lands under the
      organ directory. */
  lemma CatalogFilesRelative()
    ensures forall i :: 0 <= i < |Catalog()| ==> Catalog()[i].file != [] && !StartsWith(Catalog()[i].file, "/")
  {
    forall i | 0 <= i < |Catalog()|
      ensures Catalog()[i].file != [] && !StartsWith(Catalog()[i].file, "/")
    {
      assert Catalog()[i] == EntryAt(i);
      if i < 9 {
        FileHeadFromHeart(i);
      } else if i < 18 {
        FileHeadFromKidney(i);
      } else if i < 27 {
        FileHeadFromTrachea(i);
      } else {
        FileHeadFromEye(i);
      }
      NotRooted(EntryAt(i).file);
    }
  }

  /** A found image is an existing file inside the organ directory. */
  lemma StaticImageUnderOrganDir(organ: Value, organDir: string, files: set<string>)
    ensures var r := StaticOrganImage(organ, organDir, files);
            r.Ok? && r.value.Some? ==> r.value.value in files && StartsWith(r.value.value, organDir)
  {
    var r := StaticOrganImage(organ, organDir, files);
    if r.Ok? && r.value.Some? {
      var name := Normalize(organ.s);
      var k: nat;
      if FirstKeyEqual(Catalog(), name).Some? {
        k := FirstKeyEqual(Catalog(), name).value;
      } else {
        k := FirstKeyWithin(Catalog(), name).value;
      }
      CatalogFilesRelative();
      assert ResolveIn(Catalog(), name).value == Catalog()[k].file;
    }
  }

  /** A text in which no two neighbouring characters are the first two of
      `p` does not contain `p`. */
  lemma PairAbsent(s: string, p: string)
    requires |p| >= 2
    requires forall j :: 0 <= j < |s| - 1 ==> s[j] != p[0] || s[j + 1] != p[1]
    ensures !Contains(s, p)
  {
    forall j | 0 <= j <= |s| - |p|
      ensures !StartsWith(s[j..], p)
    {
      assert s[j..][..|p|][0] == s[j] && s[j..][..|p|][1] == s[j + 1];
    }
  }

  /** `a` followed by `b` occurs in "unknown". */
  predicate UnknownPair(a: char, b: char) {
    (a == 'u' && b == 'n') || (a == 'n' && b == 'k') || (a == 'k' && b == 'n')
    || (a == 'n' && b == 'o') || (a == 'o' && b == 'w') || (a == 'w' && b == 'n')
  }

  /** A label whose first two letters are not next to each other in
      "unknown" does not occur in it. */
  lemma NotInUnknown(p: string)
    requires |p| >= 2 && !UnknownPair(p[0], p[1])
    ensures !Contains("unknown", p)
  {
    PairAbsent("unknown", p);
  }

  /** The first two letters of the keys "heart" to "liver". */
  lemma KeyHeadFromHeart(i: nat)
    requires i < 9
    ensures |EntryAt(i).key| >= 2 && !UnknownPair(EntryAt(i).key[0], EntryAt(i).key[1])
  {
  }

  /** The first two letters of the keys "kidney" to "esophagus". */
  lemma KeyHeadFromKidney(i: nat)
    requires 9 <= i < 18
    ensures |EntryAt(i).key| >= 2 && !UnknownPair(EntryAt(i).key[0], EntryAt(i).key[1])
  {
  }

  /** The first two letters of the keys "trachea" to "skin". */
  lemma KeyHeadFromTrachea(i: nat)
    requires 18 <= i < 27
    ensures |EntryAt(i).key| >= 2 && !UnknownPair(EntryAt(i).key[0], EntryAt(i).key[1])
  {
  }

  /** The first two letters of the keys "eye" to "testes". */
  lemma KeyHeadFromEye(i: nat)
    requires 27 <= i < CatalogSize
    ensures |EntryAt(i).key| >= 2 && !UnknownPair(EntryAt(i).key[0], EntryAt(i).key[1])
  {
  }

  /** No key of the table occurs in "unknown", the label of an image that
      cannot be read. */
  lemma NoKeyInUnknown()
    ensures forall i :: 0 <= i < |Catalog()| ==> !Contains("unknown", Catalog()[i].key)
  {
    forall i | 0 <= i < |Catalog()|
      ensures !Contains("unknown", Catalog()[i].key)
    {
      assert Catalog()[i] == EntryAt(i);
      if i < 9 {
        KeyHeadFromHeart(i);
      } else if i < 18 {
        KeyHeadFromKidney(i);
      } else if i < 27 {
        KeyHeadFromTrachea(i);
      } else {
        KeyHeadFromEye(i);
      }
      NotInUnknown(EntryAt(i).key);
    }
  }

  /** So the label "unknown" has no static image, whatever files exist. */
  lemma UnknownHasNoImage(organDir: string, files: set<string>)
    ensures StaticOrganImage(Str("unknown"), organDir, files) == Ok(None)
  {
    UnknownIsNormal();
    NoKeyInUnknown();
    assert ResolveIn(Catalog(), "unknown").None?;
  }

  /** "unknown" is its own normal form. */
  lemma UnknownIsNormal()
    ensures Normalize("unknown") == "unknown"
  {
    LowerWordIsNormal("unknown");
  }

  /** A word of lower-case letters is its own normal form. */
  lemma LowerWordIsNormal(s: string)
    requires s != [] && forall i :: 0 <= i < |s| ==> 'a' <= s[i] <= 'z'
    ensures Normalize(s) == s
  {
    LowerNoCapitals(s);
    NormalizeTrimmed(s);
  }
}
