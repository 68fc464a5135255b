/**
 * The response sanitizer (`_extract_json_object` in app/ai_utils.py): it pulls
 * the outermost brace-delimited object out of a model reply that may be
 * wrapped in a Markdown code fence or surrounded by prose. It never fails;
 * whatever it returns is handed to the JSON parser.
 */
module Sanitizer {
  import opened Wrappers
  import opened Text

  const Fence: string := "```"

  /** `text.split("```", 2)[1]` for a text that starts with a fence: the part
      after the opening fence up to the next fence, or all of it if there is
      no other fence. */
  function FencedSegment(t: string): (r: string)
    requires StartsWith(t, Fence)
    ensures StartsWith(t[3..], r)
    ensures r == t[3..] || StartsWith(t[3 + |r|..], Fence)
    ensures forall j :: 3 <= j < 3 + |r| ==> !StartsWith(t[j..], Fence)
  {
    var rest := t[3..];
    match FindSub(rest, Fence)
    case None =>
      NoFenceBefore(t, rest, |rest|);
      rest
    case Some(k) =>
      assert rest[k..] == t[3 + k..];
      NoFenceBefore(t, rest, k);
      rest[..k]
  }

  /** No fence starts in the first `n` characters after the opening one. */
  lemma NoFenceBefore(t: string, rest: string, n: nat)
    requires |t| >= 3 && rest == t[3..] && n <= |rest|
    requires forall j :: 0 <= j <= |rest| - 3 && j < n ==> !StartsWith(rest[j..], Fence)
    ensures forall j :: 3 <= j < 3 + n ==> !StartsWith(t[j..], Fence)
  {
    forall j | 3 <= j < 3 + n
      ensures !StartsWith(t[j..], Fence)
    {
      assert t[j..] == rest[j - 3..];
    }
  }

  lemma FencedSegmentSlice(t: string)
    requires StartsWith(t, Fence)
    ensures IsSlice(FencedSegment(t), t)
  {
    var r := FencedSegment(t);
    assert t[3..][..|r|] == t[3..3 + |r|];
    SliceRange(t, 3, 3 + |r|);
  }

  /** The text after trimming and removing the leading and trailing fences. */
  function Unfenced(text: string): (r: string)
    ensures !StartsWith(Strip(text), Fence) && !EndsWith(Strip(text), Fence) ==> r == Strip(text)
  {
    Unfence(Strip(text))
  }

  lemma UnfencedSlice(text: string)
    ensures IsSlice(Unfenced(text), text)
  {
    UnfenceSlice(Strip(text));
    StripSlice(text);
    SliceTransitive(Unfenced(text), Strip(text), text);
  }

  /** Fence removal on an already trimmed text `a`. */
  function Unfence(a: string): (r: string)
    ensures !StartsWith(a, Fence) && !EndsWith(a, Fence) ==> r == a
  {
    DropClosingFence(DropOpeningFence(a))
  }

  /** An opening fence gives way to the trimmed part between it and the
      next fence. */
  function DropOpeningFence(a: string): string {
    if StartsWith(a, Fence) then Strip(FencedSegment(a)) else a
  }

  /** A closing fence is cut off and the rest trimmed. */
  function DropClosingFence(b: string): string {
    if EndsWith(b, Fence) then Strip(b[..|b| - 3]) else b
  }

  lemma UnfenceSlice(a: string)
    ensures IsSlice(Unfence(a), a)
  {
    var b := DropOpeningFence(a);
    OpeningCutSlice(a);
    ClosingCutSlice(b);
    SliceTransitive(DropClosingFence(b), b, a);
  }

  lemma OpeningCutSlice(a: string)
    ensures IsSlice(DropOpeningFence(a), a)
  {
    if StartsWith(a, Fence) {
      var f := FencedSegment(a);
      FencedSegmentSlice(a);
      StripSlice(f);
      SliceTransitive(Strip(f), f, a);
    } else {
      SliceOfSelf(a);
    }
  }

  lemma ClosingCutSlice(b: string)
    ensures IsSlice(DropClosingFence(b), b)
  {
    if EndsWith(b, Fence) {
      var c := b[..|b| - 3];
      StripSlice(c);
      SliceRange(b, 0, |b| - 3);
      SliceTransitive(Strip(c), c, b);
    } else {
      SliceOfSelf(b);
    }
  }

  /** Some `{` comes before some `}`. */
  ghost predicate HasBraceSpan(d: string) {
    exists i, j :: 0 <= i < j < |d| && d[i] == '{' && d[j] == '}'
  }

  /** `r` runs from the first `{` of `d` to the last `}` of `d`. */
  ghost predicate OutermostBraces(r: string, d: string) {
    && |r| >= 2 && r[0] == '{' && r[|r| - 1] == '}'
    && exists i :: 0 <= i <= |d| - |r| && d[i..i + |r|] == r && '{' !in d[..i] && '}' !in d[i + |r|..]
  }

  /** The test the source makes (`start != -1 and end != -1 and end > start`)
      holds exactly when some `{` precedes some `}`. */
  lemma BraceTest(d: string)
    ensures HasBraceSpan(d) <==> (FindChar(d, '{') != -1 && RFindChar(d, '}') != -1 && RFindChar(d, '}') > FindChar(d, '{'))
  {
    var s, e := FindChar(d, '{'), RFindChar(d, '}');
    if HasBraceSpan(d) {
      var i, j :| 0 <= i < j < |d| && d[i] == '{' && d[j] == '}';
      FindCharAtMost(d, '{', i);
      RFindCharAtLeast(d, '}', j);
    }
  }

  /** The search for the first `{` and the last `}`: the span between them
      when the second comes after the first, otherwise the text itself. */
  function OutermostObject(t: string): (r: string)
    ensures HasBraceSpan(t) ==> OutermostBraces(r, t)
    ensures !HasBraceSpan(t) ==> r == t
  {
    var start := FindChar(t, '{');
    var end := RFindChar(t, '}');
    BraceTest(t);
    if start != -1 && end != -1 && end > start then
      SpanIsOutermost(t, start, end);
      t[start..end + 1]
    else
      t
  }

  lemma OutermostSlice(t: string)
    ensures IsSlice(OutermostObject(t), t)
  {
    var start := FindChar(t, '{');
    var end := RFindChar(t, '}');
    if start != -1 && end != -1 && end > start {
      SliceRange(t, start, end + 1);
    } else {
      SliceOfSelf(t);
    }
  }

  lemma SpanIsOutermost(t: string, start: int, end: int)
    requires 0 <= start < end < |t|
    requires t[start] == '{' && '{' !in t[..start]
    requires t[end] == '}' && '}' !in t[end + 1..]
    ensures OutermostBraces(t[start..end + 1], t)
  {
    var r := t[start..end + 1];
    assert start + |r| == end + 1;
    assert r[0] == t[start] && r[|r| - 1] == t[end];
    BracesWitness(r, t, start);
  }

  lemma BracesWitness(r: string, d: string, i: int)
    requires |r| >= 2 && r[0] == '{' && r[|r| - 1] == '}'
    requires 0 <= i <= |d| - |r| && d[i..i + |r|] == r
    requires '{' !in d[..i] && '}' !in d[i + |r|..]
    ensures OutermostBraces(r, d)
  {
  }

  lemma OutermostBracesShape(r: string, d: string)
    requires OutermostBraces(r, d)
    ensures |r| >= 2 && r[0] == '{' && r[|r| - 1] == '}'
  {
  }

  /** `_extract_json_object`. */
  function ExtractJsonObject(text: string): (r: string)
    ensures text == [] ==> r == []
    ensures text != [] && HasBraceSpan(Unfenced(text)) ==> OutermostBraces(r, Unfenced(text))
    ensures text != [] && !HasBraceSpan(Unfenced(text)) ==> r == Unfenced(text)
  {
    if text == [] then text else OutermostObject(Unfenced(text))
  }

  /** The sanitizer only cuts: what it returns is a contiguous part of the
      reply, so it never adds characters of its own. */
  lemma ExtractSlice(text: string)
    ensures IsSlice(ExtractJsonObject(text), text)
  {
    if text == [] {
      SliceOfSelf(text);
    } else {
      OutermostSlice(Unfenced(text));
      UnfencedSlice(text);
      SliceTransitive(ExtractJsonObject(text), Unfenced(text), text);
    }
  }

  /** An object that already starts with `{` and ends with `}` comes back
      unchanged. */
  lemma BracedIsFixedPoint(r: string)
    requires |r| >= 2 && r[0] == '{' && r[|r| - 1] == '}'
    ensures ExtractJsonObject(r) == r
  {
    StripUnchanged(r);
    assert !StartsWith(r, Fence) && !EndsWith(r, Fence);
    assert Unfenced(r) == r;
    assert FindChar(r, '{') == 0;
    assert RFindChar(r, '}') == |r| - 1;
    assert r[0..|r|] == r;
  }

  /** Sanitizing twice is sanitizing once, whenever the first pass found a
      brace-delimited object. */
  lemma ExtractIdempotent(text: string)
    requires text != [] && HasBraceSpan(Unfenced(text))
    ensures ExtractJsonObject(ExtractJsonObject(text)) == ExtractJsonObject(text)
  {
    var r := ExtractJsonObject(text);
    OutermostBracesShape(r, Unfenced(text));
    BracedIsFixedPoint(r);
  }

  /** Prose around an object is dropped: text before it without `{` and text
      after it without `}` do not enter the result. */
  lemma ObjectAmidProse(p: string, body: string, q: string)
    requires '{' !in p && '}' !in q
    requires |body| >= 2 && body[0] == '{' && body[|body| - 1] == '}'
    ensures OutermostObject(p + body + q) == body
  {
    var d := p + body + q;
    var e := |p| + |body| - 1;
    AmidProseParts(p, body, q);
    FindCharIs(d, '{', |p|);
    RFindCharIs(d, '}', e);
  }

  lemma AmidProseParts(p: string, body: string, q: string)
    requires |body| >= 2
    ensures var d := p + body + q;
            && d[|p|] == body[0] && d[|p| + |body| - 1] == body[|body| - 1]
            && d[..|p|] == p && d[|p| + |body|..] == q && d[|p|..|p| + |body|] == body
  {
  }

  /** `FindSub` stops at the first fence when no backquote comes earlier. */
  lemma FirstFenceAt(rest: string, n: nat)
    requires n <= |rest| - 3 && StartsWith(rest[n..], Fence)
    requires forall j :: 0 <= j < n ==> rest[j] != '`'
    ensures FindSub(rest, Fence) == Some(n)
  {
    var v := FindSub(rest, Fence);
    assert v.Some? && v.value <= n;
    var m := v.value;
    assert rest[m] == '`' by {
      assert rest[m..][..3] == Fence;
      assert rest[m] == rest[m..][..3][0];
    }
  }

  lemma StripFencedLine(tag: string, body: string)
    requires forall k :: 0 <= k < |tag| ==> !IsSpace(tag[k])
    requires |body| >= 2 && body[0] == '{' && body[|body| - 1] == '}'
    ensures Strip(tag + "\n" + body + "\n") == (if tag == [] then "" else tag + "\n") + body
  {
    if tag == [] {
      assert tag + "\n" + body + "\n" == "\n" + body + "\n";
      StripNewlines(body);
    } else {
      var d := tag + "\n" + body;
      assert d[0] == tag[0] && d[|d| - 1] == body[|body| - 1];
      assert tag + "\n" + body + "\n" == d + "\n";
      StripTrailingNewline(d);
    }
  }

  lemma StripNewlines(d: string)
    requires d != [] && !IsSpace(d[0]) && !IsSpace(d[|d| - 1])
    ensures Strip("\n" + d + "\n") == d
  {
    StripPadded("\n", d, "\n");
  }

  lemma StripTrailingNewline(d: string)
    requires d != [] && !IsSpace(d[0]) && !IsSpace(d[|d| - 1])
    ensures Strip(d + "\n") == d
  {
    assert [] + d + "\n" == d + "\n";
    StripPadded([], d, "\n");
  }

  /** Between two fences with no backquote inside, the segment is what lies
      between them. */
  lemma SegmentBetweenFences(seg: string)
    requires '`' !in seg
    ensures FencedSegment(Fence + seg + Fence) == seg
  {
    var text := Fence + seg + Fence;
    assert text[..3] == Fence;
    var rest := text[3..];
    assert rest == seg + Fence;
    assert rest[..|seg|] == seg;
    assert rest[|seg|..] == Fence;
    FirstFenceAt(rest, |seg|);
  }

  /** A trimmed text without backquotes does not end with a fence. */
  lemma NoClosingFence(seg: string)
    requires '`' !in seg
    ensures !EndsWith(Strip(seg), Fence)
  {
    var b := Strip(seg);
    StripSlice(seg);
    NotInSlice(b, seg, '`');
    NoFenceIn(b);
  }

  lemma NoFenceIn(b: string)
    requires '`' !in b
    ensures !EndsWith(b, Fence)
  {
    assert |b| >= 3 ==> b[|b| - 3..][2] == b[|b| - 1];
  }

  lemma StripFenced(seg: string)
    requires '`' !in seg
    ensures Strip(Fence + seg + Fence) == Fence + seg + Fence
  {
    var text := Fence + seg + Fence;
    assert text[0] == '`' && text[|text| - 1] == '`';
    StripUnchanged(text);
  }

  lemma UnfenceFenced(seg: string)
    requires '`' !in seg
    ensures Unfence(Fence + seg + Fence) == Strip(seg)
  {
    assert (Fence + seg + Fence)[..3] == Fence;
    SegmentBetweenFences(seg);
    NoClosingFence(seg);
  }

  /** A fenced block with no backquote inside unfences to its stripped content. */
  lemma UnfenceBlock(seg: string)
    requires '`' !in seg
    ensures Unfenced(Fence + seg + Fence) == Strip(seg)
  {
    StripFenced(seg);
    UnfenceFenced(seg);
  }

  /** A fenced block whose trimmed content is an object after a line without
      `{` yields that object. */
  lemma BlockObject(seg: string, p: string, body: string)
    requires '`' !in seg && '{' !in p
    requires |body| >= 2 && body[0] == '{' && body[|body| - 1] == '}'
    requires Strip(seg) == p + body
    ensures ExtractJsonObject(Fence + seg + Fence) == body
  {
    UnfenceBlock(seg);
    ExtractAfterUnfencing(Fence + seg + Fence, p, body);
  }

  /** Once unfencing leaves an object after a prefix without `{`, that object
      is the result. */
  lemma ExtractAfterUnfencing(text: string, p: string, body: string)
    requires '{' !in p
    requires |body| >= 2 && body[0] == '{' && body[|body| - 1] == '}'
    requires text != [] && Unfenced(text) == p + body
    ensures ExtractJsonObject(text) == body
  {
    ExtractIsOutermost(text);
    assert p + body == p + body + "";
    ObjectAmidProse(p, body, "");
  }

  lemma ExtractIsOutermost(text: string)
    requires text != []
    ensures ExtractJsonObject(text) == OutermostObject(Unfenced(text))
  {
  }

  lemma FenceShape(tag: string, body: string)
    ensures Fence + tag + "\n" + body + "\n" + Fence == Fence + (tag + "\n" + body + "\n") + Fence
  {
  }

  /** A reply of the form "```tag\n{...}\n```" yields exactly the object. */
  lemma FencedObject(tag: string, body: string)
    requires forall k :: 0 <= k < |tag| ==> !IsSpace(tag[k]) && tag[k] != '`' && tag[k] != '{'
    requires |body| >= 2 && body[0] == '{' && body[|body| - 1] == '}' && '`' !in body
    ensures ExtractJsonObject(Fence + tag + "\n" + body + "\n" + Fence) == body
  {
    FencedLineParts(tag, body);
    BlockObject(tag + "\n" + body + "\n", if tag == [] then "" else tag + "\n", body);
    FenceShape(tag, body);
  }

  lemma FencedLineParts(tag: string, body: string)
    requires forall k :: 0 <= k < |tag| ==> !IsSpace(tag[k]) && tag[k] != '`' && tag[k] != '{'
    requires |body| >= 2 && body[0] == '{' && body[|body| - 1] == '}' && '`' !in body
    ensures '`' !in tag + "\n" + body + "\n"
    ensures '{' !in (if tag == [] then "" else tag + "\n")
    ensures Strip(tag + "\n" + body + "\n") == (if tag == [] then "" else tag + "\n") + body
  {
    TagChars(tag);
    NoBackquoteInLine(tag, body);
    StripFencedLine(tag, body);
  }

  lemma TagChars(tag: string)
    requires forall k :: 0 <= k < |tag| ==> tag[k] != '`' && tag[k] != '{'
    ensures '`' !in tag && '{' !in (if tag == [] then "" else tag + "\n")
  {
    if tag != [] {
      forall k | 0 <= k < |tag| + 1 ensures (tag + "\n")[k] != '{' {
        if k < |tag| { assert (tag + "\n")[k] == tag[k]; }
      }
    }
  }

  lemma NoBackquoteInLine(tag: string, body: string)
    requires '`' !in tag && '`' !in body
    ensures '`' !in tag + "\n" + body + "\n"
  {
  }
}
