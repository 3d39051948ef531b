/**
 * `DesignForm`: the form state (`formData`, `thumbnail`, `previewImages`,
 * `cropImage`, `cropTarget`, `errors`), its validation, the tag parsing and
 * the multipart body built on submit, and the crop hand-back.
 *
 * `new URL(...)` is an oracle: `isValidUrl` says whether the URL constructor
 * accepts a string. A multipart body is the sequence of its appended entries.
 */
module DesignForm {
  import opened Wrappers
  import opened Strings
  import opened Helpers
  import Collections
  import opened Uploader
  import Cropper

  /** The text inputs of the form, by their `name`. */
  datatype Field = Title | Category | Description | Url | Tags

  datatype FormData = FormData(title: string, category: string, description: string, url: string, tags: string)

  function Get(d: FormData, f: Field): string {
    match f
    case Title => d.title
    case Category => d.category
    case Description => d.description
    case Url => d.url
    case Tags => d.tags
  }

  function With(d: FormData, f: Field, v: string): (r: FormData)
    ensures Get(r, f) == v
    ensures forall g :: g != f ==> Get(r, g) == Get(d, g)
  {
    match f
    case Title => d.(title := v)
    case Category => d.(category := v)
    case Description => d.(description := v)
    case Url => d.(url := v)
    case Tags => d.(tags := v)
  }

  /** The design being edited; any field may be missing. */
  datatype Design = Design(title: Option<string>, category: Option<string>, description: Option<string>,
                           url: Option<string>, tags: Option<seq<string>>)

  /** `categories[1].slug`, the category preselected for a new design. */
  const DefaultCategory: string := "web-site"

  function OrEmpty(s: Option<string>): string {
    if s.Some? then s.value else ""
  }

  /** The initial `formData`: each field from the design, else empty; the category else the default; tags joined with ", ". */
  function InitialFormData(initial: Option<Design>): (d: FormData)
    ensures initial.None? ==> d == FormData("", DefaultCategory, "", "", "")
    ensures d.category != ""
  {
    if initial.None? then FormData("", DefaultCategory, "", "", "")
    else
      var i := initial.value;
      FormData(OrEmpty(i.title),
               if OrEmpty(i.category) != "" then i.category.value else DefaultCategory,
               OrEmpty(i.description), OrEmpty(i.url),
               if i.tags.Some? then Join(i.tags.value, ", ") else "")
  }

  const TitleRequired: string := "Title is required"
  const CategoryRequired: string := "Category is required"
  const DescriptionRequired: string := "Description is required"
  const InvalidUrl: string := "Invalid URL format"
  const ThumbnailRequired: string := "Thumbnail is required"
  const PreviewRequired: string := "At least one preview image is required"

  /**
   * The error object, one entry per key `validate` may set. None is an entry
   * that is absent or was cleared to `null`; both read as no error.
   */
  datatype Errors = Errors(title: Option<string>, category: Option<string>, description: Option<string>,
                           url: Option<string>, thumbnail: Option<string>, previewImages: Option<string>)

  const NoErrors: Errors := Errors(None, None, None, None, None, None)

  /** `errors[name]` for an input (the tags input has no error). */
  function ErrorOf(e: Errors, f: Field): Option<string> {
    match f
    case Title => e.title
    case Category => e.category
    case Description => e.description
    case Url => e.url
    case Tags => None
  }

  /** `{ ...errors, [name]: null }`. */
  function ClearError(e: Errors, f: Field): (r: Errors)
    ensures ErrorOf(r, f) == None
    ensures forall g :: g != f ==> ErrorOf(r, g) == ErrorOf(e, g)
    ensures r.thumbnail == e.thumbnail && r.previewImages == e.previewImages
  {
    match f
    case Title => e.(title := None)
    case Category => e.(category := None)
    case Description => e.(description := None)
    case Url => e.(url := None)
    case Tags => e
  }

  function Rule(broken: bool, message: string): Option<string> {
    if broken then Some(message) else None
  }

  /**
   * The rules of `validate`, one per key: blank title or description, empty
   * category, a non-empty URL the URL parser refuses, and, for a new design
   * only, no thumbnail or no preview.
   */
  function FormErrors(d: FormData, isNew: bool, thumbnails: nat, previews: nat, isValidUrl: string -> bool): Errors {
    Errors(Rule(Trim(d.title) == "", TitleRequired),
           Rule(d.category == "", CategoryRequired),
           Rule(Trim(d.description) == "", DescriptionRequired),
           Rule(d.url != "" && !isValidUrl(d.url), InvalidUrl),
           Rule(isNew && thumbnails == 0, ThumbnailRequired),
           Rule(isNew && previews == 0, PreviewRequired))
  }

  /** `validate`'s error object, filled one rule at a time in the order the rules are checked. */
  method CollectErrors(d: FormData, isNew: bool, thumbnails: nat, previews: nat, isValidUrl: string -> bool)
    returns (newErrors: Errors)
    ensures newErrors == FormErrors(d, isNew, thumbnails, previews, isValidUrl)
  {
    newErrors := NoErrors;
    if Trim(d.title) == "" {
      newErrors := newErrors.(title := Some(TitleRequired));
    }
    if d.category == "" {
      newErrors := newErrors.(category := Some(CategoryRequired));
    }
    if Trim(d.description) == "" {
      newErrors := newErrors.(description := Some(DescriptionRequired));
    }
    if d.url != "" && !isValidUrl(d.url) {
      newErrors := newErrors.(url := Some(InvalidUrl));
    }
    if isNew {
      if thumbnails == 0 {
        newErrors := newErrors.(thumbnail := Some(ThumbnailRequired));
      }
      if previews == 0 {
        newErrors := newErrors.(previewImages := Some(PreviewRequired));
      }
    }
  }

  /**
   * The form is valid exactly when title and description are not blank, a
   * category is chosen, the URL is empty or parses, and a new design has a
   * thumbnail and a preview; an empty URL and an edit's missing images are
   * never errors.
   */
  lemma FormValidIff(d: FormData, isNew: bool, thumbnails: nat, previews: nat, isValidUrl: string -> bool)
    ensures FormErrors(d, isNew, thumbnails, previews, isValidUrl) == NoErrors <==>
      Trim(d.title) != "" && d.category != "" && Trim(d.description) != ""
      && (d.url == "" || isValidUrl(d.url))
      && (isNew ==> thumbnails > 0 && previews > 0)
    ensures d.url == "" ==> FormErrors(d, isNew, thumbnails, previews, isValidUrl).url == None
    ensures !isNew ==>
      FormErrors(d, isNew, thumbnails, previews, isValidUrl).thumbnail == None
      && FormErrors(d, isNew, thumbnails, previews, isValidUrl).previewImages == None
  {
  }

  // ---------------------------------------------------------------- tags

  /** A tag as stored: non-empty, no surrounding white space, no capitals, no comma. */
  predicate NormalTag(t: string) {
    t != "" && IsTrimmed(t) && ',' !in t && forall i :: 0 <= i < |t| ==> !IsUpper(t[i])
  }

  /** `tag.trim().toLowerCase()`. */
  function CleanTag(piece: string): string {
    ToLower(Trim(piece))
  }

  /** `.map(tag => tag.trim().toLowerCase()).filter(Boolean)`. */
  function CleanTags(pieces: seq<string>): seq<string> {
    if pieces == [] then []
    else
      var t := CleanTag(pieces[0]);
      (if t != "" then [t] else []) + CleanTags(pieces[1..])
  }

  /** The tags of the form: its comma-separated pieces, trimmed and lower-cased, empties dropped, in order. */
  function ParseTags(s: string): seq<string> {
    CleanTags(Split(s, ','))
  }

  lemma CleanTagIsNormal(piece: string)
    requires ',' !in piece && CleanTag(piece) != ""
    ensures NormalTag(CleanTag(piece))
  {
    var t := Trim(piece);
    TrimDropsNoComma(piece);
    LowerKeepsTrimmed(t);
    LowerKeepsComma(t);
  }

  lemma TrimDropsNoComma(piece: string)
    requires ',' !in piece
    ensures ',' !in Trim(piece)
  {
    TrimIsSlice(piece);
    var a, b :| 0 <= a <= b <= |piece| && Trim(piece) == piece[a..b];
    forall i | 0 <= i < b - a ensures Trim(piece)[i] != ',' {
      assert Trim(piece)[i] == piece[a + i];
    }
  }

  lemma LowerKeepsTrimmed(t: string)
    requires IsTrimmed(t)
    ensures IsTrimmed(ToLower(t))
  {
    LowerKeepsSpaces(t);
  }

  lemma LowerKeepsComma(t: string)
    requires ',' !in t
    ensures ',' !in ToLower(t)
  {
    forall i | 0 <= i < |t| ensures ToLower(t)[i] != ',' {
      assert t[i] != ',';
    }
  }

  predicate CommaFree(pieces: seq<string>) {
    forall k :: 0 <= k < |pieces| ==> ',' !in pieces[k]
  }

  predicate AllNormal(ts: seq<string>) {
    forall k :: 0 <= k < |ts| ==> NormalTag(ts[k])
  }

  lemma {:induction false} CleanTagsAreNormal(pieces: seq<string>)
    requires CommaFree(pieces)
    ensures AllNormal(CleanTags(pieces))
  {
    if pieces != [] {
      var t := CleanTag(pieces[0]);
      var head := if t != "" then [t] else [];
      var rest := CleanTags(pieces[1..]);
      assert CleanTags(pieces) == head + rest;
      assert ',' !in pieces[0];
      assert CommaFree(pieces[1..]) by {
        forall k | 0 <= k < |pieces| - 1 ensures ',' !in pieces[1..][k] {
          assert pieces[1..][k] == pieces[k + 1];
        }
      }
      CleanTagsAreNormal(pieces[1..]);
      if t != "" {
        CleanTagIsNormal(pieces[0]);
      }
      forall k | 0 <= k < |head + rest| ensures NormalTag((head + rest)[k]) {
        if k >= |head| {
          assert (head + rest)[k] == rest[k - |head|];
        }
      }
    }
  }

  /** Every parsed tag is non-empty, trimmed, lower-case and free of commas. */
  lemma ParsedTagsAreNormal(s: string)
    ensures AllNormal(ParseTags(s))
  {
    SplitPiecesLackSeparator(s, ',');
    CleanTagsAreNormal(Split(s, ','));
  }

  lemma NormalTagIsClean(t: string)
    requires NormalTag(t)
    ensures CleanTag(t) == t
  {
    TrimmedIsFixed(t);
    LowerFixesLowercase(t);
  }

  lemma {:induction false} CleanTagsAppend(a: seq<string>, b: seq<string>)
    ensures CleanTags(a + b) == CleanTags(a) + CleanTags(b)
  {
    if a == [] {
      assert a + b == b;
    } else {
      var t := CleanTag(a[0]);
      var head := if t != "" then [t] else [];
      Collections.ConsAppend(a, b);
      assert CleanTags(a + b) == head + CleanTags(a[1..] + b);
      CleanTagsAppend(a[1..], b);
      Collections.AppendAssoc(head, CleanTags(a[1..]), CleanTags(b));
    }
  }

  /** A leading blank (the one after each ", ") does not change what a list of pieces parses to. */
  lemma SpacePrefixParse(s: string)
    ensures ParseTags([' '] + s) == ParseTags(s)
  {
    var ps := Split(s, ',');
    var qs := Split([' '] + s, ',');
    assert ([' '] + s)[1..] == s;
    assert qs == [[' '] + ps[0]] + ps[1..];
    SpacePrefixTrim(ps[0]);
    assert CleanTag(qs[0]) == CleanTag(ps[0]);
    assert qs[1..] == ps[1..];
    assert ps == [ps[0]] + ps[1..];
  }

  /** One normal tag parses to itself. */
  lemma ParseOneTag(t: string)
    requires NormalTag(t)
    ensures ParseTags(t) == [t]
  {
    SplitNoSeparator(t, ',');
    NormalTagIsClean(t);
    assert [t][1..] == [];
    assert CleanTags([t]) == [t] + CleanTags([]);
  }

  /** A normal tag followed by ", " and more text parses to that tag, then whatever the rest parses to. */
  lemma ParseConsTag(t: string, rest: string)
    requires NormalTag(t)
    ensures ParseTags(t + ", " + rest) == [t] + ParseTags(rest)
  {
    assert t + ", " + rest == t + [','] + ([' '] + rest);
    SplitAtSeparator(t, [' '] + rest, ',');
    SplitNoSeparator(t, ',');
    NormalTagIsClean(t);
    CleanTagsAppend([t], Split([' '] + rest, ','));
    assert [t][1..] == [];
    SpacePrefixParse(rest);
  }

  /** Tags shown joined with ", " (as the form is filled from a design) parse back to the same tags. */
  lemma {:induction false} ParseJoinedTags(ts: seq<string>)
    requires AllNormal(ts)
    ensures ParseTags(Join(ts, ", ")) == ts
  {
    if |ts| == 0 {
      assert Split("", ',') == [""];
    } else if |ts| == 1 {
      assert NormalTag(ts[0]);
      ParseOneTag(ts[0]);
    } else {
      assert NormalTag(ts[0]);
      assert AllNormal(ts[1..]) by {
        forall k | 0 <= k < |ts| - 1 ensures NormalTag(ts[1..][k]) {
          assert ts[1..][k] == ts[k + 1];
        }
      }
      ParseConsTag(ts[0], Join(ts[1..], ", "));
      ParseJoinedTags(ts[1..]);
      assert ts == [ts[0]] + ts[1..];
    }
  }

  /** Parsing is stable: the stored tags, shown again, parse to themselves. */
  lemma ParseTagsStable(s: string)
    ensures ParseTags(Join(ParseTags(s), ", ")) == ParseTags(s)
  {
    ParsedTagsAreNormal(s);
    ParseJoinedTags(ParseTags(s));
  }

  // ---------------------------------------------------------------- the multipart body

  datatype PartValue = Text(text: string) | Blob(file: ImageFile)

  /** One `submitData.append(key, value)`. */
  datatype Part = Part(key: string, value: PartValue)

  /** The entries appending each value under one key, in order. */
  function Keyed(key: string, values: seq<PartValue>): (r: seq<Part>)
    ensures |r| == |values|
    ensures forall k :: 0 <= k < |values| ==> r[k] == Part(key, values[k])
  {
    seq(|values|, k requires 0 <= k < |values| => Part(key, values[k]))
  }

  function Texts(ts: seq<string>): (r: seq<PartValue>)
    ensures |r| == |ts|
    ensures forall k :: 0 <= k < |ts| ==> r[k] == Text(ts[k])
  {
    seq(|ts|, k requires 0 <= k < |ts| => Text(ts[k]))
  }

  function Blobs(files: seq<ImageFile>): (r: seq<PartValue>)
    ensures |r| == |files|
    ensures forall k :: 0 <= k < |files| ==> r[k] == Blob(files[k])
  {
    seq(|files|, k requires 0 <= k < |files| => Blob(files[k]))
  }

  /** The files of the preview images that carry one, in order. */
  function PreviewFiles(images: seq<PendingImage>): seq<ImageFile> {
    if images == [] then []
    else (if images[0].file.Some? then [images[0].file.value] else []) + PreviewFiles(images[1..])
  }

  /** The text fields in the order they are appended; the URL only when it is not blank. */
  function TextParts(title: string, category: string, description: string, url: string): seq<Part> {
    [Part("title", Text(title)), Part("category", Text(category)), Part("description", Text(description))]
    + (if url != "" then [Part("url", Text(url))] else [])
  }

  /** The thumbnail's file (when it has one) and every preview file, for a new design only. */
  function ImageParts(isNew: bool, thumbnail: seq<PendingImage>, previews: seq<PendingImage>): seq<Part> {
    if !isNew then []
    else
      (if thumbnail != [] && thumbnail[0].file.Some? then [Part("thumbnail", Blob(thumbnail[0].file.value))] else [])
      + Keyed("previewImages", Blobs(PreviewFiles(previews)))
  }

  /** The body from the cleaned-up fields: text fields, one `tags[]` per tag, then the images. */
  function Assemble(title: string, category: string, description: string, url: string, tags: seq<string>,
                    isNew: bool, thumbnail: seq<PendingImage>, previews: seq<PendingImage>): seq<Part> {
    TextParts(title, category, description, url) + Keyed("tags[]", Texts(tags)) + ImageParts(isNew, thumbnail, previews)
  }

  /**
   * The body `handleSubmit` sends: trimmed title, category, trimmed
   * description, the trimmed URL when not blank, one `tags[]` per parsed tag,
   * then, for a new design only, the thumbnail's file and every preview file.
   */
  function Submission(d: FormData, isNew: bool, thumbnail: seq<PendingImage>, previews: seq<PendingImage>): seq<Part> {
    Assemble(Trim(d.title), d.category, Trim(d.description), Trim(d.url), ParseTags(d.tags), isNew, thumbnail, previews)
  }

  /** The values appended under one key, in order. */
  function ValuesFor(parts: seq<Part>, key: string): seq<PartValue> {
    if parts == [] then []
    else (if parts[0].key == key then [parts[0].value] else []) + ValuesFor(parts[1..], key)
  }

  lemma {:induction false} ValuesForAppend(a: seq<Part>, b: seq<Part>, key: string)
    ensures ValuesFor(a + b, key) == ValuesFor(a, key) + ValuesFor(b, key)
  {
    if a == [] {
      assert a + b == b;
    } else {
      var head := if a[0].key == key then [a[0].value] else [];
      Collections.ConsAppend(a, b);
      assert ValuesFor(a + b, key) == head + ValuesFor(a[1..] + b, key);
      ValuesForAppend(a[1..], b, key);
      Collections.AppendAssoc(head, ValuesFor(a[1..], key), ValuesFor(b, key));
    }
  }

  /** Reading back one key of entries appended under one key. */
  lemma {:induction false} ValuesForKeyed(key: string, values: seq<PartValue>, other: string)
    ensures ValuesFor(Keyed(key, values), key) == values
    ensures key != other ==> ValuesFor(Keyed(key, values), other) == []
  {
    if values != [] {
      assert Keyed(key, values)[1..] == Keyed(key, values[1..]);
      ValuesForKeyed(key, values[1..], other);
      assert values == [values[0]] + values[1..];
    }
  }

  /** Each text field is appended exactly once under its own key, the URL only when not blank. */
  lemma TextPartsValues(title: string, category: string, description: string, url: string, key: string)
    ensures ValuesFor(TextParts(title, category, description, url), key)
      == (if key == "title" then [Text(title)]
          else if key == "category" then [Text(category)]
          else if key == "description" then [Text(description)]
          else if key == "url" && url != "" then [Text(url)]
          else [])
  {
    var a, b, c := Part("title", Text(title)), Part("category", Text(category)), Part("description", Text(description));
    var tail := if url != "" then [Part("url", Text(url))] else [];
    assert TextParts(title, category, description, url) == [a] + [b] + [c] + tail;
    ValuesForAppend([a] + [b] + [c], tail, key);
    ValuesForAppend([a] + [b], [c], key);
    ValuesForAppend([a], [b], key);
    ValuesForOne(a, key);
    ValuesForOne(b, key);
    ValuesForOne(c, key);
    if url != "" {
      ValuesForOne(Part("url", Text(url)), key);
    }
  }

  lemma ValuesForOne(p: Part, key: string)
    ensures ValuesFor([p], key) == (if p.key == key then [p.value] else [])
  {
    assert [p][1..] == [];
  }

  /** No image entries in an edit; otherwise the thumbnail's file, if any, and the preview files in order. */
  lemma ImagePartsValues(isNew: bool, thumbnail: seq<PendingImage>, previews: seq<PendingImage>, key: string)
    ensures ValuesFor(ImageParts(isNew, thumbnail, previews), key)
      == (if !isNew then []
          else if key == "thumbnail" && thumbnail != [] && thumbnail[0].file.Some? then [Blob(thumbnail[0].file.value)]
          else if key == "previewImages" then Blobs(PreviewFiles(previews))
          else [])
  {
    if isNew {
      var t := if thumbnail != [] && thumbnail[0].file.Some? then [Part("thumbnail", Blob(thumbnail[0].file.value))] else [];
      ValuesForAppend(t, Keyed("previewImages", Blobs(PreviewFiles(previews))), key);
      ValuesForKeyed("previewImages", Blobs(PreviewFiles(previews)), key);
      if t != [] {
        assert t[1..] == [];
      }
    }
  }

  /** Every key's entries are those of the text fields, then those of the tags, then those of the images. */
  lemma AssembleValues(title: string, category: string, description: string, url: string, tags: seq<string>,
                       isNew: bool, thumbnail: seq<PendingImage>, previews: seq<PendingImage>, key: string)
    ensures ValuesFor(Assemble(title, category, description, url, tags, isNew, thumbnail, previews), key)
      == ValuesFor(TextParts(title, category, description, url), key)
         + ValuesFor(Keyed("tags[]", Texts(tags)), key)
         + ValuesFor(ImageParts(isNew, thumbnail, previews), key)
  {
    var text := TextParts(title, category, description, url);
    var keyed := Keyed("tags[]", Texts(tags));
    ValuesForAppend(text, keyed, key);
    ValuesForAppend(text + keyed, ImageParts(isNew, thumbnail, previews), key);
  }

  /** In a body with any fields and tags, the text keys carry only the text fields. */
  lemma AssembleTextKey(title: string, category: string, description: string, url: string, tags: seq<string>,
                        isNew: bool, thumbnail: seq<PendingImage>, previews: seq<PendingImage>, key: string)
    requires key == "title" || key == "category" || key == "description" || key == "url"
    ensures ValuesFor(Assemble(title, category, description, url, tags, isNew, thumbnail, previews), key)
      == ValuesFor(TextParts(title, category, description, url), key)
  {
    AssembleValues(title, category, description, url, tags, isNew, thumbnail, previews, key);
    ValuesForKeyed("tags[]", Texts(tags), key);
    ImagePartsValues(isNew, thumbnail, previews, key);
    Collections.OnlyFirst(ValuesFor(TextParts(title, category, description, url), key),
              ValuesFor(Keyed("tags[]", Texts(tags)), key),
              ValuesFor(ImageParts(isNew, thumbnail, previews), key));
  }

  /** The `tags[]` entries of a body are exactly its tags, in order. */
  lemma AssembleTags(title: string, category: string, description: string, url: string, tags: seq<string>,
                     isNew: bool, thumbnail: seq<PendingImage>, previews: seq<PendingImage>)
    ensures ValuesFor(Assemble(title, category, description, url, tags, isNew, thumbnail, previews), "tags[]") == Texts(tags)
  {
    AssembleValues(title, category, description, url, tags, isNew, thumbnail, previews, "tags[]");
    TextPartsValues(title, category, description, url, "tags[]");
    ValuesForKeyed("tags[]", Texts(tags), "tags[]");
    ImagePartsValues(isNew, thumbnail, previews, "tags[]");
    Collections.OnlySecond(ValuesFor(TextParts(title, category, description, url), "tags[]"),
               ValuesFor(Keyed("tags[]", Texts(tags)), "tags[]"),
               ValuesFor(ImageParts(isNew, thumbnail, previews), "tags[]"));
  }

  /** In a body with any fields and tags, the image keys carry only the images. */
  lemma AssembleImageKey(title: string, category: string, description: string, url: string, tags: seq<string>,
                         isNew: bool, thumbnail: seq<PendingImage>, previews: seq<PendingImage>, key: string)
    requires key == "thumbnail" || key == "previewImages"
    ensures ValuesFor(Assemble(title, category, description, url, tags, isNew, thumbnail, previews), key)
      == ValuesFor(ImageParts(isNew, thumbnail, previews), key)
  {
    AssembleValues(title, category, description, url, tags, isNew, thumbnail, previews, key);
    TextPartsValues(title, category, description, url, key);
    ValuesForKeyed("tags[]", Texts(tags), key);
    Collections.OnlyThird(ValuesFor(TextParts(title, category, description, url), key),
              ValuesFor(Keyed("tags[]", Texts(tags)), key),
              ValuesFor(ImageParts(isNew, thumbnail, previews), key));
  }

  /**
   * The submitted text fields: the title and description trimmed, the
   * category as chosen, each once; the URL, trimmed, exactly when it is not blank.
   */
  lemma SubmissionFields(d: FormData, isNew: bool, thumbnail: seq<PendingImage>, previews: seq<PendingImage>)
    ensures ValuesFor(Submission(d, isNew, thumbnail, previews), "title") == [Text(Trim(d.title))]
    ensures ValuesFor(Submission(d, isNew, thumbnail, previews), "category") == [Text(d.category)]
    ensures ValuesFor(Submission(d, isNew, thumbnail, previews), "description") == [Text(Trim(d.description))]
    ensures ValuesFor(Submission(d, isNew, thumbnail, previews), "url")
      == (if Trim(d.url) != "" then [Text(Trim(d.url))] else [])
  {
    var title, description, url, tags := Trim(d.title), Trim(d.description), Trim(d.url), ParseTags(d.tags);
    AssembleTextKey(title, d.category, description, url, tags, isNew, thumbnail, previews, "title");
    AssembleTextKey(title, d.category, description, url, tags, isNew, thumbnail, previews, "category");
    AssembleTextKey(title, d.category, description, url, tags, isNew, thumbnail, previews, "description");
    AssembleTextKey(title, d.category, description, url, tags, isNew, thumbnail, previews, "url");
    TextPartsValues(title, d.category, description, url, "title");
    TextPartsValues(title, d.category, description, url, "category");
    TextPartsValues(title, d.category, description, url, "description");
    TextPartsValues(title, d.category, description, url, "url");
  }

  /** The `tags[]` entries are exactly the parsed tags, in order. */
  lemma SubmissionTags(d: FormData, isNew: bool, thumbnail: seq<PendingImage>, previews: seq<PendingImage>)
    ensures ValuesFor(Submission(d, isNew, thumbnail, previews), "tags[]") == Texts(ParseTags(d.tags))
  {
    AssembleTags(Trim(d.title), d.category, Trim(d.description), Trim(d.url), ParseTags(d.tags), isNew, thumbnail, previews);
  }

  /**
   * Images go only with a new design: then the thumbnail's file (if it has
   * one) and the files of the previews that have one, in order; an edit
   * sends no image at all.
   */
  lemma SubmissionImages(d: FormData, isNew: bool, thumbnail: seq<PendingImage>, previews: seq<PendingImage>)
    ensures ValuesFor(Submission(d, isNew, thumbnail, previews), "previewImages")
      == (if isNew then Blobs(PreviewFiles(previews)) else [])
    ensures ValuesFor(Submission(d, isNew, thumbnail, previews), "thumbnail")
      == (if isNew && thumbnail != [] && thumbnail[0].file.Some? then [Blob(thumbnail[0].file.value)] else [])
  {
    var title, description, url, tags := Trim(d.title), Trim(d.description), Trim(d.url), ParseTags(d.tags);
    AssembleImageKey(title, d.category, description, url, tags, isNew, thumbnail, previews, "previewImages");
    AssembleImageKey(title, d.category, description, url, tags, isNew, thumbnail, previews, "thumbnail");
    ImagePartsValues(isNew, thumbnail, previews, "previewImages");
    ImagePartsValues(isNew, thumbnail, previews, "thumbnail");
  }

  lemma {:induction false} PreviewFilesAppend(a: seq<PendingImage>, b: seq<PendingImage>)
    ensures PreviewFiles(a + b) == PreviewFiles(a) + PreviewFiles(b)
  {
    if a == [] {
      assert a + b == b;
    } else {
      var head := if a[0].file.Some? then [a[0].file.value] else [];
      Collections.ConsAppend(a, b);
      assert PreviewFiles(a + b) == head + PreviewFiles(a[1..] + b);
      PreviewFilesAppend(a[1..], b);
      Collections.AppendAssoc(head, PreviewFiles(a[1..]), PreviewFiles(b));
    }
  }

  /** A preview without a file is skipped; when all have one, all are sent in order. */
  lemma {:induction false} PreviewFilesSkipFileless(images: seq<PendingImage>)
    ensures |PreviewFiles(images)| <= |images|
    ensures (forall k :: 0 <= k < |images| ==> images[k].file.Some?) ==>
      PreviewFiles(images) == seq(|images|, k requires 0 <= k < |images| => images[k].file.value)
  {
    if images != [] {
      PreviewFilesSkipFileless(images[1..]);
    }
  }

  /** `tags.forEach(tag => submitData.append('tags[]', tag))`. */
  method AppendTags(body: seq<Part>, tags: seq<string>) returns (r: seq<Part>)
    ensures r == body + Keyed("tags[]", Texts(tags))
  {
    r := body;
    var i := 0;
    while i < |tags|
      invariant 0 <= i <= |tags|
      invariant r == body + Keyed("tags[]", Texts(tags[..i]))
    {
      assert Keyed("tags[]", Texts(tags[..i + 1])) == Keyed("tags[]", Texts(tags[..i])) + [Part("tags[]", Text(tags[i]))];
      r := r + [Part("tags[]", Text(tags[i]))];
      i := i + 1;
    }
    assert tags[..i] == tags;
  }

  /** `previewImages.forEach(img => { if (img.file) submitData.append('previewImages', img.file) })`. */
  method AppendPreviewFiles(body: seq<Part>, previews: seq<PendingImage>) returns (r: seq<Part>)
    ensures r == body + Keyed("previewImages", Blobs(PreviewFiles(previews)))
  {
    r := body;
    var j := 0;
    while j < |previews|
      invariant 0 <= j <= |previews|
      invariant r == body + Keyed("previewImages", Blobs(PreviewFiles(previews[..j])))
    {
      var img := previews[j];
      assert previews[..j + 1] == previews[..j] + [img];
      PreviewFilesSnoc(previews[..j], img);
      if img.file.Some? {
        KeyedBlobsSnoc("previewImages", PreviewFiles(previews[..j]), img.file.value);
        Collections.AppendAssoc(body, Keyed("previewImages", Blobs(PreviewFiles(previews[..j]))),
                                [Part("previewImages", Blob(img.file.value))]);
        r := r + [Part("previewImages", Blob(img.file.value))];
      }
      j := j + 1;
    }
    assert previews[..j] == previews;
  }

  lemma PreviewFilesSnoc(images: seq<PendingImage>, img: PendingImage)
    ensures PreviewFiles(images + [img]) == PreviewFiles(images) + (if img.file.Some? then [img.file.value] else [])
  {
    PreviewFilesAppend(images, [img]);
    assert [img][1..] == [];
  }

  lemma KeyedBlobsSnoc(key: string, files: seq<ImageFile>, f: ImageFile)
    ensures Keyed(key, Blobs(files + [f])) == Keyed(key, Blobs(files)) + [Part(key, Blob(f))]
  {
  }

  /**
   * `handleSubmit` after validation: appends the fields one by one (title
   * and description trimmed, the URL only when its trimmed text is not
   * blank), then each parsed tag, then (new designs only) the thumbnail and
   * each preview that has a file.
   */
  method BuildSubmission(d: FormData, isNew: bool, thumbnail: seq<PendingImage>, previews: seq<PendingImage>)
    returns (body: seq<Part>)
    ensures body == Submission(d, isNew, thumbnail, previews)
  {
    body := AppendAll(Trim(d.title), d.category, Trim(d.description), Trim(d.url), ParseTags(d.tags), isNew, thumbnail, previews);
  }

  /** The appends of `handleSubmit`, in order, given the cleaned-up field values. */
  method AppendAll(title: string, category: string, description: string, url: string, tags: seq<string>,
                   isNew: bool, thumbnail: seq<PendingImage>, previews: seq<PendingImage>)
    returns (body: seq<Part>)
    ensures body == Assemble(title, category, description, url, tags, isNew, thumbnail, previews)
  {
    body := [Part("title", Text(title))];
    body := body + [Part("category", Text(category))];
    body := body + [Part("description", Text(description))];
    if url != "" {
      body := body + [Part("url", Text(url))];
    }
    assert body == TextParts(title, category, description, url);
    body := AppendTags(body, tags);
    ghost var prefix := body;
    if isNew {
      var thumbnailPart: seq<Part> := [];
      if thumbnail != [] && thumbnail[0].file.Some? {
        thumbnailPart := [Part("thumbnail", Blob(thumbnail[0].file.value))];
        body := body + thumbnailPart;
      } else {
        assert body == prefix + thumbnailPart;
      }
      body := AppendPreviewFiles(body, previews);
      Collections.AppendAssoc(prefix, thumbnailPart, Keyed("previewImages", Blobs(PreviewFiles(previews))));
    } else {
      assert body == prefix + [];
    }
  }

  // ---------------------------------------------------------------- the component

  datatype CropTarget = ThumbnailTarget | PreviewTarget

  /** The uploader props of the two image fields. */
  const ThumbnailUploader: UploaderProps := UploaderProps(1, MaxPreviewSize, DefaultAccept, false)
  const PreviewUploader: UploaderProps := UploaderProps(5, MaxPreviewSize, DefaultAccept, true)

  /** The cropped image replaces the one being cropped, keeping its id. */
  function CroppedImage(source: PendingImage, result: Cropper.CropResult): (p: PendingImage)
    ensures p.id == source.id && p.file == Some(result.file) && p.preview == result.preview
    ensures p.name == result.file.name && p.size == result.file.size
  {
    PendingImage(source.id, Some(result.file), result.preview, result.file.name, result.file.size)
  }

  /** A cropped preview takes the place of the original: same length, same ids, the rest untouched. */
  lemma CropReplacesInPlace(previews: seq<PendingImage>, source: PendingImage, result: Cropper.CropResult)
    ensures var r := Collections.ReplaceById(previews, ImageId, source.id, CroppedImage(source, result));
      |r| == |previews|
      && (forall k :: 0 <= k < |r| ==> r[k].id == previews[k].id)
      && (forall k :: 0 <= k < |r| && previews[k].id != source.id ==> r[k] == previews[k])
  {
  }

  /** The `aspectRatio` prop the form passes to the cropper: 16:9 while the thumbnail is cropped, none otherwise. */
  function RatioFor(target: Option<CropTarget>): (r: Option<Cropper.Ratio>)
    ensures r.Some? <==> target == Some(ThumbnailTarget)
    ensures r.Some? ==> r.value == Cropper.SixteenNine
  {
    if target == Some(ThumbnailTarget) then Some(Cropper.SixteenNine) else None
  }

  /**
   * The cropper element is rendered with the form, while no crop target is
   * set, so its ratio is fixed at 4:3 then; the 16:9 handed over for a
   * thumbnail crop never reaches its state.
   */
  lemma MountedCropperRatio()
    ensures Cropper.InitialRatio(RatioFor(None)) == Cropper.FourThree
    ensures Cropper.InitialRatio(RatioFor(Some(ThumbnailTarget))) == Cropper.SixteenNine
  {
  }

  class DesignFormState {
    var formData: FormData
    var thumbnail: seq<PendingImage>
    var previewImages: seq<PendingImage>
    var cropImage: Option<PendingImage>
    var cropTarget: Option<CropTarget>
    var errors: Errors
    /** No `initialData`: the form creates a design. */
    const isNew: bool
    /**
     * The cropper, mounted once with the form and never unmounted: its crop,
     * completed crop, ratio and lock carry over from one crop request to the
     * next, since no handler of the form touches them.
     */
    const cropper: Cropper.ImageCropper

    /** A crop is only ever requested for an image. */
    ghost predicate Valid()
      reads this
    {
      cropTarget.Some? ==> cropImage.Some?
    }

    constructor (initial: Option<Design>)
      ensures Valid()
      ensures isNew == initial.None? && formData == InitialFormData(initial)
      ensures thumbnail == [] && previewImages == [] && cropImage == None && cropTarget == None && errors == NoErrors
      ensures fresh(cropper) && cropper.Valid()
      ensures cropper.selectedRatio == Cropper.FourThree && cropper.isLocked && cropper.completedCrop == None
    {
      cropper := new Cropper.ImageCropper(RatioFor(None));
      isNew := initial.None?;
      formData := InitialFormData(initial);
      thumbnail, previewImages := [], [];
      cropImage, cropTarget := None, None;
      errors := NoErrors;
    }

    /** The ratio the cropper is given on this render: 16:9 for the thumbnail, none otherwise. */
    function CropperRatio(): (r: Option<Cropper.Ratio>)
      reads this
      ensures r == Some(Cropper.SixteenNine) <==> cropTarget == Some(ThumbnailTarget)
      ensures r.None? <==> cropTarget != Some(ThumbnailTarget)
    {
      RatioFor(cropTarget)
    }

    /** `handleChange`: sets the field; clears that field's error only when one is shown. */
    method HandleChange(f: Field, v: string)
      modifies this`formData, this`errors
      ensures formData == With(old(formData), f, v)
      ensures errors == (if ErrorOf(old(errors), f).Some? && ErrorOf(old(errors), f).value != ""
                         then ClearError(old(errors), f) else old(errors))
    {
      formData := With(formData, f, v);
      var shown := ErrorOf(errors, f);
      if shown.Some? && shown.value != "" {
        errors := ClearError(errors, f);
      }
    }

    /** `validate`: the error state becomes exactly the broken rules; the result says whether there were none. */
    method Validate(isValidUrl: string -> bool) returns (ok: bool)
      modifies this`errors
      ensures errors == FormErrors(formData, isNew, |thumbnail|, |previewImages|, isValidUrl)
      ensures ok <==> errors == NoErrors
    {
      errors := CollectErrors(formData, isNew, |thumbnail|, |previewImages|, isValidUrl);
      ok := errors == NoErrors;
    }

    /** `handleSubmit`: validates, and only when valid hands over the body. */
    method HandleSubmit(isValidUrl: string -> bool) returns (submitted: Option<seq<Part>>)
      modifies this`errors
      ensures errors == FormErrors(formData, isNew, |thumbnail|, |previewImages|, isValidUrl)
      ensures submitted.Some? <==> errors == NoErrors
      ensures submitted.Some? ==> submitted.value == Submission(formData, isNew, thumbnail, previewImages)
    {
      var ok := Validate(isValidUrl);
      if !ok {
        return None;
      }
      var body := BuildSubmission(formData, isNew, thumbnail, previewImages);
      submitted := Some(body);
    }

    /**
     * `handleCropRequest`: opens the cropper on an image for one of the two
     * fields. The cropper is offered the target's ratio, but its own state,
     * ratio included, is left as it was.
     */
    method HandleCropRequest(image: PendingImage, target: CropTarget)
      modifies this`cropImage, this`cropTarget
      ensures Valid()
      ensures cropImage == Some(image) && cropTarget == Some(target)
      ensures target == ThumbnailTarget ==> CropperRatio() == Some(Cropper.SixteenNine)
      ensures cropper.selectedRatio == old(cropper.selectedRatio) && cropper.isLocked == old(cropper.isLocked)
      ensures cropper.completedCrop == old(cropper.completedCrop) && cropper.crop == old(cropper.crop)
    {
      cropImage := Some(image);
      cropTarget := Some(target);
    }

    /** The thumbnail uploader's `onChange`: the thumbnail list becomes what the uploader hands over. */
    method SetThumbnail(images: seq<PendingImage>)
      modifies this`thumbnail
      ensures thumbnail == images
    {
      thumbnail := images;
    }

    /** The preview uploader's `onChange`: the preview list becomes what the uploader hands over. */
    method SetPreviewImages(images: seq<PendingImage>)
      modifies this`previewImages
      ensures previewImages == images
    {
      previewImages := images;
    }

    /** The cropper's `onClose`: forgets the crop request. */
    method CloseCropper()
      modifies this`cropImage, this`cropTarget
      ensures Valid()
      ensures cropImage == None && cropTarget == None
    {
      cropImage, cropTarget := None, None;
    }

    /**
     * `handleCropComplete`: without a result or a target nothing changes.
     * Otherwise the cropped image, under the source image's id, becomes the
     * whole thumbnail list or replaces the preview with that id, and the
     * crop request is cleared.
     */
    method HandleCropComplete(result: Option<Cropper.CropResult>)
      requires Valid()
      modifies this`thumbnail, this`previewImages, this`cropImage, this`cropTarget
      ensures Valid()
      ensures result.None? || old(cropTarget).None? ==> unchanged(this)
      ensures result.Some? && old(cropTarget).Some? ==>
        var img := CroppedImage(old(cropImage).value, result.value);
        cropImage == None && cropTarget == None
        && (old(cropTarget) == Some(ThumbnailTarget) ==> thumbnail == [img] && previewImages == old(previewImages))
        && (old(cropTarget) == Some(PreviewTarget) ==>
              thumbnail == old(thumbnail)
              && previewImages == Collections.ReplaceById(old(previewImages), ImageId, old(cropImage).value.id, img))
    {
      if result.None? || cropTarget.None? {
        return;
      }
      var img := CroppedImage(cropImage.value, result.value);
      if cropTarget.value == ThumbnailTarget {
        thumbnail := [img];
      } else {
        previewImages := Collections.ReplaceById(previewImages, ImageId, cropImage.value.id, img);
      }
      cropImage, cropTarget := None, None;
    }
  }
}
