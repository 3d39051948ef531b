/**
 * `BlogForm`: the fields of a blog post, the rules `validate` checks, the
 * multipart body `handleSubmit` builds and the thumbnail replacement done by
 * `handleCropComplete`. The body entries and their read-back by key are those
 * of the design form.
 */
module BlogForm {
  import opened Wrappers
  import opened Strings
  import opened Uploader
  import Cropper
  import DesignForm

  /** The inputs of the form by `name`; `Content` is the rich-text editor. */
  datatype Field = Title | Description | Content | MetaTitle | MetaDescription

  datatype FormData = FormData(title: string, description: string, content: string, metaTitle: string, metaDescription: string)

  function Get(d: FormData, f: Field): string {
    match f
    case Title => d.title
    case Description => d.description
    case Content => d.content
    case MetaTitle => d.metaTitle
    case MetaDescription => d.metaDescription
  }

  function With(d: FormData, f: Field, v: string): (r: FormData)
    ensures Get(r, f) == v
    ensures forall g :: g != f ==> Get(r, g) == Get(d, g)
  {
    match f
    case Title => d.(title := v)
    case Description => d.(description := v)
    case Content => d.(content := v)
    case MetaTitle => d.(metaTitle := v)
    case MetaDescription => d.(metaDescription := v)
  }

  /** The blog being edited; any field may be missing. */
  datatype Blog = Blog(title: Option<string>, description: Option<string>, content: Option<string>,
                       metaTitle: Option<string>, metaDescription: Option<string>)

  /** The field of an edited blog that fills an input, if the blog has it. */
  function BlogField(b: Blog, f: Field): Option<string> {
    match f
    case Title => b.title
    case Description => b.description
    case Content => b.content
    case MetaTitle => b.metaTitle
    case MetaDescription => b.metaDescription
  }

  /** The initial `formData`: each field from the blog, else empty. */
  function InitialFormData(initial: Option<Blog>): (d: FormData)
    ensures initial.None? ==> d == FormData("", "", "", "", "")
    ensures initial.Some? ==>
      var b := initial.value;
      d == FormData(DesignForm.OrEmpty(b.title), DesignForm.OrEmpty(b.description), DesignForm.OrEmpty(b.content),
                    DesignForm.OrEmpty(b.metaTitle), DesignForm.OrEmpty(b.metaDescription))
    ensures forall f :: Get(d, f) == (if initial.None? then "" else DesignForm.OrEmpty(BlogField(initial.value, f)))
  {
    if initial.None? then FormData("", "", "", "", "")
    else
      var b := initial.value;
      FormData(DesignForm.OrEmpty(b.title), DesignForm.OrEmpty(b.description), DesignForm.OrEmpty(b.content),
               DesignForm.OrEmpty(b.metaTitle), DesignForm.OrEmpty(b.metaDescription))
  }

  const ContentRequired: string := "Content is required"
  const MetaTitleTooLong: string := "Meta title should be less than 60 characters"
  const MetaDescriptionTooLong: string := "Meta description should be less than 160 characters"
  const MaxMetaTitle: nat := 60
  const MaxMetaDescription: nat := 160

  /** What the editor holds when the user has typed nothing. */
  const EmptyParagraph: string := "<p></p>"

  /** The error object; None is an entry that is absent or was cleared to `null`. */
  datatype Errors = Errors(title: Option<string>, description: Option<string>, content: Option<string>,
                           thumbnail: Option<string>, metaTitle: Option<string>, metaDescription: Option<string>)

  const NoErrors: Errors := Errors(None, None, None, None, None, None)

  /** `errors[name]` for an input. */
  function ErrorOf(e: Errors, f: Field): Option<string> {
    match f
    case Title => e.title
    case Description => e.description
    case Content => e.content
    case MetaTitle => e.metaTitle
    case MetaDescription => e.metaDescription
  }

  /** `{ ...errors, [name]: null }`. */
  function ClearError(e: Errors, f: Field): (r: Errors)
    ensures ErrorOf(r, f) == None
    ensures forall g :: g != f ==> ErrorOf(r, g) == ErrorOf(e, g)
    ensures r.thumbnail == e.thumbnail
  {
    match f
    case Title => e.(title := None)
    case Description => e.(description := None)
    case Content => e.(content := None)
    case MetaTitle => e.(metaTitle := None)
    case MetaDescription => e.(metaDescription := None)
  }

  /** Content counts as missing when it is blank or the editor's empty paragraph. */
  predicate ContentMissing(content: string) {
    Trim(content) == "" || content == EmptyParagraph
  }

  /**
   * The rules of `validate`, one per key: blank title, description or
   * content, no thumbnail for a new blog, and meta texts over their limits.
   */
  function FormErrors(d: FormData, isNew: bool, thumbnails: nat): Errors {
    Errors(DesignForm.Rule(Trim(d.title) == "", DesignForm.TitleRequired),
           DesignForm.Rule(Trim(d.description) == "", DesignForm.DescriptionRequired),
           DesignForm.Rule(ContentMissing(d.content), ContentRequired),
           DesignForm.Rule(isNew && thumbnails == 0, DesignForm.ThumbnailRequired),
           DesignForm.Rule(Utf16Length(d.metaTitle) > MaxMetaTitle, MetaTitleTooLong),
           DesignForm.Rule(Utf16Length(d.metaDescription) > MaxMetaDescription, MetaDescriptionTooLong))
  }

  /**
   * `validate`'s error object, filled one rule at a time. The meta rules
   * first test the text for truthiness, which an empty text fails anyway.
   */
  method CollectErrors(d: FormData, isNew: bool, thumbnails: nat) returns (newErrors: Errors)
    ensures newErrors == FormErrors(d, isNew, thumbnails)
  {
    newErrors := NoErrors;
    if Trim(d.title) == "" {
      newErrors := newErrors.(title := Some(DesignForm.TitleRequired));
    }
    if Trim(d.description) == "" {
      newErrors := newErrors.(description := Some(DesignForm.DescriptionRequired));
    }
    if Trim(d.content) == "" || d.content == EmptyParagraph {
      newErrors := newErrors.(content := Some(ContentRequired));
    }
    if isNew && thumbnails == 0 {
      newErrors := newErrors.(thumbnail := Some(DesignForm.ThumbnailRequired));
    }
    if d.metaTitle != "" && Utf16Length(d.metaTitle) > MaxMetaTitle {
      newErrors := newErrors.(metaTitle := Some(MetaTitleTooLong));
    }
    if d.metaDescription != "" && Utf16Length(d.metaDescription) > MaxMetaDescription {
      newErrors := newErrors.(metaDescription := Some(MetaDescriptionTooLong));
    }
  }

  /**
   * The form is valid exactly when title, description and content are
   * present, a new blog has a thumbnail, and the meta texts are at most 60
   * and 160 UTF-16 code units long; an edit never needs a thumbnail.
   */
  lemma FormValidIff(d: FormData, isNew: bool, thumbnails: nat)
    ensures FormErrors(d, isNew, thumbnails) == NoErrors <==>
      Trim(d.title) != "" && Trim(d.description) != ""
      && Trim(d.content) != "" && d.content != EmptyParagraph
      && (isNew ==> thumbnails > 0)
      && Utf16Length(d.metaTitle) <= 60 && Utf16Length(d.metaDescription) <= 160
    ensures !isNew ==> FormErrors(d, isNew, thumbnails).thumbnail == None
  {
  }

  /**
   * The limits count UTF-16 code units: a meta title of 31 to 60 astral
   * characters (emoji, say) is refused, although it has at most 60 characters.
   */
  lemma AstralMetaTitleRefused(d: FormData, isNew: bool, thumbnails: nat)
    requires 30 < |d.metaTitle| && forall i :: 0 <= i < |d.metaTitle| ==> IsAstral(d.metaTitle[i])
    ensures FormErrors(d, isNew, thumbnails).metaTitle == Some(MetaTitleTooLong)
  {
    Utf16LengthBounds(d.metaTitle);
  }

  /** The editor's empty paragraph is refused although it is not blank. */
  lemma EmptyParagraphIsMissing()
    ensures Trim(EmptyParagraph) != "" && ContentMissing(EmptyParagraph)
  {
    assert EmptyParagraph[0] == '<';
    TrimmedIsFixed(EmptyParagraph);
  }

  // ---------------------------------------------------------------- the multipart body

  /** A single entry when the condition holds, none otherwise. */
  function Optional(present: bool, p: DesignForm.Part): seq<DesignForm.Part> {
    if present then [p] else []
  }

  /** The text entries: title, description, content, then each meta text when not blank. */
  function TextEntries(title: string, description: string, content: string, metaTitle: string, metaDescription: string)
    : seq<DesignForm.Part>
  {
    [DesignForm.Part("title", DesignForm.Text(title)),
     DesignForm.Part("description", DesignForm.Text(description)),
     DesignForm.Part("content", DesignForm.Text(content))]
    + Optional(metaTitle != "", DesignForm.Part("metaTitle", DesignForm.Text(metaTitle)))
    + Optional(metaDescription != "", DesignForm.Part("metaDescription", DesignForm.Text(metaDescription)))
  }

  /** The thumbnail's file, for a new blog whose thumbnail carries one. */
  function ThumbnailEntry(isNew: bool, thumbnail: seq<PendingImage>): seq<DesignForm.Part> {
    if isNew && thumbnail != [] && thumbnail[0].file.Some? then [DesignForm.Part("thumbnail", DesignForm.Blob(thumbnail[0].file.value))]
    else []
  }

  /** The body from the cleaned-up fields: the text entries, then the thumbnail. */
  function Assemble(title: string, description: string, content: string, metaTitle: string, metaDescription: string,
                    isNew: bool, thumbnail: seq<PendingImage>): seq<DesignForm.Part> {
    TextEntries(title, description, content, metaTitle, metaDescription) + ThumbnailEntry(isNew, thumbnail)
  }

  /** The body `handleSubmit` sends: the texts trimmed, except the content, which goes as typed. */
  function Submission(d: FormData, isNew: bool, thumbnail: seq<PendingImage>): seq<DesignForm.Part> {
    Assemble(Trim(d.title), Trim(d.description), d.content, Trim(d.metaTitle), Trim(d.metaDescription), isNew, thumbnail)
  }

  lemma OptionalValues(present: bool, p: DesignForm.Part, key: string)
    ensures DesignForm.ValuesFor(Optional(present, p), key) == (if present && p.key == key then [p.value] else [])
  {
    if present {
      DesignForm.ValuesForOne(p, key);
    }
  }

  /** The first three entries: one per key, in order. */
  lemma HeadValues(a: DesignForm.Part, b: DesignForm.Part, c: DesignForm.Part, key: string)
    ensures DesignForm.ValuesFor([a, b, c], key)
      == (if a.key == key then [a.value] else []) + (if b.key == key then [b.value] else [])
         + (if c.key == key then [c.value] else [])
  {
    assert [a, b, c] == [a] + [b] + [c];
    DesignForm.ValuesForAppend([a] + [b], [c], key);
    DesignForm.ValuesForAppend([a], [b], key);
    DesignForm.ValuesForOne(a, key);
    DesignForm.ValuesForOne(b, key);
    DesignForm.ValuesForOne(c, key);
  }

  /** Each text key holds exactly the value appended for it; a blank meta text is not sent. */
  lemma TextEntriesValues(title: string, description: string, content: string, metaTitle: string, metaDescription: string,
                          key: string)
    ensures DesignForm.ValuesFor(TextEntries(title, description, content, metaTitle, metaDescription), key)
      == (if key == "title" then [DesignForm.Text(title)]
          else if key == "description" then [DesignForm.Text(description)]
          else if key == "content" then [DesignForm.Text(content)]
          else if key == "metaTitle" && metaTitle != "" then [DesignForm.Text(metaTitle)]
          else if key == "metaDescription" && metaDescription != "" then [DesignForm.Text(metaDescription)]
          else [])
  {
    var a := DesignForm.Part("title", DesignForm.Text(title));
    var b := DesignForm.Part("description", DesignForm.Text(description));
    var c := DesignForm.Part("content", DesignForm.Text(content));
    var p1 := DesignForm.Part("metaTitle", DesignForm.Text(metaTitle));
    var p2 := DesignForm.Part("metaDescription", DesignForm.Text(metaDescription));
    var m1 := Optional(metaTitle != "", p1);
    var m2 := Optional(metaDescription != "", p2);
    DesignForm.ValuesForAppend([a, b, c] + m1, m2, key);
    DesignForm.ValuesForAppend([a, b, c], m1, key);
    HeadValues(a, b, c, key);
    OptionalValues(metaTitle != "", p1, key);
    OptionalValues(metaDescription != "", p2, key);
  }

  /** Only the thumbnail key holds the file, and only for a new blog. */
  lemma ThumbnailEntryValues(isNew: bool, thumbnail: seq<PendingImage>, key: string)
    ensures DesignForm.ValuesFor(ThumbnailEntry(isNew, thumbnail), key)
      == (if key == "thumbnail" && isNew && thumbnail != [] && thumbnail[0].file.Some?
          then [DesignForm.Blob(thumbnail[0].file.value)] else [])
  {
    if isNew && thumbnail != [] && thumbnail[0].file.Some? {
      DesignForm.ValuesForOne(DesignForm.Part("thumbnail", DesignForm.Blob(thumbnail[0].file.value)), key);
    }
  }

  /**
   * Read back by key, the submitted body holds the trimmed title and
   * description, the untrimmed content, each meta text trimmed only when it
   * is not blank, and the thumbnail's file only for a new blog.
   */
  lemma SubmissionValues(d: FormData, isNew: bool, thumbnail: seq<PendingImage>)
    ensures DesignForm.ValuesFor(Submission(d, isNew, thumbnail), "title") == [DesignForm.Text(Trim(d.title))]
    ensures DesignForm.ValuesFor(Submission(d, isNew, thumbnail), "description") == [DesignForm.Text(Trim(d.description))]
    ensures DesignForm.ValuesFor(Submission(d, isNew, thumbnail), "content") == [DesignForm.Text(d.content)]
    ensures DesignForm.ValuesFor(Submission(d, isNew, thumbnail), "metaTitle")
      == (if Trim(d.metaTitle) != "" then [DesignForm.Text(Trim(d.metaTitle))] else [])
    ensures DesignForm.ValuesFor(Submission(d, isNew, thumbnail), "metaDescription")
      == (if Trim(d.metaDescription) != "" then [DesignForm.Text(Trim(d.metaDescription))] else [])
    ensures DesignForm.ValuesFor(Submission(d, isNew, thumbnail), "thumbnail")
      == (if isNew && thumbnail != [] && thumbnail[0].file.Some? then [DesignForm.Blob(thumbnail[0].file.value)] else [])
  {
    var texts := TextEntries(Trim(d.title), Trim(d.description), d.content, Trim(d.metaTitle), Trim(d.metaDescription));
    var image := ThumbnailEntry(isNew, thumbnail);
    DesignForm.ValuesForAppend(texts, image, "title");
    DesignForm.ValuesForAppend(texts, image, "description");
    DesignForm.ValuesForAppend(texts, image, "content");
    DesignForm.ValuesForAppend(texts, image, "metaTitle");
    DesignForm.ValuesForAppend(texts, image, "metaDescription");
    DesignForm.ValuesForAppend(texts, image, "thumbnail");
    TextEntriesValues(Trim(d.title), Trim(d.description), d.content, Trim(d.metaTitle), Trim(d.metaDescription), "title");
    TextEntriesValues(Trim(d.title), Trim(d.description), d.content, Trim(d.metaTitle), Trim(d.metaDescription), "description");
    TextEntriesValues(Trim(d.title), Trim(d.description), d.content, Trim(d.metaTitle), Trim(d.metaDescription), "content");
    TextEntriesValues(Trim(d.title), Trim(d.description), d.content, Trim(d.metaTitle), Trim(d.metaDescription), "metaTitle");
    TextEntriesValues(Trim(d.title), Trim(d.description), d.content, Trim(d.metaTitle), Trim(d.metaDescription), "metaDescription");
    TextEntriesValues(Trim(d.title), Trim(d.description), d.content, Trim(d.metaTitle), Trim(d.metaDescription), "thumbnail");
    ThumbnailEntryValues(isNew, thumbnail, "title");
    ThumbnailEntryValues(isNew, thumbnail, "description");
    ThumbnailEntryValues(isNew, thumbnail, "content");
    ThumbnailEntryValues(isNew, thumbnail, "metaTitle");
    ThumbnailEntryValues(isNew, thumbnail, "metaDescription");
    ThumbnailEntryValues(isNew, thumbnail, "thumbnail");
  }

  /** The appends of `handleSubmit`, in order, given the cleaned-up field values. */
  method AppendAll(title: string, description: string, content: string, metaTitle: string, metaDescription: string,
                   isNew: bool, thumbnail: seq<PendingImage>)
    returns (body: seq<DesignForm.Part>)
    ensures body == Assemble(title, description, content, metaTitle, metaDescription, isNew, thumbnail)
  {
    body := [DesignForm.Part("title", DesignForm.Text(title))];
    body := body + [DesignForm.Part("description", DesignForm.Text(description))];
    body := body + [DesignForm.Part("content", DesignForm.Text(content))];
    if metaTitle != "" {
      body := body + [DesignForm.Part("metaTitle", DesignForm.Text(metaTitle))];
    }
    if metaDescription != "" {
      body := body + [DesignForm.Part("metaDescription", DesignForm.Text(metaDescription))];
    }
    assert body == TextEntries(title, description, content, metaTitle, metaDescription);
    if isNew && thumbnail != [] && thumbnail[0].file.Some? {
      body := body + [DesignForm.Part("thumbnail", DesignForm.Blob(thumbnail[0].file.value))];
    } else {
      assert body == body + ThumbnailEntry(isNew, thumbnail);
    }
  }

  /** `handleSubmit` after validation. */
  method BuildSubmission(d: FormData, isNew: bool, thumbnail: seq<PendingImage>) returns (body: seq<DesignForm.Part>)
    ensures body == Submission(d, isNew, thumbnail)
  {
    body := AppendAll(Trim(d.title), Trim(d.description), d.content, Trim(d.metaTitle), Trim(d.metaDescription), isNew, thumbnail);
  }

  // ---------------------------------------------------------------- the component

  class BlogFormState {
    var formData: FormData
    var thumbnail: seq<PendingImage>
    var cropImage: Option<PendingImage>
    var errors: Errors
    /** No `initialData`: the form creates a blog. */
    const isNew: bool

    constructor (initial: Option<Blog>)
      ensures isNew == initial.None? && formData == InitialFormData(initial)
      ensures thumbnail == [] && cropImage == None && errors == NoErrors
    {
      isNew := initial.None?;
      formData := InitialFormData(initial);
      thumbnail := [];
      cropImage := None;
      errors := NoErrors;
    }

    /**
     * `handleChange`, and `handleContentChange` for the editor: sets the
     * field; clears that field's error only when one is shown.
     */
    method HandleChange(f: Field, v: string)
      modifies this`formData, this`errors
      ensures formData == With(old(formData), f, v)
      ensures errors == (if ErrorOf(old(errors), f).Some? && ErrorOf(old(errors), f).value != ""
                         then ClearError(old(errors), f) else old(errors))
    {
      formData := With(formData, f, v);
      var shown := ErrorOf(errors, f);
      if shown.Some? && shown.value != "" {
        errors := ClearError(errors, f);
      }
    }

    /** `validate`: the error state becomes exactly the broken rules; the result says whether there were none. */
    method Validate() returns (ok: bool)
      modifies this`errors
      ensures errors == FormErrors(formData, isNew, |thumbnail|)
      ensures ok <==> errors == NoErrors
    {
      errors := CollectErrors(formData, isNew, |thumbnail|);
      ok := errors == NoErrors;
    }

    /** `handleSubmit`: validates, and only when valid hands over the body. */
    method HandleSubmit() returns (submitted: Option<seq<DesignForm.Part>>)
      modifies this`errors
      ensures errors == FormErrors(formData, isNew, |thumbnail|)
      ensures submitted.Some? <==> errors == NoErrors
      ensures submitted.Some? ==> submitted.value == Submission(formData, isNew, thumbnail)
    {
      var ok := Validate();
      if !ok {
        return None;
      }
      var body := BuildSubmission(formData, isNew, thumbnail);
      submitted := Some(body);
    }

    /** `handleCropRequest`: opens the cropper on an image. */
    method HandleCropRequest(image: PendingImage)
      modifies this`cropImage
      ensures cropImage == Some(image)
    {
      cropImage := Some(image);
    }

    /**
     * `handleCropComplete`: without a result nothing changes. Otherwise the
     * cropped image, under the id of the image being cropped, becomes the
     * whole thumbnail list and the crop request is cleared. With no image
     * being cropped, reading its id throws before any state changes.
     */
    method HandleCropComplete(result: Option<Cropper.CropResult>)
      modifies this`thumbnail, this`cropImage
      ensures result.None? || old(cropImage).None? ==> unchanged(this)
      ensures result.Some? && old(cropImage).Some? ==>
        cropImage == None && thumbnail == [DesignForm.CroppedImage(old(cropImage).value, result.value)]
      ensures result.Some? && old(cropImage).Some? ==> thumbnail[0].id == old(cropImage).value.id
    {
      if result.None? || cropImage.None? {
        return;
      }
      thumbnail := [DesignForm.CroppedImage(cropImage.value, result.value)];
      cropImage := None;
    }
  }
}
