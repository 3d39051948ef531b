/**
 * The utility functions of `src/utils/helpers.js` that carry behaviour:
 * image validation, text truncation, error-message extraction, the
 * emptiness test and slug generation.
 */
module Helpers {
  import opened Wrappers
  import opened Strings

  // ---------------------------------------------------------------- images

  /** A browser `File` as the validator sees it: name, MIME type and size in bytes. */
  datatype ImageFile = ImageFile(name: string, mime: string, size: nat)

  /** The `options` argument of `validateImage`; an absent key takes its default. */
  datatype ValidateOptions = ValidateOptions(maxSize: Option<nat>, allowedTypes: Option<seq<string>>)

  /** The outcome `{ valid, errors }` of `validateImage`. */
  datatype Validation = Validation(valid: bool, errors: seq<string>)

  const DefaultMaxSize: nat := 10 * 1024 * 1024
  const DefaultAllowedTypes: seq<string> := ["image/jpeg", "image/png", "image/webp"]
  const NoFileMessage: string := "No file selected"

  function MaxSizeOf(options: ValidateOptions): nat {
    options.maxSize.GetOr(DefaultMaxSize)
  }

  function AllowedTypesOf(options: ValidateOptions): seq<string> {
    options.allowedTypes.GetOr(DefaultAllowedTypes)
  }

  function TypeMessage(allowed: seq<string>): string {
    "Invalid file type. Allowed: " + Join(allowed, ", ")
  }

  /** `formatSize` renders a byte count for people (`formatFileSize`, not modelled). */
  function SizeMessage(maxSize: nat, formatSize: nat -> string): string {
    "File too large. Max size: " + formatSize(maxSize)
  }

  /**
   * The errors `validateImage` reports, in the order it pushes them: a missing
   * file stops at one error; otherwise a type violation comes before a size one.
   */
  function ImageErrors(file: Option<ImageFile>, options: ValidateOptions, formatSize: nat -> string): (errs: seq<string>)
    ensures file.None? ==> errs == [NoFileMessage]
    ensures |errs| <= 2
    ensures errs == [] <==>
      file.Some? && file.value.mime in AllowedTypesOf(options) && file.value.size <= MaxSizeOf(options)
    ensures file.Some? ==>
      (TypeMessage(AllowedTypesOf(options)) in errs <==> file.value.mime !in AllowedTypesOf(options))
    ensures file.Some? ==>
      (SizeMessage(MaxSizeOf(options), formatSize) in errs <==> file.value.size > MaxSizeOf(options))
    ensures file.Some? && |errs| == 2 ==>
      errs == [TypeMessage(AllowedTypesOf(options)), SizeMessage(MaxSizeOf(options), formatSize)]
  {
    match file
    case None => [NoFileMessage]
    case Some(f) =>
      var allowed := AllowedTypesOf(options);
      var maxSize := MaxSizeOf(options);
      var typeMsg := TypeMessage(allowed);
      var sizeMsg := SizeMessage(maxSize, formatSize);
      assert typeMsg[0] != sizeMsg[0];
      (if f.mime !in allowed then [typeMsg] else []) + (if f.size > maxSize then [sizeMsg] else [])
  }

  /** `validateImage`: pushes one error per violated rule, returning early for a missing file. */
  method ValidateImage(file: Option<ImageFile>, options: ValidateOptions, formatSize: nat -> string)
    returns (v: Validation)
    ensures v.errors == ImageErrors(file, options, formatSize)
    ensures v.valid <==> v.errors == []
  {
    var maxSize := MaxSizeOf(options);
    var allowed := AllowedTypesOf(options);
    var errors: seq<string> := [];
    if file.None? {
      errors := errors + [NoFileMessage];
      return Validation(false, errors);
    }
    var f := file.value;
    if f.mime !in allowed {
      errors := errors + [TypeMessage(allowed)];
    }
    if f.size > maxSize {
      errors := errors + [SizeMessage(maxSize, formatSize)];
    }
    v := Validation(|errors| == 0, errors);
  }

  /** Called without options, the validator limits files to 10 MiB of JPEG, PNG or WebP. */
  lemma DefaultValidation(f: ImageFile, formatSize: nat -> string)
    ensures ImageErrors(Some(f), ValidateOptions(None, None), formatSize) == [] <==>
      (f.mime == "image/jpeg" || f.mime == "image/png" || f.mime == "image/webp") && f.size <= 10485760
  {
  }

  // ---------------------------------------------------------------- text

  /**
   * `truncateText(text, length = 50)`; None and "" are the falsy texts.
   * `substring(0, length)` clamps a negative length to 0.
   */
  function TruncateText(text: Option<string>, length: int := 50): (r: string)
    ensures text.None? ==> r == ""
    ensures text.Some? && |text.value| <= length ==> r == text.value
    ensures text == Some("") ==> r == ""
    ensures text.Some? && text.value != "" && |text.value| > length ==>
      |r| == (if length < 0 then 0 else length) + 3 && r[|r| - 3..] == "..."
      && StartsWith(text.value, r[..|r| - 3])
    ensures |r| <= (if length < 0 then 0 else length) + 3
  {
    match text
    case None => ""
    case Some(t) =>
      if t == "" then ""
      else if |t| <= length then t
      else
        var keep := if length < 0 then 0 else length;
        t[..keep] + "..."
  }

  /** A thrown value: a string, an error object (with an optional `response.data.message`), or null. */
  datatype ErrorValue =
    | TextError(text: string)
    | ErrorObject(responseMessage: Option<string>, message: Option<string>)
    | NullError

  /** JavaScript truthiness of an optional string. */
  predicate Truthy(s: Option<string>) {
    s.Some? && s.value != ""
  }

  const FallbackErrorMessage: string := "An unexpected error occurred"

  /** `getErrorMessage`: the string itself, else the server's message, else the error's own, else a fixed text. */
  function GetErrorMessage(error: ErrorValue): (r: string)
    ensures error.TextError? ==> r == error.text
    ensures error.ErrorObject? && Truthy(error.responseMessage) ==> r == error.responseMessage.value
    ensures error.ErrorObject? && !Truthy(error.responseMessage) && Truthy(error.message) ==> r == error.message.value
    ensures !error.TextError? && !(error.ErrorObject? && (Truthy(error.responseMessage) || Truthy(error.message)))
      ==> r == FallbackErrorMessage
    ensures r == "" ==> error == TextError("")
  {
    match error
    case TextError(t) => t
    case ErrorObject(resp, msg) =>
      if Truthy(resp) then resp.value
      else if Truthy(msg) then msg.value
      else FallbackErrorMessage
    case NullError => FallbackErrorMessage
  }

  /** `isEmpty`: null, or an object without keys. */
  function IsEmpty<V>(obj: Option<map<string, V>>): (r: bool)
    ensures r <==> obj.None? || obj.value.Keys == {}
  {
    match obj
    case None => true
    case Some(m) => |m.Keys| == 0
  }

  /** `isEmpty` holds of null and of the empty object, and of no object with a key. */
  lemma IsEmptyMeaning<V>(m: map<string, V>)
    ensures IsEmpty<V>(None)
    ensures IsEmpty(Some(m)) <==> m == map[]
    ensures !IsEmpty(Some(m)) <==> exists k :: k in m
  {
    if |m.Keys| == 0 {
      assert m.Keys == {};
      assert forall k :: k !in m;
    } else {
      var k :| k in m.Keys;
      assert k in m;
    }
  }

  // ---------------------------------------------------------------- slugify

  /** The regular-expression class `\w`. */
  predicate IsWordChar(c: char) {
    ('a' <= c <= 'z') || ('A' <= c <= 'Z') || IsDigit(c) || c == '_'
  }

  /** Characters that survive `.replace(/[^\w\s-]/g, '')`. */
  predicate Kept(c: char) {
    IsWordChar(c) || IsSpace(c) || c == '-'
  }

  /** Characters of the class `[\s_-]`, whose runs become one '-'. */
  predicate IsSeparator(c: char) {
    IsSpace(c) || c == '_' || c == '-'
  }

  predicate IsSlugChar(c: char) {
    ('a' <= c <= 'z') || IsDigit(c) || c == '-'
  }

  predicate NoDoubleDash(s: string) {
    forall i :: 0 <= i < |s| - 1 ==> !(s[i] == '-' && s[i + 1] == '-')
  }

  /** What `slugify` produces: lower-case letters, digits and single inner dashes. */
  predicate IsSlug(s: string) {
    (forall i :: 0 <= i < |s| ==> IsSlugChar(s[i]))
    && (s == [] || (s[0] != '-' && s[|s| - 1] != '-'))
    && NoDoubleDash(s)
  }

  /** Lower-case word, space or dash characters only. */
  predicate OnlyKeptLower(s: string) {
    forall i :: 0 <= i < |s| ==> Kept(s[i]) && !IsUpper(s[i])
  }

  /** `.replace(/[^\w\s-]/g, '')`. */
  function DropUnkept(s: string): (r: string)
    ensures forall i :: 0 <= i < |r| ==> Kept(r[i])
    ensures (forall i :: 0 <= i < |s| ==> !IsUpper(s[i])) ==> OnlyKeptLower(r)
    ensures (forall i :: 0 <= i < |s| ==> Kept(s[i])) ==> r == s
  {
    if s == [] then []
    else
      var rest := DropUnkept(s[1..]);
      if Kept(s[0]) then [s[0]] + rest else rest
  }

  /** `.replace(/[\s_-]+/g, '-')`; `inRun` says the previous character was a separator. */
  function Squash(s: string, inRun: bool): (r: string)
    ensures inRun ==> r == [] || r[0] != '-'
    ensures NoDoubleDash(r)
    ensures OnlyKeptLower(s) ==> forall i :: 0 <= i < |r| ==> IsSlugChar(r[i])
  {
    if s == [] then []
    else if IsSeparator(s[0]) then
      var rest := Squash(s[1..], true);
      if inRun then rest else "-" + rest
    else
      [s[0]] + Squash(s[1..], false)
  }

  /** `.replace(/^-+/, '')`. */
  function StripLeadingDashes(s: string): (r: string)
    ensures |r| <= |s| && r == s[|s| - |r|..]
    ensures r == [] || r[0] != '-'
  {
    if s != [] && s[0] == '-' then StripLeadingDashes(s[1..]) else s
  }

  /** `.replace(/-+$/, '')`. */
  function StripTrailingDashes(s: string): (r: string)
    ensures |r| <= |s| && r == s[..|r|]
    ensures r == [] || r[|r| - 1] != '-'
  {
    if s != [] && s[|s| - 1] == '-' then StripTrailingDashes(s[..|s| - 1]) else s
  }

  /** Both dash-stripping replacements. */
  function StripDashes(s: string): (r: string)
    ensures r == [] || (r[0] != '-' && r[|r| - 1] != '-')
    ensures (s == [] || (s[0] != '-' && s[|s| - 1] != '-')) ==> r == s
  {
    var leading := StripLeadingDashes(s);
    var r := StripTrailingDashes(leading);
    assert r != [] ==> r[0] == leading[0];
    r
  }

  /** What the stripping leaves is a slice of the input, so it adds no character and no double dash. */
  lemma StripDashesKeeps(s: string)
    ensures (forall i :: 0 <= i < |s| ==> IsSlugChar(s[i])) ==>
      forall i :: 0 <= i < |StripDashes(s)| ==> IsSlugChar(StripDashes(s)[i])
    ensures NoDoubleDash(s) ==> NoDoubleDash(StripDashes(s))
  {
    var r := StripDashes(s);
    var leading := StripLeadingDashes(s);
    var start := |s| - |leading|;
    assert r == s[start..start + |r|];
    forall i | 0 <= i < |r|
      ensures r[i] == s[start + i]
    {
    }
  }

  /** `slugify`: lower-case, trim, drop punctuation, collapse separators, strip outer dashes. */
  function Slugify(text: string): (r: string)
    ensures IsSlug(r)
  {
    var lowered := ToLower(text);
    TrimKeepsChars(lowered);
    var squashed := Squash(DropUnkept(Trim(lowered)), false);
    StripDashesKeeps(squashed);
    StripDashes(squashed)
  }

  lemma TrimKeepsChars(s: string)
    requires forall i :: 0 <= i < |s| ==> !IsUpper(s[i])
    ensures forall i :: 0 <= i < |Trim(s)| ==> !IsUpper(Trim(s)[i])
  {
    var t := TrimStart(s);
    TrimStartSuffix(s);
    TrimEndPrefix(t);
    assert forall i :: 0 <= i < |t| ==> t[i] == s[|s| - |t| + i];
  }

  lemma {:induction false} SquashFixesSlugBody(s: string, inRun: bool)
    requires forall i :: 0 <= i < |s| ==> IsSlugChar(s[i])
    requires NoDoubleDash(s)
    requires inRun ==> s == [] || s[0] != '-'
    ensures Squash(s, inRun) == s
  {
    if s != [] {
      var tail := s[1..];
      forall i | 0 <= i < |tail| ensures IsSlugChar(tail[i]) {
        assert tail[i] == s[i + 1];
      }
      forall i | 0 <= i < |tail| - 1 ensures !(tail[i] == '-' && tail[i + 1] == '-') {
        assert tail[i] == s[i + 1] && tail[i + 1] == s[i + 2];
      }
      assert IsSlugChar(s[0]);
      if s[0] == '-' {
        assert !inRun;
        assert |s| > 1 ==> s[1] != '-';
        SquashFixesSlugBody(tail, true);
        assert Squash(s, inRun) == "-" + Squash(tail, true);
      } else {
        assert !IsSeparator(s[0]);
        SquashFixesSlugBody(tail, false);
        assert Squash(s, inRun) == [s[0]] + Squash(tail, false);
      }
      assert [s[0]] + tail == s;
    }
  }

  lemma LowerFixesSlug(s: string)
    requires IsSlug(s)
    ensures ToLower(s) == s
  {
    forall i | 0 <= i < |s| ensures ToLower(s)[i] == s[i] {
      assert IsSlugChar(s[i]);
    }
  }

  lemma DropUnkeptFixesSlug(s: string)
    requires IsSlug(s)
    ensures DropUnkept(s) == s
  {
    forall i | 0 <= i < |s| ensures Kept(s[i]) {
      assert IsSlugChar(s[i]);
    }
  }

  lemma TrimFixesSlug(s: string)
    requires IsSlug(s)
    ensures Trim(s) == s
  {
    if s != [] {
      assert IsSlugChar(s[0]) && IsSlugChar(s[|s| - 1]);
    }
    TrimmedIsFixed(s);
  }

  /** A slug is left unchanged by `slugify`. */
  lemma SlugifyFixesSlugs(s: string)
    requires IsSlug(s)
    ensures Slugify(s) == s
  {
    LowerFixesSlug(s);
    TrimFixesSlug(s);
    DropUnkeptFixesSlug(s);
    SquashFixesSlugBody(s, false);
  }

  /** `slugify` is idempotent. */
  lemma SlugifyIdempotent(text: string)
    ensures Slugify(Slugify(text)) == Slugify(text)
  {
    SlugifyFixesSlugs(Slugify(text));
  }
}
