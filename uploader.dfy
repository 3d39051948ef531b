/**
 * `ImageUploader`: the `handleFiles` ingest pass (capacity check, validation,
 * decoding, merge into the controlled `value`) and `handleRemove`.
 *
 * The browser services are oracles carried by each candidate: what
 * `readFileAsDataURL` yields for it (None when the reader fails) and the id
 * `generateId` would give it.
 */
module Uploader {
  import opened Wrappers
  import opened Strings
  import opened Helpers
  import Collections

  /** An image held by a form: `{ id, file, preview, name, size }`. */
  datatype PendingImage = PendingImage(id: string, file: Option<ImageFile>, preview: string, name: string, size: nat)

  function ImageId(p: PendingImage): string {
    p.id
  }

  /** A file handed to `handleFiles`, with what the file reader and the id generator produce for it. */
  datatype Candidate = Candidate(file: ImageFile, read: Option<string>, freshId: string)

  /** The props of the uploader that `handleFiles` reads. */
  datatype UploaderProps = UploaderProps(maxFiles: nat, maxSize: nat, accept: string, multiple: bool)

  const MaxPreviewSize: nat := 10 * 1024 * 1024
  const DefaultAccept: string := "image/jpeg,image/png,image/webp"
  const DefaultProps: UploaderProps := UploaderProps(5, MaxPreviewSize, DefaultAccept, true)

  /** What one pass of `handleFiles` produces: the admitted images and the new error list. */
  datatype Ingested = Ingested(accepted: seq<PendingImage>, errors: seq<string>)

  function CapacityMessage(maxFiles: nat): string {
    "Maximum " + NatToString(maxFiles) + " files allowed"
  }

  function ReadFailedMessage(name: string): string {
    name + ": Failed to read file"
  }

  /** `errors.map(e => `${name}: ${e}`)`. */
  function Prefixed(name: string, errs: seq<string>): (r: seq<string>)
    ensures |r| == |errs|
    ensures forall j :: 0 <= j < |errs| ==> r[j] == name + ": " + errs[j]
  {
    seq(|errs|, j requires 0 <= j < |errs| => name + ": " + errs[j])
  }

  /** The validator options the uploader passes: its size limit and `accept.split(",")`. */
  function OptionsOf(props: UploaderProps): ValidateOptions {
    ValidateOptions(Some(props.maxSize), Some(Split(props.accept, ',')))
  }

  function CandidateViolations(props: UploaderProps, c: Candidate, formatSize: nat -> string): seq<string> {
    ImageErrors(Some(c.file), OptionsOf(props), formatSize)
  }

  /** What examining one candidate gives: an image to admit, or the errors it contributes. */
  datatype Verdict = Admitted(image: PendingImage) | Refused(errors: seq<string>)

  /**
   * One examined file: validation first (one "<name>: <violation>" per
   * violation), then the read (a failed read is one error); a file passing
   * both becomes a pending image with a fresh id.
   */
  function Examine(props: UploaderProps, c: Candidate, formatSize: nat -> string): (v: Verdict)
    ensures v.Admitted? <==> CandidateViolations(props, c, formatSize) == [] && c.read.Some?
    ensures v.Admitted? ==> v.image.id == c.freshId && v.image.file == Some(c.file) && v.image.preview == c.read.value
    ensures v.Refused? ==> v.errors != []
  {
    var violations := CandidateViolations(props, c, formatSize);
    if violations != [] then Refused(Prefixed(c.file.name, violations))
    else if c.read.None? then Refused([ReadFailedMessage(c.file.name)])
    else Admitted(PendingImage(c.freshId, Some(c.file), c.read.value, c.file.name, c.file.size))
  }

  function Verdicts(props: UploaderProps, cands: seq<Candidate>, formatSize: nat -> string): (vs: seq<Verdict>)
    ensures |vs| == |cands|
    ensures forall i :: 0 <= i < |cands| ==> vs[i] == Examine(props, cands[i], formatSize)
  {
    seq(|cands|, i requires 0 <= i < |cands| => Examine(props, cands[i], formatSize))
  }

  /**
   * The loop of `handleFiles` over what examining each remaining file would
   * give, with `accepted` and `errors` gathered so far and `present` images
   * already in `value`: the capacity check comes before each file and ends
   * the pass.
   */
  function IngestFrom(present: nat, maxFiles: nat, vs: seq<Verdict>,
                      accepted: seq<PendingImage>, errors: seq<string>): Ingested
  {
    if vs == [] then Ingested(accepted, errors)
    else if present + |accepted| >= maxFiles then Ingested(accepted, errors + [CapacityMessage(maxFiles)])
    else
      match vs[0]
      case Refused(es) => IngestFrom(present, maxFiles, vs[1..], accepted, errors + es)
      case Admitted(image) => IngestFrom(present, maxFiles, vs[1..], accepted + [image], errors)
  }

  function Ingest(present: nat, props: UploaderProps, cands: seq<Candidate>, formatSize: nat -> string): Ingested {
    IngestFrom(present, props.maxFiles, Verdicts(props, cands, formatSize), [], [])
  }

  /**
   * The loop of `handleFiles`: checks capacity before each candidate and stops
   * at the first overflow, skips invalid or unreadable files with their errors.
   */
  method CollectFiles(present: nat, props: UploaderProps, cands: seq<Candidate>, formatSize: nat -> string)
    returns (validFiles: seq<PendingImage>, newErrors: seq<string>)
    ensures Ingested(validFiles, newErrors) == Ingest(present, props, cands, formatSize)
  {
    ghost var vs := Verdicts(props, cands, formatSize);
    validFiles, newErrors := [], [];
    var i := 0;
    while i < |cands|
      invariant 0 <= i <= |cands|
      invariant IngestFrom(present, props.maxFiles, vs[i..], validFiles, newErrors)
        == Ingest(present, props, cands, formatSize)
    {
      var c := cands[i];
      assert vs[i..][0] == Examine(props, c, formatSize);
      assert vs[i..][1..] == vs[i + 1..];
      if present + |validFiles| >= props.maxFiles {
        newErrors := newErrors + [CapacityMessage(props.maxFiles)];
        break;
      }
      var validation := ValidateImage(Some(c.file), OptionsOf(props), formatSize);
      if !validation.valid {
        newErrors := newErrors + Prefixed(c.file.name, validation.errors);
        i := i + 1;
        continue;
      }
      match c.read {
        case None =>
          newErrors := newErrors + [ReadFailedMessage(c.file.name)];
        case Some(dataUrl) =>
          validFiles := validFiles + [PendingImage(c.freshId, Some(c.file), dataUrl, c.file.name, c.file.size)];
      }
      i := i + 1;
    }
  }

  // ---------------------------------------------------------------- reference definitions

  /** The images of the admitted files, in input order. */
  function AdmittedImages(vs: seq<Verdict>): seq<PendingImage> {
    if vs == [] then []
    else (if vs[0].Admitted? then [vs[0].image] else []) + AdmittedImages(vs[1..])
  }

  /** Every refused file's own errors, in input order. */
  function RefusalErrors(vs: seq<Verdict>): seq<string> {
    if vs == [] then []
    else (if vs[0].Refused? then vs[0].errors else []) + RefusalErrors(vs[1..])
  }

  /** The first `n` elements (all of them when there are fewer). */
  function Take<T>(s: seq<T>, n: int): seq<T> {
    if n <= 0 then [] else if n >= |s| then s else s[..n]
  }

  /** `Take` keeps a prefix of at most `n` elements, all of them when `n` allows. */
  lemma TakePrefix<T>(s: seq<T>, n: int)
    ensures |Take(s, n)| <= (if n <= 0 then 0 else n) && |Take(s, n)| <= |s|
    ensures Take(s, n) == s[..|Take(s, n)|]
    ensures n >= |s| ==> Take(s, n) == s
  {
  }

  lemma {:induction false} IngestFromAdmitsPrefix(present: nat, maxFiles: nat, vs: seq<Verdict>,
                                                   acc: seq<PendingImage>, errs: seq<string>)
    ensures IngestFrom(present, maxFiles, vs, acc, errs).accepted
      == acc + Take(AdmittedImages(vs), maxFiles - present - |acc|)
  {
    var r := IngestFrom(present, maxFiles, vs, acc, errs);
    if vs == [] {
      assert r.accepted == acc;
      assert Take(AdmittedImages(vs), maxFiles - present - |acc|) == [];
    } else if present + |acc| >= maxFiles {
      assert r.accepted == acc;
      assert Take(AdmittedImages(vs), maxFiles - present - |acc|) == [];
    } else {
      var room := maxFiles - present - |acc|;
      var rest := AdmittedImages(vs[1..]);
      match vs[0]
      case Refused(es) =>
        assert r == IngestFrom(present, maxFiles, vs[1..], acc, errs + es);
        assert AdmittedImages(vs) == rest;
        IngestFromAdmitsPrefix(present, maxFiles, vs[1..], acc, errs + es);
      case Admitted(image) =>
        assert r == IngestFrom(present, maxFiles, vs[1..], acc + [image], errs);
        assert AdmittedImages(vs) == [image] + rest;
        IngestFromAdmitsPrefix(present, maxFiles, vs[1..], acc + [image], errs);
        TakeCons(image, rest, room);
        Collections.AppendAssoc(acc, [image], Take(rest, room - 1));
    }
  }

  lemma TakeCons<T>(x: T, rest: seq<T>, n: int)
    requires n >= 1
    ensures Take([x] + rest, n) == [x] + Take(rest, n - 1)
  {
    if n - 1 < |rest| {
      assert ([x] + rest)[..n] == [x] + rest[..n - 1];
    }
  }

  /**
   * The admitted images are the first `maxFiles - present` files that pass
   * validation and can be read, in input order: never more than the free
   * room, and no such file is passed over while room is left.
   */
  lemma IngestAdmitsFirstAdmissible(present: nat, props: UploaderProps, cands: seq<Candidate>, formatSize: nat -> string)
    ensures Ingest(present, props, cands, formatSize).accepted
      == Take(AdmittedImages(Verdicts(props, cands, formatSize)), props.maxFiles - present)
  {
    IngestFromAdmitsPrefix(present, props.maxFiles, Verdicts(props, cands, formatSize), [], []);
  }

  /** The merged collection never grows past `maxFiles`. */
  lemma IngestWithinCapacity(present: nat, props: UploaderProps, cands: seq<Candidate>, formatSize: nat -> string)
    requires present <= props.maxFiles
    ensures present + |Ingest(present, props, cands, formatSize).accepted| <= props.maxFiles
  {
    IngestAdmitsFirstAdmissible(present, props, cands, formatSize);
    TakePrefix(AdmittedImages(Verdicts(props, cands, formatSize)), props.maxFiles - present);
  }

  lemma {:induction false} IngestFromRoomy(present: nat, maxFiles: nat, vs: seq<Verdict>,
                                           acc: seq<PendingImage>, errs: seq<string>)
    requires present + |acc| + |vs| <= maxFiles
    ensures IngestFrom(present, maxFiles, vs, acc, errs)
      == Ingested(acc + AdmittedImages(vs), errs + RefusalErrors(vs))
  {
    var r := IngestFrom(present, maxFiles, vs, acc, errs);
    if vs == [] {
      assert r == Ingested(acc, errs);
      assert acc + [] == acc && errs + [] == errs;
    } else {
      var admitted := AdmittedImages(vs[1..]);
      var later := RefusalErrors(vs[1..]);
      match vs[0]
      case Refused(es) =>
        assert r == IngestFrom(present, maxFiles, vs[1..], acc, errs + es);
        assert AdmittedImages(vs) == admitted && RefusalErrors(vs) == es + later;
        IngestFromRoomy(present, maxFiles, vs[1..], acc, errs + es);
        Collections.AppendAssoc(errs, es, later);
      case Admitted(image) =>
        assert r == IngestFrom(present, maxFiles, vs[1..], acc + [image], errs);
        assert AdmittedImages(vs) == [image] + admitted && RefusalErrors(vs) == later;
        IngestFromRoomy(present, maxFiles, vs[1..], acc + [image], errs);
        Collections.AppendAssoc(acc, [image], admitted);
    }
  }

  /**
   * When every candidate fits, no capacity error arises: the errors are each
   * refused file's own (one "<name>: <violation>" per violation, or the read
   * failure) in input order, and every file that passes is admitted.
   */
  lemma IngestWithRoom(present: nat, props: UploaderProps, cands: seq<Candidate>, formatSize: nat -> string)
    requires present + |cands| <= props.maxFiles
    ensures var vs := Verdicts(props, cands, formatSize);
      Ingest(present, props, cands, formatSize) == Ingested(AdmittedImages(vs), RefusalErrors(vs))
  {
    IngestFromRoomy(present, props.maxFiles, Verdicts(props, cands, formatSize), [], []);
  }

  /** A full collection admits nothing; the capacity error is the only error (e.g. `maxFiles = 1` with a thumbnail present). */
  lemma IngestIntoFullCollection(present: nat, props: UploaderProps, cands: seq<Candidate>, formatSize: nat -> string)
    requires present >= props.maxFiles && cands != []
    ensures Ingest(present, props, cands, formatSize) == Ingested([], [CapacityMessage(props.maxFiles)])
  {
  }

  lemma CapacityMessageHasNoColon(n: nat)
    ensures ':' !in CapacityMessage(n)
  {
    var digits := NatToString(n);
    var m := CapacityMessage(n);
    forall k | 0 <= k < |m| ensures m[k] != ':' {
      if 8 <= k < 8 + |digits| {
        assert m[k] == digits[k - 8];
      }
    }
  }

  /** A refused file's errors all start with its name and a colon, so none is a capacity error. */
  lemma RefusalsAreNamed(props: UploaderProps, c: Candidate, formatSize: nat -> string, n: nat)
    ensures var v := Examine(props, c, formatSize);
      v.Refused? ==> CapacityMessage(n) !in v.errors
  {
    CapacityMessageHasNoColon(n);
    var v := Examine(props, c, formatSize);
    if v.Refused? {
      forall j | 0 <= j < |v.errors| ensures v.errors[j] != CapacityMessage(n) {
        assert v.errors[j][|c.file.name|] == ':';
      }
    }
  }

  /** No refusal carries the capacity error. */
  predicate NoCapacityRefusal(vs: seq<Verdict>, maxFiles: nat) {
    forall j :: 0 <= j < |vs| && vs[j].Refused? ==> CapacityMessage(maxFiles) !in vs[j].errors
  }

  lemma {:induction false} IngestFromCapacityLast(present: nat, maxFiles: nat, vs: seq<Verdict>,
                                                  acc: seq<PendingImage>, errs: seq<string>)
    requires NoCapacityRefusal(vs, maxFiles)
    requires CapacityMessage(maxFiles) !in errs
    ensures var r := IngestFrom(present, maxFiles, vs, acc, errs);
      forall j :: 0 <= j < |r.errors| - 1 ==> r.errors[j] != CapacityMessage(maxFiles)
    ensures var r := IngestFrom(present, maxFiles, vs, acc, errs);
      CapacityMessage(maxFiles) in r.errors ==> present + |r.accepted| >= maxFiles
  {
    if vs != [] && present + |acc| < maxFiles {
      assert NoCapacityRefusal(vs[1..], maxFiles) by {
        forall j | 0 <= j < |vs| - 1 && vs[1..][j].Refused?
          ensures CapacityMessage(maxFiles) !in vs[1..][j].errors
        {
          assert vs[1..][j] == vs[j + 1];
        }
      }
      match vs[0]
      case Refused(es) =>
        assert CapacityMessage(maxFiles) !in es;
        IngestFromCapacityLast(present, maxFiles, vs[1..], acc, errs + es);
      case Admitted(image) =>
        IngestFromCapacityLast(present, maxFiles, vs[1..], acc + [image], errs);
    }
  }

  /**
   * The capacity error appears at most once, only as the last error, and only
   * once the collection is full: nothing after it was examined.
   */
  lemma IngestCapacityErrorIsLast(present: nat, props: UploaderProps, cands: seq<Candidate>, formatSize: nat -> string)
    ensures var r := Ingest(present, props, cands, formatSize);
      forall j :: 0 <= j < |r.errors| - 1 ==> r.errors[j] != CapacityMessage(props.maxFiles)
    ensures var r := Ingest(present, props, cands, formatSize);
      CapacityMessage(props.maxFiles) in r.errors ==> present + |r.accepted| >= props.maxFiles
  {
    VerdictsLackCapacity(props, cands, formatSize);
    IngestFromCapacityLast(present, props.maxFiles, Verdicts(props, cands, formatSize), [], []);
  }

  /** The room fills for the first time just before the `k`-th candidate: the pass stops there. */
  ghost predicate FillsAt(present: nat, maxFiles: nat, vs: seq<Verdict>, k: nat) {
    k < |vs|
    && present + |AdmittedImages(vs[..k])| >= maxFiles
    && forall i :: 0 <= i < k ==> present + |AdmittedImages(vs[..i])| < maxFiles
  }

  /** Room is left before every candidate: the pass examines them all. */
  ghost predicate NeverFills(present: nat, maxFiles: nat, vs: seq<Verdict>) {
    forall i :: 0 <= i < |vs| ==> present + |AdmittedImages(vs[..i])| < maxFiles
  }

  /** Peeling the first verdict off a prefix of length `j + 1`. */
  lemma PrefixCons(vs: seq<Verdict>, j: nat)
    requires j < |vs|
    ensures AdmittedImages(vs[..j + 1])
      == (if vs[0].Admitted? then [vs[0].image] else []) + AdmittedImages(vs[1..][..j])
    ensures RefusalErrors(vs[..j + 1])
      == (if vs[0].Refused? then vs[0].errors else []) + RefusalErrors(vs[1..][..j])
  {
    assert vs[..j + 1][0] == vs[0];
    assert vs[..j + 1][1..] == vs[1..][..j];
  }

  /** Exactly one of the two cases holds: the room fills before some first candidate, or never. */
  lemma {:induction false} FillsOrNot(present: nat, maxFiles: nat, vs: seq<Verdict>)
    ensures NeverFills(present, maxFiles, vs) || exists k :: FillsAt(present, maxFiles, vs, k)
  {
    var i := 0;
    while i < |vs| && present + |AdmittedImages(vs[..i])| < maxFiles
      invariant 0 <= i <= |vs|
      invariant forall j :: 0 <= j < i ==> present + |AdmittedImages(vs[..j])| < maxFiles
    {
      i := i + 1;
    }
    if i < |vs| {
      assert FillsAt(present, maxFiles, vs, i);
    }
  }

  lemma {:induction false} IngestFromStopsAt(present: nat, maxFiles: nat, vs: seq<Verdict>,
                                             acc: seq<PendingImage>, errs: seq<string>, k: nat)
    requires FillsAt(present + |acc|, maxFiles, vs, k)
    ensures IngestFrom(present, maxFiles, vs, acc, errs)
      == Ingested(acc + AdmittedImages(vs[..k]), errs + RefusalErrors(vs[..k]) + [CapacityMessage(maxFiles)])
    decreases k
  {
    var r := IngestFrom(present, maxFiles, vs, acc, errs);
    if k == 0 {
      assert vs[..0] == [];
      assert r == Ingested(acc, errs + [CapacityMessage(maxFiles)]);
      assert acc + [] == acc && errs + [] == errs;
    } else {
      assert vs[..0] == [];
      assert present + |acc| < maxFiles;
      var j := k - 1;
      PrefixCons(vs, j);
      var admitted := AdmittedImages(vs[1..][..j]);
      var refused := RefusalErrors(vs[1..][..j]);
      match vs[0]
      case Refused(es) =>
        assert r == IngestFrom(present, maxFiles, vs[1..], acc, errs + es);
        forall i | 0 <= i <= j
          ensures AdmittedImages(vs[..i + 1]) == AdmittedImages(vs[1..][..i])
        {
          PrefixCons(vs, i);
        }
        assert FillsAt(present + |acc|, maxFiles, vs[1..], j);
        IngestFromStopsAt(present, maxFiles, vs[1..], acc, errs + es, j);
        Collections.AppendAssoc(errs, es, refused);
      case Admitted(image) =>
        assert r == IngestFrom(present, maxFiles, vs[1..], acc + [image], errs);
        forall i | 0 <= i <= j
          ensures AdmittedImages(vs[..i + 1]) == [image] + AdmittedImages(vs[1..][..i])
        {
          PrefixCons(vs, i);
        }
        assert FillsAt(present + |acc + [image]|, maxFiles, vs[1..], j);
        IngestFromStopsAt(present, maxFiles, vs[1..], acc + [image], errs, j);
        Collections.AppendAssoc(acc, [image], admitted);
    }
  }

  lemma {:induction false} IngestFromNeverFills(present: nat, maxFiles: nat, vs: seq<Verdict>,
                                                acc: seq<PendingImage>, errs: seq<string>)
    requires NeverFills(present + |acc|, maxFiles, vs)
    ensures IngestFrom(present, maxFiles, vs, acc, errs)
      == Ingested(acc + AdmittedImages(vs), errs + RefusalErrors(vs))
  {
    var r := IngestFrom(present, maxFiles, vs, acc, errs);
    if vs == [] {
      assert r == Ingested(acc, errs);
      assert acc + [] == acc && errs + [] == errs;
    } else {
      assert vs[..0] == [];
      assert present + |acc| < maxFiles;
      assert vs[..|vs|] == vs;
      PrefixCons(vs, |vs| - 1);
      assert vs[1..][..|vs| - 1] == vs[1..];
      var admitted := AdmittedImages(vs[1..]);
      var later := RefusalErrors(vs[1..]);
      match vs[0]
      case Refused(es) =>
        assert r == IngestFrom(present, maxFiles, vs[1..], acc, errs + es);
        forall i | 0 <= i < |vs| - 1
          ensures AdmittedImages(vs[..i + 1]) == AdmittedImages(vs[1..][..i])
        {
          PrefixCons(vs, i);
        }
        assert NeverFills(present + |acc|, maxFiles, vs[1..]);
        IngestFromNeverFills(present, maxFiles, vs[1..], acc, errs + es);
        Collections.AppendAssoc(errs, es, later);
      case Admitted(image) =>
        assert r == IngestFrom(present, maxFiles, vs[1..], acc + [image], errs);
        forall i | 0 <= i < |vs| - 1
          ensures AdmittedImages(vs[..i + 1]) == [image] + AdmittedImages(vs[1..][..i])
        {
          PrefixCons(vs, i);
        }
        assert NeverFills(present + |acc + [image]|, maxFiles, vs[1..]);
        IngestFromNeverFills(present, maxFiles, vs[1..], acc + [image], errs);
        Collections.AppendAssoc(acc, [image], admitted);
    }
  }

  /** No refused file's errors include the capacity error. */
  lemma {:induction false} RefusalErrorsLackCapacity(vs: seq<Verdict>, maxFiles: nat)
    requires NoCapacityRefusal(vs, maxFiles)
    ensures CapacityMessage(maxFiles) !in RefusalErrors(vs)
  {
    if vs != [] {
      assert NoCapacityRefusal(vs[1..], maxFiles) by {
        forall j | 0 <= j < |vs| - 1 && vs[1..][j].Refused?
          ensures CapacityMessage(maxFiles) !in vs[1..][j].errors
        {
          assert vs[1..][j] == vs[j + 1];
        }
      }
      RefusalErrorsLackCapacity(vs[1..], maxFiles);
    }
  }

  lemma VerdictsLackCapacity(props: UploaderProps, cands: seq<Candidate>, formatSize: nat -> string)
    ensures NoCapacityRefusal(Verdicts(props, cands, formatSize), props.maxFiles)
  {
    var vs := Verdicts(props, cands, formatSize);
    forall j | 0 <= j < |vs| && vs[j].Refused? ensures CapacityMessage(props.maxFiles) !in vs[j].errors {
      RefusalsAreNamed(props, cands[j], formatSize, props.maxFiles);
    }
  }

  /**
   * When the room fills just before the `k`-th file, the pass admits the
   * admissible files before it, reports the refusals of exactly the files
   * examined so far, in order, then the capacity error once, and examines
   * nothing after.
   */
  lemma IngestOverflow(present: nat, props: UploaderProps, cands: seq<Candidate>, formatSize: nat -> string, k: nat)
    requires FillsAt(present, props.maxFiles, Verdicts(props, cands, formatSize), k)
    ensures var vs := Verdicts(props, cands, formatSize);
      Ingest(present, props, cands, formatSize)
        == Ingested(AdmittedImages(vs[..k]), RefusalErrors(vs[..k]) + [CapacityMessage(props.maxFiles)])
    ensures var vs := Verdicts(props, cands, formatSize);
      CapacityMessage(props.maxFiles) !in RefusalErrors(vs[..k])
  {
    var vs := Verdicts(props, cands, formatSize);
    IngestFromStopsAt(present, props.maxFiles, vs, [], [], k);
    assert [] + AdmittedImages(vs[..k]) == AdmittedImages(vs[..k]);
    assert [] + RefusalErrors(vs[..k]) == RefusalErrors(vs[..k]);
    VerdictsLackCapacity(props, cands, formatSize);
    assert NoCapacityRefusal(vs[..k], props.maxFiles) by {
      forall j | 0 <= j < k && vs[..k][j].Refused?
        ensures CapacityMessage(props.maxFiles) !in vs[..k][j].errors
      {
        assert vs[..k][j] == vs[j];
      }
    }
    RefusalErrorsLackCapacity(vs[..k], props.maxFiles);
  }

  /**
   * When room is left before every file, every file is examined: all
   * admissible files are taken, the errors are every refusal in order, and no
   * capacity error is reported.
   */
  lemma IngestNoOverflow(present: nat, props: UploaderProps, cands: seq<Candidate>, formatSize: nat -> string)
    requires NeverFills(present, props.maxFiles, Verdicts(props, cands, formatSize))
    ensures var vs := Verdicts(props, cands, formatSize);
      Ingest(present, props, cands, formatSize) == Ingested(AdmittedImages(vs), RefusalErrors(vs))
    ensures CapacityMessage(props.maxFiles) !in Ingest(present, props, cands, formatSize).errors
  {
    var vs := Verdicts(props, cands, formatSize);
    IngestFromNeverFills(present, props.maxFiles, vs, [], []);
    assert [] + AdmittedImages(vs) == AdmittedImages(vs);
    assert [] + RefusalErrors(vs) == RefusalErrors(vs);
    VerdictsLackCapacity(props, cands, formatSize);
    RefusalErrorsLackCapacity(vs, props.maxFiles);
  }

  // ---------------------------------------------------------------- the component

  /**
   * The uploader's own `errors` state and the `value` prop it controls
   * through `onChange` (the parent stores what `onChange` hands it).
   */
  class ImageUploader {
    var value: seq<PendingImage>
    var errors: seq<string>
    const props: UploaderProps

    /** The collection never exceeds its cap. */
    ghost predicate Valid()
      reads this
    {
      |value| <= props.maxFiles
    }

    constructor (props: UploaderProps, value: seq<PendingImage>)
      requires |value| <= props.maxFiles
      ensures Valid()
      ensures this.props == props && this.value == value && errors == []
    {
      this.props := props;
      this.value := value;
      errors := [];
    }

    /**
     * `handleFiles`: the errors are replaced by this pass's errors; `onChange`
     * runs only when something was admitted, appending in multiple mode and
     * keeping only the first admitted image in single mode.
     */
    method HandleFiles(cands: seq<Candidate>, formatSize: nat -> string) returns (changed: bool)
      requires Valid()
      modifies this
      ensures Valid()
      ensures var r := Ingest(|old(value)|, props, cands, formatSize);
        errors == r.errors
        && (changed <==> r.accepted != [])
        && value == (if !changed then old(value)
                     else if props.multiple then old(value) + r.accepted
                     else [r.accepted[0]])
    {
      var accepted, newErrors := CollectFiles(|value|, props, cands, formatSize);
      IngestWithinCapacity(|value|, props, cands, formatSize);
      errors := newErrors;
      changed := |accepted| > 0;
      if changed {
        if props.multiple {
          value := value + accepted;
        } else {
          value := accepted[..1];
        }
      }
    }

    /** `handleRemove`: drops exactly the images with that id; the rest keep their order. */
    method HandleRemove(id: string)
      requires Valid()
      modifies this`value
      ensures Valid()
      ensures value == Collections.RemoveById(old(value), ImageId, id)
    {
      value := Collections.RemoveById(value, ImageId, id);
    }
  }
}
