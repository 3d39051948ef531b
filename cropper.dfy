/**
 * `ImageCropper`: the crop session state (`crop`, `completedCrop`,
 * `selectedRatio`, `isLocked`, `isProcessing`) and the handlers that drive it.
 *
 * Aspect ratios are the six presets of the toolbar, with `Free` for the
 * `null` ratio. The canvas work of `generateCroppedImage` is an oracle: what
 * `toBlob` hands back, or that drawing threw.
 */
module Cropper {
  import opened Wrappers
  import opened Helpers

  /** The presets `Free`, `4:3`, `16:9`, `1:1`, `3:4`, `9:16`. */
  datatype Ratio = Free | FourThree | SixteenNine | Square | ThreeFour | NineSixteen

  const Presets: seq<Ratio> := [Free, FourThree, SixteenNine, Square, ThreeFour, NineSixteen]

  function Label(r: Ratio): string {
    match r
    case Free => "Free"
    case FourThree => "4:3"
    case SixteenNine => "16:9"
    case Square => "1:1"
    case ThreeFour => "3:4"
    case NineSixteen => "9:16"
  }

  /** The numeric ratio handed to the crop widget; None is `null` (no constraint). */
  function AspectValue(r: Ratio): (v: Option<real>)
    ensures v.None? <==> r == Free
    ensures v.Some? ==> v.value > 0.0
  {
    match r
    case Free => None
    case FourThree => Some(4.0 / 3.0)
    case SixteenNine => Some(16.0 / 9.0)
    case Square => Some(1.0)
    case ThreeFour => Some(3.0 / 4.0)
    case NineSixteen => Some(9.0 / 16.0)
  }

  datatype CropUnit = Percent | Pixels

  datatype Crop = Crop(unit: CropUnit, width: real, height: real, x: real, y: real)

  /** The crop the cropper mounts with and every reset restores: 90% by 90% at (5%, 5%). */
  const DefaultCrop: Crop := Crop(Percent, 90.0, 90.0, 5.0, 5.0)

  /** What the canvas produces on commit: a blob of some size and its data URL, no blob, or an exception. */
  datatype Encoding = Encoded(size: nat, dataUrl: string) | NoBlob | DrawFailed

  /** The `{ file, preview }` handed to `onCropComplete`. */
  datatype CropResult = CropResult(file: ImageFile, preview: string)

  const CroppedName: string := "cropped-image.jpg"
  const CroppedMime: string := "image/jpeg"

  /** How `generateCroppedImage` settles: with a result or null, or by throwing. */
  datatype Generated = Resolved(result: Option<CropResult>) | Rejected

  /**
   * `generateCroppedImage`: null without a completed crop or a mounted image,
   * otherwise whatever the canvas yields, as a JPEG named after the image
   * element (whose `name` is empty, so the fallback name is used).
   */
  function Generate(completedCrop: Option<Crop>, imageMounted: bool, elementName: string, encoding: Encoding): (g: Generated)
    ensures completedCrop.None? || !imageMounted ==> g == Resolved(None)
    ensures g.Resolved? && g.result.Some? ==> g.result.value.file.mime == CroppedMime
    ensures completedCrop.Some? && imageMounted ==>
      (encoding == NoBlob ==> g == Resolved(None))
      && (encoding == DrawFailed ==> g == Rejected)
      && (encoding.Encoded? ==>
            g.Resolved? && g.result.Some?
            && g.result.value.file.size == encoding.size
            && g.result.value.preview == encoding.dataUrl
            && g.result.value.file.name != ""
            && (elementName != "" ==> g.result.value.file.name == elementName))
  {
    if completedCrop.None? || !imageMounted then Resolved(None)
    else
      match encoding
      case DrawFailed => Rejected
      case NoBlob => Resolved(None)
      case Encoded(size, dataUrl) =>
        var name := if elementName != "" then elementName else CroppedName;
        Resolved(Some(CropResult(ImageFile(name, CroppedMime, size), dataUrl)))
  }

  /** What `handleComplete` does visibly: the result handed to `onCropComplete` (if any) and whether `onClose` ran. */
  datatype Committed = Committed(delivered: Option<CropResult>, closed: bool)

  function Commit(completedCrop: Option<Crop>, imageMounted: bool, elementName: string, encoding: Encoding,
                  hasCallback: bool): (c: Committed)
    ensures c.delivered.Some? ==> hasCallback && c.closed
    ensures !c.closed <==> Generate(completedCrop, imageMounted, elementName, encoding).Rejected?
    ensures var g := Generate(completedCrop, imageMounted, elementName, encoding);
      c.delivered == (if hasCallback && g.Resolved? then g.result else None)
  {
    match Generate(completedCrop, imageMounted, elementName, encoding)
    case Rejected => Committed(None, false)
    case Resolved(r) => Committed(if hasCallback then r else None, true)
  }

  /** Without a completed crop the commit hands nothing over, but still closes the dialog. */
  lemma CommitWithoutCrop(imageMounted: bool, elementName: string, encoding: Encoding, hasCallback: bool)
    ensures Commit(None, imageMounted, elementName, encoding, hasCallback) == Committed(None, true)
  {
  }

  /**
   * A crop that is cut and encoded reaches the parent: with a callback, the
   * commit hands over exactly the file and preview the canvas produced and
   * closes the dialog.
   */
  lemma CommitDeliversCrop(crop: Crop, elementName: string, size: nat, dataUrl: string)
    ensures var c := Commit(Some(crop), true, elementName, Encoded(size, dataUrl), true);
      c.closed && c.delivered.Some?
      && c.delivered.value.preview == dataUrl
      && c.delivered.value.file.size == size
      && c.delivered.value.file.mime == CroppedMime
  {
  }

  /** When the canvas yields no blob the commit hands nothing over and still closes; when drawing throws it stays open. */
  lemma CommitWithoutBlob(crop: Crop, elementName: string, hasCallback: bool)
    ensures Commit(Some(crop), true, elementName, NoBlob, hasCallback) == Committed(None, true)
    ensures Commit(Some(crop), true, elementName, DrawFailed, hasCallback) == Committed(None, false)
  {
  }

  /** The crop of the displayed image in the natural image's pixels: `crop * (natural / displayed)`. */
  function SourceRegion(c: Crop, displayedWidth: real, displayedHeight: real, naturalWidth: real, naturalHeight: real): (r: Crop)
    requires displayedWidth > 0.0 && displayedHeight > 0.0
  {
    var sx := naturalWidth / displayedWidth;
    var sy := naturalHeight / displayedHeight;
    Crop(Pixels, c.width * sx, c.height * sy, c.x * sx, c.y * sy)
  }

  /** A pixel crop inside the displayed image maps to a region inside the natural image. */
  lemma SourceRegionInBounds(c: Crop, displayedWidth: real, displayedHeight: real, naturalWidth: real, naturalHeight: real)
    requires displayedWidth > 0.0 && displayedHeight > 0.0 && naturalWidth >= 0.0 && naturalHeight >= 0.0
    requires 0.0 <= c.x && 0.0 <= c.width && c.x + c.width <= displayedWidth
    requires 0.0 <= c.y && 0.0 <= c.height && c.y + c.height <= displayedHeight
    ensures var r := SourceRegion(c, displayedWidth, displayedHeight, naturalWidth, naturalHeight);
      0.0 <= r.x && 0.0 <= r.width && r.x + r.width <= naturalWidth
      && 0.0 <= r.y && 0.0 <= r.height && r.y + r.height <= naturalHeight
  {
    var sx := naturalWidth / displayedWidth;
    var sy := naturalHeight / displayedHeight;
    assert sx >= 0.0 && sy >= 0.0;
    assert (c.x + c.width) * sx <= displayedWidth * sx;
    assert (c.y + c.height) * sy <= displayedHeight * sy;
    assert displayedWidth * sx == naturalWidth;
    assert displayedHeight * sy == naturalHeight;
  }

  /** `defaultAspectRatio || 4 / 3`: the given ratio unless it is missing or `null` (Free), else 4:3. */
  function InitialRatio(defaultRatio: Option<Ratio>): (r: Ratio)
    ensures r != Free
    ensures defaultRatio.Some? && defaultRatio.value != Free ==> r == defaultRatio.value
    ensures defaultRatio.None? || defaultRatio.value == Free ==> r == FourThree
  {
    if defaultRatio.Some? && defaultRatio.value != Free then defaultRatio.value else FourThree
  }

  class ImageCropper {
    var crop: Crop
    var completedCrop: Option<Crop>
    var isProcessing: bool
    var selectedRatio: Ratio
    var isLocked: bool

    /** Every handler keeps the lock and the ratio in step: locked exactly when a ratio other than Free is selected. */
    ghost predicate Valid()
      reads this
    {
      isLocked <==> selectedRatio != Free
    }

    /**
     * The `useState` initialisers, which run once when the component mounts:
     * locked, default crop, nothing completed, and the ratio `aspectRatio || 4/3`.
     * A later `aspectRatio` prop does not reach this state.
     */
    constructor (defaultRatio: Option<Ratio>)
      ensures Valid()
      ensures crop == DefaultCrop && completedCrop == None && !isProcessing && isLocked
      ensures selectedRatio == InitialRatio(defaultRatio)
    {
      crop := DefaultCrop;
      completedCrop := None;
      isProcessing := false;
      selectedRatio := InitialRatio(defaultRatio);
      isLocked := true;
    }

    /** `currentAspect`: the selected ratio while locked, unconstrained while unlocked. */
    function CurrentAspect(): (r: Ratio)
      reads this
      requires Valid()
      ensures r == selectedRatio
      ensures !isLocked ==> r == Free
    {
      if isLocked then selectedRatio else Free
    }

    /** The label shown under the crop area while locked. */
    function RatioCaption(): (s: string)
      reads this
      requires Valid()
      ensures isLocked ==> s == Label(selectedRatio) && s != "Free"
    {
      if isLocked then Label(selectedRatio) else "Free crop"
    }

    /** A ratio tile other than Free cannot be clicked while unlocked. */
    function TileDisabled(r: Ratio): (b: bool)
      reads this
      ensures b <==> !isLocked && r != Free
      ensures Valid() ==> (b <==> selectedRatio == Free && r != Free)
    {
      !isLocked && r != Free
    }

    /** `handleReset`: only the crop goes back to the default. */
    method HandleReset()
      modifies this`crop
      ensures crop == DefaultCrop
    {
      crop := DefaultCrop;
    }

    /** `handleRatioChange`: selects the ratio and resets the crop. */
    method HandleRatioChange(r: Ratio)
      modifies this`selectedRatio, this`crop
      ensures selectedRatio == r && crop == DefaultCrop
    {
      selectedRatio := r;
      HandleReset();
    }

    /**
     * `toggleLock`: flips the lock; locking selects 4:3, unlocking selects
     * Free; the crop is reset either way. Both branches read the lock as it
     * was before the flip.
     */
    method ToggleLock()
      requires Valid()
      modifies this`isLocked, this`selectedRatio, this`crop
      ensures Valid()
      ensures isLocked == !old(isLocked)
      ensures selectedRatio == (if old(isLocked) then Free else FourThree)
      ensures crop == DefaultCrop
    {
      var wasLocked := isLocked;
      isLocked := !wasLocked;
      if !wasLocked {
        selectedRatio := FourThree;
      } else {
        selectedRatio := Free;
      }
      HandleReset();
    }

    /**
     * A click on a ratio tile. Free unlocks and clears the ratio but keeps the
     * crop; another ratio locks, selects it and resets the crop; a disabled
     * tile does nothing.
     */
    method ClickTile(r: Ratio)
      requires Valid()
      modifies this`isLocked, this`selectedRatio, this`crop
      ensures Valid()
      ensures old(TileDisabled(r)) ==> unchanged(this)
      ensures r == Free ==> !isLocked && selectedRatio == Free && crop == old(crop)
      ensures !old(TileDisabled(r)) && r != Free ==> isLocked && selectedRatio == r && crop == DefaultCrop
    {
      if TileDisabled(r) {
        return;
      }
      if r == Free {
        isLocked := false;
        selectedRatio := Free;
      } else {
        isLocked := true;
        HandleRatioChange(r);
      }
    }

    /** The widget's `onChange`: the live crop follows the drag. */
    method OnCropChange(c: Crop)
      modifies this`crop
      ensures crop == c
    {
      crop := c;
    }

    /** The widget's `onComplete`: the crop the commit will cut. */
    method OnCropComplete(c: Crop)
      modifies this`completedCrop
      ensures completedCrop == Some(c)
    {
      completedCrop := Some(c);
    }

    /**
     * `handleComplete`: hands the generated result to `onCropComplete` when
     * both exist, then closes; when generating throws, nothing is delivered
     * and the dialog stays open. `isProcessing` ends false on every path.
     */
    method HandleComplete(imageMounted: bool, elementName: string, encoding: Encoding, hasCallback: bool)
      returns (delivered: Option<CropResult>, closed: bool)
      modifies this`isProcessing
      ensures !isProcessing
      ensures Committed(delivered, closed) == Commit(completedCrop, imageMounted, elementName, encoding, hasCallback)
      ensures var g := Generate(completedCrop, imageMounted, elementName, encoding);
        hasCallback && g.Resolved? && g.result.Some? ==> delivered == g.result && closed
    {
      isProcessing := true;
      delivered, closed := None, false;
      var generated := Generate(completedCrop, imageMounted, elementName, encoding);
      if generated.Resolved? {
        if generated.result.Some? && hasCallback {
          delivered := generated.result;
        }
        closed := true;
      }
      isProcessing := false;
    }
  }
}
