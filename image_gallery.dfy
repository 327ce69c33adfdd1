/**
 * The image gallery of a listing card: a thumbnail that opens a full-size view, and previous/next
 * buttons that step through the images with wrap-around.
 */
module ImageGallery {
  import opened Wrappers
  import opened JsValues

  /** `handleNext`: the last index goes back to the first. */
  function NextIndex(i: int, len: nat): int
  {
    if i == len - 1 then 0 else i + 1
  }

  /** `handlePrevious`: the first index goes round to the last. */
  function PrevIndex(i: int, len: nat): int
  {
    if i == 0 then len - 1 else i - 1
  }

  /** On a non-empty list both buttons keep the index in range; the first and last images are neighbours. */
  lemma StepsInRange(i: int, len: nat)
    requires 0 <= i < len
    ensures 0 <= NextIndex(i, len) < len && 0 <= PrevIndex(i, len) < len
    ensures i < len - 1 ==> NextIndex(i, len) == i + 1
    ensures i > 0 ==> PrevIndex(i, len) == i - 1
    ensures NextIndex(len - 1, len) == 0 && PrevIndex(0, len) == len - 1
  {
  }

  /** Next then previous, or previous then next, comes back to the same image. */
  lemma StepsInverse(i: int, len: nat)
    requires 0 <= i < len
    ensures PrevIndex(NextIndex(i, len), len) == i
    ensures NextIndex(PrevIndex(i, len), len) == i
  {
  }

  /** The index after n presses of next. */
  function NextTimes(i: int, len: nat, n: nat): int
  {
    if n == 0 then i else NextIndex(NextTimes(i, len, n - 1), len)
  }

  /** a presses and then b more are a + b presses. */
  lemma {:induction false} NextTimesAdd(i: int, len: nat, a: nat, b: nat)
    ensures NextTimes(NextTimes(i, len, a), len, b) == NextTimes(i, len, a + b)
  {
    if b > 0 {
      NextTimesAdd(i, len, a, b - 1);
    }
  }

  /** Before the end of the list, n presses move n images forward. */
  lemma {:induction false} NextTimesForward(i: int, len: nat, n: nat)
    requires 0 <= i && i + n < len
    ensures NextTimes(i, len, n) == i + n
  {
    if n > 0 {
      NextTimesForward(i, len, n - 1);
    }
  }

  /** len presses of next go once round the whole list and come back to the image they started from. */
  lemma FullCycle(i: int, len: nat)
    requires 0 <= i < len
    ensures NextTimes(i, len, len) == i
  {
    NextTimesForward(i, len, len - 1 - i);
    assert NextTimes(i, len, len - i) == 0;
    NextTimesForward(0, len, i);
    NextTimesAdd(i, len, len - i, i);
  }

  /** With an empty image list the buttons leave the range: previous from 0 gives -1. */
  lemma EmptyListLeavesRange()
    ensures PrevIndex(0, 0) == -1 && NextIndex(PrevIndex(0, 0), 0) == 0 && NextIndex(0, 0) == 1
  {
  }

  /** The thumbnail source, `previewImage || images[0]`. */
  function Thumbnail(images: seq<string>, preview: JsValue): JsValue
  {
    if Truthy(preview) then preview else if images != [] then Text(images[0]) else Undefined
  }

  /** `+n more` is shown, with n the images beyond the first, only with more than one image. */
  function MoreLabel(images: seq<string>): Option<nat>
  {
    if |images| > 1 then Some(|images| - 1) else None
  }

  /** The navigation buttons are shown only with more than one image. */
  predicate ShowsNavigation(images: seq<string>)
  {
    |images| > 1
  }

  /**
   * With a truthy preview the thumbnail is the preview; otherwise the first image whenever there
   * is one. The "+n more" count and the buttons appear together, and the count is what lies beyond
   * the thumbnail's image.
   */
  lemma ThumbnailSpec(images: seq<string>, preview: JsValue)
    ensures Truthy(preview) ==> Thumbnail(images, preview) == preview
    ensures !Truthy(preview) && images != [] ==> Thumbnail(images, preview) == Text(images[0])
    ensures MoreLabel(images).Some? <==> ShowsNavigation(images)
    ensures MoreLabel(images).Some? ==> MoreLabel(images).value + 1 == |images|
  {
  }

  /** The gallery's state: the images and preview it was given, whether it is open, and the index shown. */
  class Gallery {
    const images: seq<string>
    const preview: JsValue
    var isOpen: bool
    var currentIndex: int

    /** On a non-empty list the index always names an image. */
    predicate Valid()
      reads this
    {
      images != [] ==> 0 <= currentIndex < |images|
    }

    constructor(images: seq<string>, preview: JsValue)
      ensures this.images == images && this.preview == preview
      ensures !isOpen && currentIndex == 0
      ensures Valid()
    {
      this.images := images;
      this.preview := preview;
      isOpen := false;
      currentIndex := 0;
    }

    /** A click on the thumbnail. */
    method Open()
      modifies this
      ensures isOpen && currentIndex == old(currentIndex)
    {
      isOpen := true;
    }

    /** The close button; the index is kept for the next opening. */
    method Close()
      modifies this
      ensures !isOpen && currentIndex == old(currentIndex)
    {
      isOpen := false;
    }

    method Next()
      modifies this
      ensures currentIndex == NextIndex(old(currentIndex), |images|) && isOpen == old(isOpen)
      ensures old(Valid()) ==> Valid()
    {
      if images != [] && 0 <= currentIndex < |images| {
        StepsInRange(currentIndex, |images|);
      }
      currentIndex := if currentIndex == |images| - 1 then 0 else currentIndex + 1;
    }

    method Previous()
      modifies this
      ensures currentIndex == PrevIndex(old(currentIndex), |images|) && isOpen == old(isOpen)
      ensures old(Valid()) ==> Valid()
    {
      if images != [] && 0 <= currentIndex < |images| {
        StepsInRange(currentIndex, |images|);
      }
      currentIndex := if currentIndex == 0 then |images| - 1 else currentIndex - 1;
    }

    /** The image of the full-size view, when the index names one. */
    function Shown(): Option<string>
      reads this
    {
      if 0 <= currentIndex < |images| then Some(images[currentIndex]) else None
    }
  }
}
