/**
  The image viewer: an index into the list of images that the arrow buttons and keys move
  forward and back, wrapping around at both ends, and that Escape asks the parent to close.
*/
module ImageModal {
  import ImageUtils
  import JsString

  /** `handleNext`'s update: the next index, the last one wrapping to the first. */
  function NextIndex(i: int, n: nat): (j: int)
    ensures 0 <= i < n ==> 0 <= j < n
  {
    if i < n - 1 then i + 1 else 0
  }

  /** `handlePrevious`'s update: the previous index, the first one wrapping to the last. */
  function PreviousIndex(i: int, n: nat): (j: int)
    ensures 0 <= i < n ==> 0 <= j < n
  {
    if i > 0 then i - 1 else n - 1
  }

  /**
    On a valid index both moves stay on the images: forward goes one on except from the last
    image, which leads to the first, and back goes one back except from the first, which leads to
    the last.
  */
  lemma MovesStayOnImages(i: int, n: nat)
    requires 0 <= i < n
    ensures 0 <= NextIndex(i, n) < n && 0 <= PreviousIndex(i, n) < n
    ensures NextIndex(i, n) == 0 <==> i == n - 1
    ensures PreviousIndex(i, n) == n - 1 <==> i == 0
    ensures i != n - 1 ==> NextIndex(i, n) == i + 1
    ensures i != 0 ==> PreviousIndex(i, n) == i - 1
  {
  }

  /** Each move undoes the other. */
  lemma MovesAreInverse(i: int, n: nat)
    requires 0 <= i < n
    ensures PreviousIndex(NextIndex(i, n), n) == i
    ensures NextIndex(PreviousIndex(i, n), n) == i
  {
  }

  datatype Move = Previous | Next

  /** The index after a series of moves. */
  function AfterMoves(i: int, n: nat, moves: seq<Move>): int
    decreases |moves|
  {
    if moves == [] then i
    else AfterMoves(if moves[0].Next? then NextIndex(i, n) else PreviousIndex(i, n), n, moves[1..])
  }

  /** No series of moves leaves the images: a valid index stays valid. */
  lemma {:induction false} MovesStayInRange(i: int, n: nat, moves: seq<Move>)
    requires 0 <= i < n
    ensures 0 <= AfterMoves(i, n, moves) < n
    decreases |moves|
  {
    if moves != [] {
      MovesStayOnImages(i, n);
      MovesStayInRange(if moves[0].Next? then NextIndex(i, n) else PreviousIndex(i, n), n, moves[1..]);
    }
  }

  function Repeat(m: Move, k: nat): seq<Move> {
    seq(k, _ => m)
  }

  /** `k` steps forward from a valid index land `k` places further on, wrapping once past the end. */
  lemma {:induction false} ForwardSteps(i: int, n: nat, k: nat)
    requires 0 <= i < n && k <= n
    ensures AfterMoves(i, n, Repeat(Next, k)) == if i + k < n then i + k else i + k - n
    decreases k
  {
    if k > 0 {
      assert Repeat(Next, k)[1..] == Repeat(Next, k - 1);
      if i < n - 1 {
        ForwardSteps(i + 1, n, k - 1);
      } else {
        ForwardSteps(0, n, k - 1);
      }
    }
  }

  /** Going forward once per image comes back to the image one started at. */
  lemma FullCircle(i: int, n: nat)
    requires 0 <= i < n
    ensures AfterMoves(i, n, Repeat(Next, n)) == i
  {
    ForwardSteps(i, n, n);
  }

  datatype Key = Escape | ArrowLeft | ArrowRight | OtherKey

  /** The modal shows anything only while open and with images to show. */
  predicate Renders(isOpen: bool, n: nat) {
    isOpen && n > 0
  }

  const DownloadPrefix: string := "memory-image-"
  const DownloadSuffix: string := ".jpg"

  /**
    `memory-image-${activeIndex + 1}.jpg`: the digits between the prefix and the suffix denote the
    image's position counted from 1.
  */
  function DownloadName(i: nat): (name: string)
    ensures |DownloadPrefix| < |name| - |DownloadSuffix|
    ensures name[..|DownloadPrefix|] == DownloadPrefix && name[|name| - |DownloadSuffix|..] == DownloadSuffix
    ensures var digits := name[|DownloadPrefix|..|name| - |DownloadSuffix|];
      (forall k :: 0 <= k < |digits| ==> JsString.IsDigit(digits[k])) && ImageUtils.DigitsValue(digits) == i + 1
  {
    var digits := ImageUtils.NatToString(i + 1);
    var name := DownloadPrefix + digits + DownloadSuffix;
    assert name[|DownloadPrefix|..|name| - |DownloadSuffix|] == digits;
    name
  }

  /** Different images download under different names. */
  lemma DownloadNamesDistinct(i: nat, j: nat)
    requires i != j
    ensures DownloadName(i) != DownloadName(j)
  {
  }

  class Viewer {
    const images: seq<string>
    var isOpen: bool
    var activeIndex: int

    constructor (images: seq<string>, currentIndex: int, isOpen: bool)
      ensures this.images == images && activeIndex == currentIndex && this.isOpen == isOpen
    {
      this.images := images;
      activeIndex := currentIndex;
      this.isOpen := isOpen;
    }

    /** The index is on an image. */
    predicate OnImage()
      reads this
    {
      0 <= activeIndex < |images|
    }

    /**
      The image on screen: there is one only while the modal is open with images to show, and it
      is one of the images.
    */
    function Shown(): (url: string)
      requires Renders(isOpen, |images|) && OnImage()
      reads this
      ensures url in images && url == images[activeIndex]
    {
      images[activeIndex]
    }

    /** The effect on a new `currentIndex` from the parent. */
    method SyncIndex(currentIndex: int)
      modifies this
      ensures activeIndex == currentIndex && isOpen == old(isOpen)
    {
      activeIndex := currentIndex;
    }

    /** The parent opens or closes the modal. */
    method SetOpen(open: bool)
      modifies this
      ensures isOpen == open && activeIndex == old(activeIndex)
    {
      isOpen := open;
    }

    method HandleNext()
      modifies this
      ensures activeIndex == NextIndex(old(activeIndex), |images|) && isOpen == old(isOpen)
      ensures old(OnImage()) ==> OnImage()
    {
      activeIndex := if activeIndex < |images| - 1 then activeIndex + 1 else 0;
    }

    method HandlePrevious()
      modifies this
      ensures activeIndex == PreviousIndex(old(activeIndex), |images|) && isOpen == old(isOpen)
      ensures old(OnImage()) ==> OnImage()
    {
      activeIndex := if activeIndex > 0 then activeIndex - 1 else |images| - 1;
    }

    /**
      `handleKeyDown`: while closed every key is ignored; Escape asks the parent to close
      (`closeRequested`), the arrow keys move back and forward, any other key does nothing.
    */
    method HandleKeyDown(key: Key) returns (closeRequested: bool)
      modifies this
      ensures closeRequested == (old(isOpen) && key == Escape)
      ensures activeIndex == if !old(isOpen) then old(activeIndex) else match key
        case ArrowLeft => PreviousIndex(old(activeIndex), |images|)
        case ArrowRight => NextIndex(old(activeIndex), |images|)
        case _ => old(activeIndex)
      ensures isOpen == old(isOpen)
      ensures old(OnImage()) ==> OnImage()
    {
      closeRequested := false;
      if !isOpen {
        return;
      }
      match key
      case Escape => closeRequested := true;
      case ArrowLeft => HandlePrevious();
      case ArrowRight => HandleNext();
      case OtherKey =>
    }

    /** The name of the downloaded file for the image on screen. */
    method DownloadFileName() returns (name: string)
      requires OnImage()
      ensures name == DownloadName(activeIndex)
    {
      name := DownloadName(activeIndex);
    }
  }
}
