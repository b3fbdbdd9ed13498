/** The decision part of `ImageProcessingService`: which bounds an image is held
    to, whether it is resized, and how a stream is read into one byte array. The
    decoder, the resizer and the JPEG encoder are parameters. */
module ImageProcessing {
  import opened Base
  import opened Seqs

  type byte = bv8

  const FILE_IS_EMPTY := "File is empty"

  /** A decoded image; only its dimensions drive the decisions. */
  datatype Image = Image(width: int, height: int, pixels: seq<byte>)

  /** The four configured bounds. */
  datatype ImageBounds = ImageBounds(maxVerticalWidth: int, maxVerticalHeight: int,
                                     maxHorizontalWidth: int, maxHorizontalHeight: int)

  /** `isVertical`: strictly taller than wide. */
  predicate IsVertical(width: int, height: int)
  {
    width < height
  }

  /** A square image counts as horizontal. */
  lemma SquareIsHorizontal(side: int)
    ensures !IsVertical(side, side)
  {
  }

  /** The (width, height) bounds for an image: the vertical pair for a vertical
      image, the horizontal pair for every other one. */
  function BoundsFor(img: Image, b: ImageBounds): (r: (int, int))
    ensures IsVertical(img.width, img.height) ==> r == (b.maxVerticalWidth, b.maxVerticalHeight)
    ensures !IsVertical(img.width, img.height) ==> r == (b.maxHorizontalWidth, b.maxHorizontalHeight)
  {
    if IsVertical(img.width, img.height) then (b.maxVerticalWidth, b.maxVerticalHeight)
    else (b.maxHorizontalWidth, b.maxHorizontalHeight)
  }

  /** The image exceeds its bounds in width or in height. */
  predicate NeedsResize(img: Image, b: ImageBounds)
  {
    var (w, h) := BoundsFor(img, b);
    img.width > w || img.height > h
  }

  /** The image that goes to the encoder: resized to its bounds when it exceeds
      them, the decoded image itself otherwise. */
  function Adjusted(img: Image, b: ImageBounds, resize: (Image, int, int) -> Image): (r: Image)
    ensures !NeedsResize(img, b) ==> r == img
    ensures NeedsResize(img, b) ==> r == resize(img, BoundsFor(img, b).0, BoundsFor(img, b).1)
  {
    if NeedsResize(img, b) then resize(img, BoundsFor(img, b).0, BoundsFor(img, b).1) else img
  }

  /** `optimizeImage`: an input the decoder cannot read is "File is empty";
      otherwise the adjusted image, encoded as JPEG. */
  function OptimizeImage(input: seq<byte>, b: ImageBounds, decode: seq<byte> -> Option<Image>,
                         resize: (Image, int, int) -> Image, encode: Image -> seq<byte>): (r: Outcome<seq<byte>>)
    ensures decode(input).None? <==> r.Thrown?
    ensures r.Thrown? ==> r.exception == FileFailure(FILE_IS_EMPTY)
  {
    match decode(input)
    case None => Thrown(FileFailure(FILE_IS_EMPTY))
    case Some(img) => Ok(encode(Adjusted(img, b, resize)))
  }

  /** An image within its bounds is encoded unchanged: the resizer is never
      consulted. */
  lemma WithinBoundsIsNotResized(input: seq<byte>, b: ImageBounds, decode: seq<byte> -> Option<Image>,
                                 resize1: (Image, int, int) -> Image, resize2: (Image, int, int) -> Image,
                                 encode: Image -> seq<byte>)
    requires decode(input).Some? && !NeedsResize(decode(input).value, b)
    ensures OptimizeImage(input, b, decode, resize1, encode) == Ok(encode(decode(input).value))
    ensures OptimizeImage(input, b, decode, resize1, encode) == OptimizeImage(input, b, decode, resize2, encode)
  {
  }

  /** A vertical image that is too tall is resized to the vertical bounds, and a
      square one that is too wide to the horizontal bounds. */
  lemma OrientationPicksBounds(img: Image, b: ImageBounds, resize: (Image, int, int) -> Image)
    ensures img.width < img.height && img.height > b.maxVerticalHeight ==>
              Adjusted(img, b, resize) == resize(img, b.maxVerticalWidth, b.maxVerticalHeight)
    ensures img.width == img.height && img.width > b.maxHorizontalWidth ==>
              Adjusted(img, b, resize) == resize(img, b.maxHorizontalWidth, b.maxHorizontalHeight)
  {
  }

  /** `toByteArray`: the chunks each `read` returns, appended to a buffer until the
      stream reports its end. */
  method ToByteArray(chunks: seq<seq<byte>>) returns (bytes: seq<byte>)
    ensures bytes == Flatten(chunks)
  {
    bytes := [];
    var i := 0;
    while i < |chunks|
      invariant 0 <= i <= |chunks|
      invariant bytes == Flatten(chunks[..i])
    {
      FlattenAppend(chunks[..i], [chunks[i]]);
      assert chunks[..i + 1] == chunks[..i] + [chunks[i]];
      assert Flatten([chunks[i]]) == chunks[i] + Flatten([chunks[i]][1..]);
      bytes := bytes + chunks[i];
      i := i + 1;
    }
    assert chunks[..i] == chunks;
  }

  /** The buffer holds every chunk in read order: chunk `i` sits right after the
      bytes of the chunks before it. */
  lemma ChunksInReadOrder(chunks: seq<seq<byte>>, i: int)
    requires 0 <= i < |chunks|
    ensures var before := |Flatten(chunks[..i])|;
            before + |chunks[i]| <= |Flatten(chunks)|
            && Flatten(chunks)[before..before + |chunks[i]|] == chunks[i]
  {
    assert chunks == chunks[..i] + ([chunks[i]] + chunks[i + 1..]);
    FlattenAppend(chunks[..i], [chunks[i]] + chunks[i + 1..]);
    FlattenAppend([chunks[i]], chunks[i + 1..]);
    assert Flatten([chunks[i]]) == chunks[i] + Flatten([chunks[i]][1..]);
    assert [chunks[i]][1..] == [];
  }
}
