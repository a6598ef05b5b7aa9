/**
 * The native image resource as the marshalling code uses it.
 *
 * Reading an image: it is a sequence of representations, one per scale
 * factor, and getScaleFactors / getSize / toDataURL / toBitmap are lookups
 * into that sequence.
 *
 * Building an image: createEmpty gives an image with no representations and
 * addRepresentation appends one. The native binding fills in the encoding it
 * was not given (a PNG data URL from a bitmap, or a bitmap from a data URL);
 * that codec is foreign code, so it is a parameter here.
 */
module NativeImages {

  type Bytes = seq<bv8>

  datatype Size = Size(width: int, height: int)

  /** One scale-factor-specific representation: its pixel size and both encodings. */
  datatype Representation = Representation(scaleFactor: real, size: Size, dataURL: string, bitmap: Bytes)

  /** The native PNG encoder and decoder behind toDataURL and addRepresentation. */
  datatype Codec = Codec(encode: Bytes -> string, decode: string -> Bytes)

  /** Where addRepresentation takes the pixels from. */
  datatype Source = FromBuffer(buffer: Bytes) | FromDataURL(dataURL: string)

  /** The options object passed to addRepresentation. */
  datatype RepresentationOptions = RepresentationOptions(scaleFactor: real, width: int, height: int, source: Source)

  /** image.getScaleFactors(): the scale factors, in the image's own order. */
  function GetScaleFactors(image: seq<Representation>): (r: seq<real>)
    ensures |r| == |image|
    ensures forall i | 0 <= i < |image| :: r[i] == image[i].scaleFactor
  {
    if image == [] then [] else [image[0].scaleFactor] + GetScaleFactors(image[1..])
  }

  predicate HasScaleFactor(image: seq<Representation>, scaleFactor: real)
  {
    exists i | 0 <= i < |image| :: image[i].scaleFactor == scaleFactor
  }

  /** No two representations share a scale factor. */
  predicate DistinctScaleFactors(image: seq<Representation>)
  {
    forall i, j | 0 <= i < j < |image| :: image[i].scaleFactor != image[j].scaleFactor
  }

  /** `k` is the first representation with `scaleFactor`. */
  predicate FirstWith(image: seq<Representation>, scaleFactor: real, k: nat)
  {
    k < |image| && image[k].scaleFactor == scaleFactor
    && forall j | 0 <= j < k :: image[j].scaleFactor != scaleFactor
  }

  /** At most one index is the first with a given factor. */
  lemma FirstWithUnique(image: seq<Representation>, scaleFactor: real, k: nat)
    requires FirstWith(image, scaleFactor, k)
    ensures forall j: nat | FirstWith(image, scaleFactor, j) :: j == k
  {
  }

  /** The representation every lookup at `scaleFactor` reads: the first one with that factor. */
  function FindScaleFactor(image: seq<Representation>, scaleFactor: real): (k: nat)
    requires HasScaleFactor(image, scaleFactor)
    ensures FirstWith(image, scaleFactor, k)
  {
    if image[0].scaleFactor == scaleFactor then 0
    else
      assert HasScaleFactor(image[1..], scaleFactor) by {
        var i :| 0 <= i < |image| && image[i].scaleFactor == scaleFactor;
        assert image[1..][i - 1] == image[i];
      }
      1 + FindScaleFactor(image[1..], scaleFactor)
  }

  /** image.getSize(scaleFactor): the size of the first representation with that factor. */
  function GetSize(image: seq<Representation>, scaleFactor: real): (r: Size)
    requires HasScaleFactor(image, scaleFactor)
    ensures forall k: nat | FirstWith(image, scaleFactor, k) :: r == image[k].size
  {
    var k := FindScaleFactor(image, scaleFactor);
    FirstWithUnique(image, scaleFactor, k);
    image[k].size
  }

  /** image.toDataURL({ scaleFactor }): the dataURL of the first representation with that factor. */
  function ToDataURL(image: seq<Representation>, scaleFactor: real): (r: string)
    requires HasScaleFactor(image, scaleFactor)
    ensures forall k: nat | FirstWith(image, scaleFactor, k) :: r == image[k].dataURL
  {
    var k := FindScaleFactor(image, scaleFactor);
    FirstWithUnique(image, scaleFactor, k);
    image[k].dataURL
  }

  /** image.toBitmap({ scaleFactor }): the bitmap of the first representation with that factor. */
  function ToBitmap(image: seq<Representation>, scaleFactor: real): (r: Bytes)
    requires HasScaleFactor(image, scaleFactor)
    ensures forall k: nat | FirstWith(image, scaleFactor, k) :: r == image[k].bitmap
  {
    var k := FindScaleFactor(image, scaleFactor);
    FirstWithUnique(image, scaleFactor, k);
    image[k].bitmap
  }

  /** With distinct scale factors, a lookup at the i-th factor reads the i-th representation. */
  lemma {:induction false} FindScaleFactorDistinct(image: seq<Representation>, i: nat)
    requires DistinctScaleFactors(image) && i < |image|
    ensures HasScaleFactor(image, image[i].scaleFactor)
    ensures FindScaleFactor(image, image[i].scaleFactor) == i
  {
  }

  /** The representation a single addRepresentation call produces. */
  function Added(options: RepresentationOptions, codec: Codec): (r: Representation)
    ensures r.scaleFactor == options.scaleFactor && r.size == Size(options.width, options.height)
    ensures options.source.FromBuffer? ==> r.bitmap == options.source.buffer && r.dataURL == codec.encode(r.bitmap)
    ensures options.source.FromDataURL? ==> r.dataURL == options.source.dataURL && r.bitmap == codec.decode(r.dataURL)
  {
    var size := Size(options.width, options.height);
    match options.source
    case FromBuffer(buffer) => Representation(options.scaleFactor, size, codec.encode(buffer), buffer)
    case FromDataURL(dataURL) => Representation(options.scaleFactor, size, dataURL, codec.decode(dataURL))
  }

  /** The representations of an empty image after the given addRepresentation calls. */
  function AfterCalls(calls: seq<RepresentationOptions>, codec: Codec): (r: seq<Representation>)
    ensures |r| == |calls|
    ensures forall i | 0 <= i < |calls| :: r[i] == Added(calls[i], codec)
  {
    if calls == [] then [] else AfterCalls(calls[..|calls| - 1], codec) + [Added(calls[|calls| - 1], codec)]
  }

  /** A native image under construction. */
  class NativeImage {
    const codec: Codec
    var representations: seq<Representation>
    /** Every addRepresentation argument so far, in call order. */
    ghost var calls: seq<RepresentationOptions>

    ghost predicate Valid()
      reads this
    {
      representations == AfterCalls(calls, codec)
    }

    /** nativeImage.createEmpty() */
    constructor CreateEmpty(codec: Codec)
      ensures Valid() && this.codec == codec
      ensures representations == [] && calls == []
    {
      this.codec := codec;
      representations := [];
      calls := [];
    }

    /** image.addRepresentation(options): appends exactly one representation. */
    method AddRepresentation(options: RepresentationOptions)
      requires Valid()
      modifies this
      ensures Valid()
      ensures calls == old(calls) + [options]
      ensures representations == old(representations) + [Added(options, codec)]
    {
      representations := representations + [Added(options, codec)];
      calls := calls + [options];
      assert calls[..|calls| - 1] == old(calls);
    }
  }
}
