/**
 * What serialize and deserialize promise: identity on leaves, order and key
 * preservation, the descriptor layout, the two rebuild paths, and the round
 * trip deserialize(serialize(v)).
 */
module TypeUtilsProperties {
  import opened NativeImages
  import opened Values
  import opened TypeUtils

  // ---------------------------------------------------------------------
  // The classifier

  /** isSerializableObject holds exactly of null and of the leaf objects, whatever their contents. */
  lemma SerializableObjectCases(v: Value)
    ensures IsSerializableObject(v) <==> v.Null? || v.Safe?
  {
    if v.Safe? && v.kind.InstanceOf? {
      var t := v.kind.builtin;
      assert t in SerializableTypes by {
        match t
        case BooleanType => assert SerializableTypes[0] == t;
        case NumberType => assert SerializableTypes[1] == t;
        case StringType => assert SerializableTypes[2] == t;
        case DateType => assert SerializableTypes[3] == t;
        case ErrorType => assert SerializableTypes[4] == t;
        case RegExpType => assert SerializableTypes[5] == t;
        case ArrayBufferType => assert SerializableTypes[6] == t;
      }
      assert IsInstanceOf(v, t);
    }
  }

  // ---------------------------------------------------------------------
  // Pass-through, arrays, objects

  /** Primitives, undefined, null and leaf objects come out of serialize unchanged. */
  lemma SerializeLeaf(v: Value)
    requires !v.Image? && !v.Arr? && !v.Obj?
    ensures Serialize(v) == v
  {
    SerializableObjectCases(v);
  }

  /** Primitives, undefined, null and leaf objects come out of deserialize unchanged. */
  lemma DeserializeLeaf(v: Value, codec: Codec)
    requires !v.Image? && !v.Arr? && !v.Obj?
    ensures WellFormed(v) && Deserialize(v, codec) == v
  {
    SerializableObjectCases(v);
  }

  /** serialize maps an array element by element: same length, same order. */
  lemma SerializeArray(elems: seq<Value>)
    ensures Serialize(Arr(elems)).Arr?
    ensures |Serialize(Arr(elems)).elems| == |elems|
    ensures forall i | 0 <= i < |elems| :: Serialize(Arr(elems)).elems[i] == Serialize(elems[i])
  {
  }

  /** deserialize maps an array element by element: same length, same order. */
  lemma DeserializeArray(elems: seq<Value>, codec: Codec)
    requires WellFormed(Arr(elems))
    ensures Deserialize(Arr(elems), codec).Arr?
    ensures |Deserialize(Arr(elems), codec).elems| == |elems|
    ensures forall i | 0 <= i < |elems| :: Deserialize(Arr(elems), codec).elems[i] == Deserialize(elems[i], codec)
  {
  }

  /**
   * serialize rebuilds any object, plain or a class instance, as a plain
   * object with the same keys in the same order and each value serialized.
   */
  lemma SerializeObject(proto: Proto, entries: seq<Entry>)
    ensures Serialize(Obj(proto, entries)).Obj?
    ensures Serialize(Obj(proto, entries)).proto == PlainObject
    ensures Keys(Serialize(Obj(proto, entries)).entries) == Keys(entries)
    ensures forall i | 0 <= i < |entries| :: Serialize(Obj(proto, entries)).entries[i].val == Serialize(entries[i].val)
  {
    SerializableObjectCases(Obj(proto, entries));
  }

  /** deserialize rebuilds an object that is not a descriptor as a plain object, key by key. */
  lemma DeserializeObject(proto: Proto, entries: seq<Entry>, codec: Codec)
    requires !IsImageDescriptor(Obj(proto, entries)) && WellFormed(Obj(proto, entries))
    ensures Deserialize(Obj(proto, entries), codec).Obj?
    ensures Deserialize(Obj(proto, entries), codec).proto == PlainObject
    ensures Keys(Deserialize(Obj(proto, entries), codec).entries) == Keys(entries)
    ensures forall i | 0 <= i < |entries| ::
      Deserialize(Obj(proto, entries), codec).entries[i].val == Deserialize(entries[i].val, codec)
  {
    SerializableObjectCases(Obj(proto, entries));
  }

  /** A native image that reaches deserialize undescribed has no own entries, so it becomes `{}`. */
  lemma DeserializeUndescribedImage(image: seq<Representation>, codec: Codec)
    ensures WellFormed(Image(image))
    ensures Deserialize(Image(image), codec) == Obj(PlainObject, [])
  {
    SerializableObjectCases(Image(image));
  }

  // ---------------------------------------------------------------------
  // Property lookup through objectMap

  /** Two entry lists with the same keys find `key` at the same index, or both miss it. */
  lemma {:induction false} GetMapped(source: seq<Entry>, target: seq<Entry>, key: string) returns (i: int)
    requires Keys(target) == Keys(source)
    ensures -1 <= i < |source| && |target| == |source|
    ensures i == -1 ==> Get(source, key) == Undefined && Get(target, key) == Undefined
    ensures i >= 0 ==> Get(source, key) == source[i].val && Get(target, key) == target[i].val
  {
    if source == [] {
      i := -1;
    } else {
      assert source[0].key == Keys(source)[0] == Keys(target)[0] == target[0].key;
      if source[0].key == key {
        i := 0;
      } else {
        assert Keys(target[1..]) == Keys(source[1..]) by {
          assert Keys(source)[1..] == Keys(source[1..]);
          assert Keys(target)[1..] == Keys(target[1..]);
        }
        var j := GetMapped(source[1..], target[1..], key);
        i := if j == -1 then -1 else j + 1;
      }
    }
  }

  /** Entry lists agree when their keys and their values agree. */
  lemma EntriesEqual(a: seq<Entry>, b: seq<Entry>)
    requires Keys(a) == Keys(b)
    requires forall i | 0 <= i < |a| && i < |b| :: a[i].val == b[i].val
    ensures a == b
  {
    assert |a| == |Keys(a)| == |Keys(b)| == |b|;
    forall i | 0 <= i < |a| ensures a[i] == b[i] {
      assert a[i].key == Keys(a)[i] == Keys(b)[i] == b[i].key;
    }
  }

  /** serialize keeps JavaScript truthiness. */
  lemma SerializeTruthy(v: Value)
    ensures Truthy(Serialize(v)) == Truthy(v)
  {
    SerializableObjectCases(v);
  }

  /** Values with no truthy image tag on any object they contain. */
  predicate Untagged(v: Value)
  {
    match v
    case Arr(elems) => forall i | 0 <= i < |elems| :: Untagged(elems[i])
    case Obj(_, entries) =>
      !Truthy(Get(entries, ImageTag)) && forall i | 0 <= i < |entries| :: Untagged(entries[i].val)
    case _ => true
  }

  /** serialize produces a descriptor exactly from a native image or from an object already tagged. */
  lemma SerializeTag(v: Value)
    ensures IsImageDescriptor(Serialize(v)) <==> v.Image? || IsImageDescriptor(v)
  {
    SerializableObjectCases(v);
    if v.Obj? {
      var s := Serialize(v);
      var i := GetMapped(v.entries, s.entries, ImageTag);
      if i >= 0 {
        SerializeTruthy(v.entries[i].val);
      }
    }
  }

  // ---------------------------------------------------------------------
  // The descriptor

  lemma RepresentationFields(scaleFactor: real, size: Size, dataURL: string, buffer: Bytes)
    ensures Property(RepresentationValue(scaleFactor, size, dataURL, buffer), ScaleFactorKey) == Prim(Num(scaleFactor))
    ensures IsBufferRepresentation(RepresentationValue(scaleFactor, size, dataURL, buffer))
    ensures IsDataURLRepresentation(RepresentationValue(scaleFactor, size, dataURL, buffer))
    ensures BufferOptions(RepresentationValue(scaleFactor, size, dataURL, buffer))
         == RepresentationOptions(scaleFactor, size.width, size.height, FromBuffer(buffer))
    ensures DataURLOptions(RepresentationValue(scaleFactor, size, dataURL, buffer))
         == RepresentationOptions(scaleFactor, size.width, size.height, FromDataURL(dataURL))
  {
  }

  /** The representations list of a descriptor. */
  function DescriptorRepresentations(descriptor: Value): seq<Value>
    requires Property(descriptor, RepresentationsKey).Arr?
  {
    Property(descriptor, RepresentationsKey).elems
  }

  /**
   * serialize of an image: a descriptor whose tag is `true` and whose list has
   * one entry per scale factor, in getScaleFactors() order, each carrying the
   * size, dataURL and bitmap that the image's lookups give for that factor.
   */
  lemma ImageDescriptorShape(image: seq<Representation>)
    ensures Property(Serialize(Image(image)), ImageTag) == Prim(Bool(true))
    ensures Property(Serialize(Image(image)), RepresentationsKey).Arr?
    ensures |DescriptorRepresentations(Serialize(Image(image)))| == |image|
    ensures forall i | 0 <= i < |image| ::
      && HasScaleFactor(image, image[i].scaleFactor)
      && DescriptorRepresentations(Serialize(Image(image)))[i] == RepresentationValue(image[i].scaleFactor,
           GetSize(image, image[i].scaleFactor), ToDataURL(image, image[i].scaleFactor), ToBitmap(image, image[i].scaleFactor))
  {
    var sfs := GetScaleFactors(image);
    ScaleFactorsPresent(image);
    var reps := seq(|sfs|, i requires 0 <= i < |sfs| => DescribeAt(image, sfs[i]));
    assert Serialize(Image(image)) == DescriptorValue(reps);
  }

  /** With distinct scale factors, the i-th descriptor entry describes exactly the i-th representation. */
  lemma ImageDescriptorEntries(image: seq<Representation>)
    requires DistinctScaleFactors(image)
    ensures |DescriptorRepresentations(Serialize(Image(image)))| == |image|
    ensures forall i | 0 <= i < |image| ::
      DescriptorRepresentations(Serialize(Image(image)))[i]
        == RepresentationValue(image[i].scaleFactor, image[i].size, image[i].dataURL, image[i].bitmap)
  {
    ImageDescriptorShape(image);
    forall i | 0 <= i < |image|
      ensures DescriptorRepresentations(Serialize(Image(image)))[i]
        == RepresentationValue(image[i].scaleFactor, image[i].size, image[i].dataURL, image[i].bitmap)
    {
      FindScaleFactorDistinct(image, i);
    }
  }

  // ---------------------------------------------------------------------
  // The two rebuild paths


  /**
   * One representation: exactly one addRepresentation call, from that
   * entry's buffer, scaleFactor, width and height (its dataURL is not read).
   */
  lemma SingleRepresentationPath(descriptor: Value, codec: Codec)
    requires IsImageDescriptor(descriptor) && WellFormedDescriptor(descriptor)
    requires |DescriptorRepresentations(descriptor)| == 1
    ensures var rep := DescriptorRepresentations(descriptor)[0];
      var size := Property(rep, SizeKey);
      && IsBufferRepresentation(rep)
      && RebuildCalls(descriptor) == [RepresentationOptions(
           Property(rep, ScaleFactorKey).p.x,
           Property(size, WidthKey).p.x.Floor, Property(size, HeightKey).p.x.Floor,
           FromBuffer(Property(rep, BufferKey).contents))]
      && Deserialize(descriptor, codec) == Image([Representation(
           Property(rep, ScaleFactorKey).p.x,
           Size(Property(size, WidthKey).p.x.Floor, Property(size, HeightKey).p.x.Floor),
           codec.encode(Property(rep, BufferKey).contents),
           Property(rep, BufferKey).contents)])
  {
  }

  /**
   * Any other count: one addRepresentation call per entry, in list order,
   * each from that entry's dataURL, scaleFactor, width and height.
   */
  lemma ManyRepresentationsPath(descriptor: Value, codec: Codec)
    requires IsImageDescriptor(descriptor) && WellFormedDescriptor(descriptor)
    requires |DescriptorRepresentations(descriptor)| != 1
    ensures var reps := DescriptorRepresentations(descriptor);
      && |RebuildCalls(descriptor)| == |reps|
      && forall i | 0 <= i < |reps| ::
           && IsDataURLRepresentation(reps[i])
           && var size := Property(reps[i], SizeKey);
              RebuildCalls(descriptor)[i] == RepresentationOptions(
                Property(reps[i], ScaleFactorKey).p.x,
                Property(size, WidthKey).p.x.Floor, Property(size, HeightKey).p.x.Floor,
                FromDataURL(Property(reps[i], DataURLKey).p.s))
  {
  }

  /** A descriptor with an empty list rebuilds an empty image. */
  lemma EmptyDescriptor(descriptor: Value, codec: Codec)
    requires IsImageDescriptor(descriptor) && WellFormedDescriptor(descriptor)
    requires |DescriptorRepresentations(descriptor)| == 0
    ensures WellFormed(descriptor) && Deserialize(descriptor, codec) == Image([])
  {
  }

  /** The two loop methods compute the two image branches. */
  method SerializeNativeImageIsSerialize(image: seq<Representation>) returns (descriptor: Value)
    ensures descriptor == Serialize(Image(image))
  {
    descriptor := SerializeNativeImage(image);
  }

  method DeserializeNativeImageIsDeserialize(descriptor: Value, codec: Codec) returns (image: NativeImage)
    requires IsImageDescriptor(descriptor) && WellFormedDescriptor(descriptor)
    ensures fresh(image) && WellFormed(descriptor)
    ensures Image(image.representations) == Deserialize(descriptor, codec)
  {
    image := DeserializeNativeImage(descriptor, codec);
  }

  // ---------------------------------------------------------------------
  // Round trips

  /** serialize's descriptor of an image is one deserialize accepts. */
  lemma DescriptorAccepted(image: seq<Representation>)
    ensures IsImageDescriptor(Serialize(Image(image)))
    ensures WellFormed(Serialize(Image(image)))
    ensures Property(Serialize(Image(image)), RepresentationsKey).Arr?
    ensures |DescriptorRepresentations(Serialize(Image(image)))| == |image|
    ensures forall i | 0 <= i < |image| ::
      IsBufferRepresentation(DescriptorRepresentations(Serialize(Image(image)))[i]) && IsDataURLRepresentation(DescriptorRepresentations(Serialize(Image(image)))[i])
  {
    ImageDescriptorShape(image);
    var reps := DescriptorRepresentations(Serialize(Image(image)));
    forall i | 0 <= i < |image| ensures IsBufferRepresentation(reps[i]) && IsDataURLRepresentation(reps[i]) {
      var sf := image[i].scaleFactor;
      RepresentationFields(sf, GetSize(image, sf), ToDataURL(image, sf), ToBitmap(image, sf));
    }
  }

  /** The representations of deserialize(serialize(image)). */
  function RoundTripImage(image: seq<Representation>, codec: Codec): seq<Representation>
  {
    DescriptorAccepted(image);
    Deserialize(Serialize(Image(image)), codec).image
  }

  /** The addRepresentation calls deserialize makes for serialize's descriptor of `image`. */
  lemma DescribedCalls(image: seq<Representation>)
    ensures WellFormedDescriptor(Serialize(Image(image)))
    ensures |RebuildCalls(Serialize(Image(image)))| == |image|
    ensures forall i | 0 <= i < |image| :: HasScaleFactor(image, image[i].scaleFactor)
    ensures forall i | 0 <= i < |image| ::
      var sf := image[i].scaleFactor;
      RebuildCalls(Serialize(Image(image)))[i]
        == RepresentationOptions(sf, GetSize(image, sf).width, GetSize(image, sf).height,
             if |image| == 1 then FromBuffer(ToBitmap(image, sf)) else FromDataURL(ToDataURL(image, sf)))
  {
    ImageDescriptorShape(image);
    DescriptorAccepted(image);
    var reps := DescriptorRepresentations(Serialize(Image(image)));
    forall i | 0 <= i < |image|
      ensures var sf := image[i].scaleFactor;
        && BufferOptions(reps[i]) == RepresentationOptions(sf, GetSize(image, sf).width, GetSize(image, sf).height, FromBuffer(ToBitmap(image, sf)))
        && DataURLOptions(reps[i]) == RepresentationOptions(sf, GetSize(image, sf).width, GetSize(image, sf).height, FromDataURL(ToDataURL(image, sf)))
    {
      var sf := image[i].scaleFactor;
      RepresentationFields(sf, GetSize(image, sf), ToDataURL(image, sf), ToBitmap(image, sf));
    }
  }

  /**
   * The image deserialize rebuilds from serialize's descriptor: per entry,
   * the i-th scale factor with the size the lookups read for it, and the
   * bitmap (one representation) or the dataURL (any other count) that
   * serialize wrote, the other encoding coming from the codec.
   */
  lemma RebuiltImage(image: seq<Representation>, codec: Codec)
    ensures |RoundTripImage(image, codec)| == |image|
    ensures forall i | 0 <= i < |image| :: HasScaleFactor(image, image[i].scaleFactor)
    ensures forall i | 0 <= i < |image| ::
      && RoundTripImage(image, codec)[i].scaleFactor == image[i].scaleFactor
      && RoundTripImage(image, codec)[i].size == GetSize(image, image[i].scaleFactor)
    ensures |image| == 1 ==>
      && RoundTripImage(image, codec)[0].bitmap == ToBitmap(image, image[0].scaleFactor)
      && RoundTripImage(image, codec)[0].dataURL == codec.encode(RoundTripImage(image, codec)[0].bitmap)
    ensures |image| != 1 ==> forall i | 0 <= i < |image| ::
      && RoundTripImage(image, codec)[i].dataURL == ToDataURL(image, image[i].scaleFactor)
      && RoundTripImage(image, codec)[i].bitmap == codec.decode(RoundTripImage(image, codec)[i].dataURL)
  {
    DescribedCalls(image);
    RoundTripIsAfterCalls(image, codec);
    AfterDescribedCalls(image, RebuildCalls(Serialize(Image(image))), codec);
  }

  lemma RoundTripIsAfterCalls(image: seq<Representation>, codec: Codec)
    ensures WellFormedDescriptor(Serialize(Image(image)))
    ensures RoundTripImage(image, codec) == AfterCalls(RebuildCalls(Serialize(Image(image))), codec)
  {
    DescriptorAccepted(image);
  }

  /** The representations calls shaped like DescribedCalls' produce. */
  lemma AfterDescribedCalls(image: seq<Representation>, calls: seq<RepresentationOptions>, codec: Codec)
    requires |calls| == |image|
    requires forall i | 0 <= i < |image| :: HasScaleFactor(image, image[i].scaleFactor)
    requires forall i | 0 <= i < |image| ::
      var sf := image[i].scaleFactor;
      calls[i] == RepresentationOptions(sf, GetSize(image, sf).width, GetSize(image, sf).height,
        if |image| == 1 then FromBuffer(ToBitmap(image, sf)) else FromDataURL(ToDataURL(image, sf)))
    ensures var rebuilt := AfterCalls(calls, codec);
      && |rebuilt| == |image|
      && (forall i | 0 <= i < |image| ::
           && rebuilt[i].scaleFactor == image[i].scaleFactor
           && rebuilt[i].size == GetSize(image, image[i].scaleFactor))
      && (|image| == 1 ==>
           && rebuilt[0].bitmap == ToBitmap(image, image[0].scaleFactor)
           && rebuilt[0].dataURL == codec.encode(rebuilt[0].bitmap))
      && (|image| != 1 ==> forall i | 0 <= i < |image| ::
           && rebuilt[i].dataURL == ToDataURL(image, image[i].scaleFactor)
           && rebuilt[i].bitmap == codec.decode(rebuilt[i].dataURL))
  {
  }

  /** The rebuilt-image facts of RebuiltImage, for any `rebuilt` list. */
  predicate RebuiltFrom(image: seq<Representation>, rebuilt: seq<Representation>, codec: Codec)
  {
    && |rebuilt| == |image|
    && (forall i | 0 <= i < |image| :: HasScaleFactor(image, image[i].scaleFactor))
    && (forall i | 0 <= i < |image| ::
         && rebuilt[i].scaleFactor == image[i].scaleFactor
         && rebuilt[i].size == image[FindScaleFactor(image, image[i].scaleFactor)].size)
    && (|image| == 1 ==>
         && rebuilt[0].bitmap == image[FindScaleFactor(image, image[0].scaleFactor)].bitmap
         && rebuilt[0].dataURL == codec.encode(rebuilt[0].bitmap))
    && (|image| != 1 ==> forall i | 0 <= i < |image| ::
         && rebuilt[i].dataURL == image[FindScaleFactor(image, image[i].scaleFactor)].dataURL
         && rebuilt[i].bitmap == codec.decode(rebuilt[i].dataURL))
  }

  lemma RebuiltFromRoundTrip(image: seq<Representation>, codec: Codec)
    ensures RebuiltFrom(image, RoundTripImage(image, codec), codec)
  {
    RebuiltImage(image, codec);
  }

  lemma RebuiltFromFacts(image: seq<Representation>, rebuilt: seq<Representation>, codec: Codec)
    requires RebuiltFrom(image, rebuilt, codec)
    ensures GetScaleFactors(rebuilt) == GetScaleFactors(image)
    ensures DistinctScaleFactors(image) ==> forall i | 0 <= i < |image| :: rebuilt[i].size == image[i].size
    ensures |image| == 1 ==> rebuilt[0].bitmap == image[0].bitmap
    ensures DistinctScaleFactors(image) && |image| != 1 ==> forall i | 0 <= i < |image| ::
      rebuilt[i].dataURL == image[i].dataURL
    ensures RebuildsExactly(image, codec) ==> rebuilt == image
  {
    if DistinctScaleFactors(image) {
      forall i | 0 <= i < |image| ensures FindScaleFactor(image, image[i].scaleFactor) == i {
        FindScaleFactorDistinct(image, i);
      }
    }
    if |image| == 1 {
      assert FindScaleFactor(image, image[0].scaleFactor) == 0;
    }
  }

  /**
   * Round trip of an image: the same scale factors in the same order and,
   * when the scale factors are distinct, the same sizes; one representation
   * keeps its bitmap, any other count keeps every dataURL.
   */
  lemma ImageRoundTrip(image: seq<Representation>, codec: Codec)
    ensures WellFormed(Serialize(Image(image)))
    ensures GetScaleFactors(RoundTripImage(image, codec)) == GetScaleFactors(image)
    ensures DistinctScaleFactors(image) ==> forall i | 0 <= i < |image| ::
      RoundTripImage(image, codec)[i].size == image[i].size
    ensures |image| == 1 ==> RoundTripImage(image, codec)[0].bitmap == image[0].bitmap
    ensures DistinctScaleFactors(image) && |image| != 1 ==> forall i | 0 <= i < |image| ::
      RoundTripImage(image, codec)[i].dataURL == image[i].dataURL
  {
    DescriptorAccepted(image);
    RebuiltFromRoundTrip(image, codec);
    RebuiltFromFacts(image, RoundTripImage(image, codec), codec);
  }

  /**
   * What the round trip needs to give back the very same image: distinct
   * scale factors (the lookups read the first match), and a codec that
   * recomputes the encoding the chosen path drops: the dataURL from the
   * bitmap for one representation, the bitmap from the dataURL otherwise.
   */
  predicate RebuildsExactly(image: seq<Representation>, codec: Codec)
  {
    && DistinctScaleFactors(image)
    && if |image| == 1 then image[0].dataURL == codec.encode(image[0].bitmap)
       else forall i | 0 <= i < |image| :: image[i].bitmap == codec.decode(image[i].dataURL)
  }

  /** Every native image in `v` rebuilds exactly. */
  predicate ImagesRebuild(v: Value, codec: Codec)
  {
    match v
    case Image(image) => RebuildsExactly(image, codec)
    case Arr(elems) => forall i | 0 <= i < |elems| :: ImagesRebuild(elems[i], codec)
    case Obj(_, entries) => forall i | 0 <= i < |entries| :: ImagesRebuild(entries[i].val, codec)
    case _ => true
  }

  /** `v` with every class instance replaced by a plain object with the same entries. */
  function PlainCopy(v: Value): Value
  {
    match v
    case Arr(elems) => Arr(seq(|elems|, i requires 0 <= i < |elems| => PlainCopy(elems[i])))
    case Obj(_, entries) =>
      Obj(PlainObject, seq(|entries|, i requires 0 <= i < |entries| => Entry(entries[i].key, PlainCopy(entries[i].val))))
    case _ => v
  }

  /** No class instance anywhere in `v`. */
  predicate OnlyPlainObjects(v: Value)
  {
    match v
    case Arr(elems) => forall i | 0 <= i < |elems| :: OnlyPlainObjects(elems[i])
    case Obj(proto, entries) => proto == PlainObject && forall i | 0 <= i < |entries| :: OnlyPlainObjects(entries[i].val)
    case _ => true
  }

  lemma ImageRoundTripExact(image: seq<Representation>, codec: Codec)
    requires RebuildsExactly(image, codec)
    ensures WellFormed(Serialize(Image(image)))
    ensures Deserialize(Serialize(Image(image)), codec) == Image(image)
  {
    DescriptorAccepted(image);
    RebuiltFromRoundTrip(image, codec);
    RebuiltFromFacts(image, RoundTripImage(image, codec), codec);
  }

  /**
   * The round trip: on a finite tree with no truthy image tag, deserialize
   * after serialize gives the tree back with its class instances turned into
   * plain objects, provided every image rebuilds exactly (`ImagesRebuild`).
   */
  lemma {:induction false} RoundTrip(v: Value, codec: Codec)
    requires Untagged(v) && ImagesRebuild(v, codec)
    ensures WellFormed(Serialize(v))
    ensures Deserialize(Serialize(v), codec) == PlainCopy(v)
    decreases v
  {
    match v
    case Image(image) =>
      ImageRoundTripExact(image, codec);
    case Arr(elems) =>
      forall i | 0 <= i < |elems|
        ensures WellFormed(Serialize(elems[i])) && Deserialize(Serialize(elems[i]), codec) == PlainCopy(elems[i])
      {
        RoundTrip(elems[i], codec);
      }
      RoundTripArrayStep(elems, codec);
    case Obj(proto, entries) =>
      forall i | 0 <= i < |entries|
        ensures WellFormed(Serialize(entries[i].val)) && Deserialize(Serialize(entries[i].val), codec) == PlainCopy(entries[i].val)
      {
        RoundTrip(entries[i].val, codec);
      }
      RoundTripObjectStep(proto, entries, codec);
    case _ =>
      SerializableObjectCases(v);
  }

  /** The array step of RoundTrip: elementwise round trips give the array's round trip. */
  lemma RoundTripArrayStep(elems: seq<Value>, codec: Codec)
    requires forall i | 0 <= i < |elems| ::
      WellFormed(Serialize(elems[i])) && Deserialize(Serialize(elems[i]), codec) == PlainCopy(elems[i])
    ensures WellFormed(Serialize(Arr(elems)))
    ensures Deserialize(Serialize(Arr(elems)), codec) == PlainCopy(Arr(elems))
  {
    var s := Serialize(Arr(elems));
    assert WellFormed(s);
    assert Deserialize(s, codec).elems == PlainCopy(Arr(elems)).elems;
  }

  /** The object step of RoundTrip: entrywise round trips give the object's round trip. */
  lemma RoundTripObjectStep(proto: Proto, entries: seq<Entry>, codec: Codec)
    requires Untagged(Obj(proto, entries))
    requires forall i | 0 <= i < |entries| ::
      WellFormed(Serialize(entries[i].val)) && Deserialize(Serialize(entries[i].val), codec) == PlainCopy(entries[i].val)
    ensures WellFormed(Serialize(Obj(proto, entries)))
    ensures Deserialize(Serialize(Obj(proto, entries)), codec) == PlainCopy(Obj(proto, entries))
  {
    var v := Obj(proto, entries);
    var s := Serialize(v);
    SerializeObject(proto, entries);
    SerializeTag(v);
    assert WellFormed(s);
    DeserializeObject(s.proto, s.entries, codec);
    EntriesEqual(Deserialize(s, codec).entries, PlainCopy(v).entries);
  }

  /** On plain trees the round trip is the identity. */
  lemma {:induction false} RoundTripPlain(v: Value, codec: Codec)
    requires Untagged(v) && ImagesRebuild(v, codec) && OnlyPlainObjects(v)
    ensures WellFormed(Serialize(v))
    ensures Deserialize(Serialize(v), codec) == v
  {
    RoundTrip(v, codec);
    PlainCopyOfPlain(v);
  }

  lemma {:induction false} PlainCopyOfPlain(v: Value)
    requires OnlyPlainObjects(v)
    ensures PlainCopy(v) == v
    decreases v
  {
    match v
    case Arr(elems) =>
      forall i | 0 <= i < |elems| ensures PlainCopy(elems[i]) == elems[i] {
        PlainCopyOfPlain(elems[i]);
      }
    case Obj(proto, entries) =>
      forall i | 0 <= i < |entries| ensures PlainCopy(entries[i].val) == entries[i].val {
        PlainCopyOfPlain(entries[i].val);
      }
      EntriesEqual(PlainCopy(v).entries, entries);
    case _ =>
  }

  /** serialize leaves a transport-safe value unchanged ... */
  lemma {:induction false} SerializeTransportSafeFixed(v: Value)
    requires IsTransportSafe(v)
    ensures Serialize(v) == v
    decreases v
  {
    SerializableObjectCases(v);
    match v
    case Arr(elems) =>
      forall i | 0 <= i < |elems| ensures Serialize(elems[i]) == elems[i] {
        SerializeTransportSafeFixed(elems[i]);
      }
    case Obj(proto, entries) =>
      forall i | 0 <= i < |entries| ensures Serialize(entries[i].val) == entries[i].val {
        SerializeTransportSafeFixed(entries[i].val);
      }
      SerializeObject(proto, entries);
      EntriesEqual(Serialize(v).entries, entries);
    case _ =>
  }

  /** ... so serialize is idempotent. */
  lemma SerializeIdempotent(v: Value)
    ensures Serialize(Serialize(v)) == Serialize(v)
  {
    SerializeTransportSafeFixed(Serialize(v));
  }
}
