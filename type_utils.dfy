/**
 * The marshalling pair of lib/common/type-utils.ts: a leaf classifier, an
 * ordered entry map, and serialize / deserialize, which turn native images
 * into tagged descriptors and back and recurse through arrays and objects.
 */
module TypeUtils {
  import opened NativeImages
  import opened Values

  /** The constructors whose instances structured clone carries unchanged, in source order. */
  const SerializableTypes: seq<Builtin> :=
    [BooleanType, NumberType, StringType, DateType, ErrorType, RegExpType, ArrayBufferType]

  /** `ArrayBuffer.isView(value)` */
  predicate IsArrayBufferView(v: Value)
  {
    v.Safe? && v.kind == View
  }

  /** `value instanceof type` for a built-in constructor (subclass instances included). */
  predicate IsInstanceOf(v: Value, t: Builtin)
  {
    v.Safe? && v.kind == InstanceOf(t)
  }

  /** serializableTypes.some(type => value instanceof type) */
  predicate IsInstanceOfSome(v: Value, types: seq<Builtin>)
  {
    exists t | t in types :: IsInstanceOf(v, t)
  }

  /** isSerializableObject: null, an ArrayBuffer view, or an instance of a safe built-in. */
  predicate IsSerializableObject(v: Value)
    ensures IsSerializableObject(v) ==> v.Null? || v.Safe?
  {
    v.Null? || IsArrayBufferView(v) || IsInstanceOfSome(v, SerializableTypes)
  }

  /** The own enumerable entries of an object (`Object.entries`); a native image has none. */
  function OwnEntries(v: Value): seq<Entry>
  {
    if v.Obj? then v.entries else []
  }

  /** objectMap: the same keys in the same order, each value replaced by `mapper` of it. */
  function ObjectMap(source: seq<Entry>, mapper: Value --> Value): (r: seq<Entry>)
    requires forall e | e in source :: mapper.requires(e.val)
    ensures |r| == |source|
    ensures Keys(r) == Keys(source)
    ensures forall i | 0 <= i < |source| :: r[i].val == mapper(source[i].val)
  {
    if source == [] then []
    else [Entry(source[0].key, mapper(source[0].val))] + ObjectMap(source[1..], mapper)
  }

  // The wire form of a native image.

  const ImageTag := "__ELECTRON_SERIALIZED_NativeImage__"
  const RepresentationsKey := "representations"
  const ScaleFactorKey := "scaleFactor"
  const SizeKey := "size"
  const WidthKey := "width"
  const HeightKey := "height"
  const DataURLKey := "dataURL"
  const BufferKey := "buffer"

  /** The `{ width, height }` object getSize returns. */
  function SizeValue(size: Size): (r: Value)
    ensures Property(r, WidthKey) == NumberValue(size.width)
    ensures Property(r, HeightKey) == NumberValue(size.height)
  {
    var entries := [Entry(WidthKey, NumberValue(size.width)), Entry(HeightKey, NumberValue(size.height))];
    assert entries[1..] == [entries[1]];
    assert Get(entries, WidthKey) == entries[0].val;
    assert Get(entries[1..], HeightKey) == entries[1].val;
    Obj(PlainObject, entries)
  }

  /** The `{ scaleFactor, size, dataURL, buffer }` object pushed for one scale factor. */
  function RepresentationValue(scaleFactor: real, size: Size, dataURL: string, buffer: Bytes): (r: Value)
    ensures IsTransportSafe(r)
    ensures Property(r, ScaleFactorKey) == Prim(Num(scaleFactor))
    ensures Property(r, SizeKey) == SizeValue(size)
    ensures Property(r, DataURLKey) == Prim(Str(dataURL))
    ensures Property(r, BufferKey) == Safe(View, buffer)
  {
    var entries := [
      Entry(ScaleFactorKey, Prim(Num(scaleFactor))),
      Entry(SizeKey, SizeValue(size)),
      Entry(DataURLKey, Prim(Str(dataURL))),
      Entry(BufferKey, Safe(View, buffer))
    ];
    assert entries[1..][1..] == entries[2..];
    assert entries[2..][1..] == [entries[3]];
    assert Get(entries, ScaleFactorKey) == entries[0].val;
    assert Get(entries[1..], SizeKey) == entries[1].val;
    assert Get(entries[2..], DataURLKey) == entries[2].val;
    assert Get(entries[2..][1..], BufferKey) == entries[3].val;
    assert Get(entries[1..], DataURLKey) == Get(entries[2..], DataURLKey);
    assert Get(entries[1..], BufferKey) == Get(entries[2..], BufferKey) == Get(entries[2..][1..], BufferKey);
    Obj(PlainObject, entries)
  }

  /** `{ __ELECTRON_SERIALIZED_NativeImage__: true, representations }` */
  function DescriptorValue(representations: seq<Value>): (r: Value)
    ensures (forall i | 0 <= i < |representations| :: IsTransportSafe(representations[i])) ==> IsTransportSafe(r)
    ensures Property(r, ImageTag) == Prim(Bool(true))
    ensures Property(r, RepresentationsKey) == Arr(representations)
  {
    var entries := [Entry(ImageTag, Prim(Bool(true))), Entry(RepresentationsKey, Arr(representations))];
    assert entries[1..] == [entries[1]];
    assert Get(entries, ImageTag) == entries[0].val;
    assert Get(entries[1..], RepresentationsKey) == entries[1].val;
    Obj(PlainObject, entries)
  }

  /** What the loop body of serialize's image branch pushes for `scaleFactor`. */
  function DescribeAt(image: seq<Representation>, scaleFactor: real): Value
    requires HasScaleFactor(image, scaleFactor)
  {
    RepresentationValue(scaleFactor, GetSize(image, scaleFactor), ToDataURL(image, scaleFactor), ToBitmap(image, scaleFactor))
  }

  lemma ScaleFactorsPresent(image: seq<Representation>)
    ensures forall i | 0 <= i < |image| :: HasScaleFactor(image, GetScaleFactors(image)[i])
  {
    forall i | 0 <= i < |image| ensures HasScaleFactor(image, GetScaleFactors(image)[i]) {
      assert image[i].scaleFactor == GetScaleFactors(image)[i];
    }
  }

  /** The descriptor serialize emits for a native image. */
  function ImageDescriptor(image: seq<Representation>): (d: Value)
    ensures IsTransportSafe(d)
    ensures Property(d, ImageTag) == Prim(Bool(true))
    ensures Property(d, RepresentationsKey).Arr? && |Property(d, RepresentationsKey).elems| == |image|
  {
    var scaleFactors := GetScaleFactors(image);
    ScaleFactorsPresent(image);
    DescriptorValue(seq(|scaleFactors|, i requires 0 <= i < |scaleFactors| => DescribeAt(image, scaleFactors[i])))
  }

  /** The image branch of serialize: one entry per scale factor, pushed in getScaleFactors() order. */
  method SerializeNativeImage(image: seq<Representation>) returns (descriptor: Value)
    ensures descriptor == ImageDescriptor(image)
  {
    var representations: seq<Value> := [];
    var scaleFactors := GetScaleFactors(image);
    ScaleFactorsPresent(image);
    for k := 0 to |scaleFactors|
      invariant |representations| == k
      invariant forall j | 0 <= j < k :: representations[j] == DescribeAt(image, scaleFactors[j])
    {
      var scaleFactor := scaleFactors[k];
      var size := GetSize(image, scaleFactor);
      var dataURL := ToDataURL(image, scaleFactor);
      var buffer := ToBitmap(image, scaleFactor);
      representations := representations + [RepresentationValue(scaleFactor, size, dataURL, buffer)];
    }
    assert representations == seq(|scaleFactors|, i requires 0 <= i < |scaleFactors| => DescribeAt(image, scaleFactors[i]));
    descriptor := DescriptorValue(representations);
  }

  /** No native image and no class instance anywhere: what serialize hands to the transport. */
  predicate IsTransportSafe(v: Value)
  {
    match v
    case Image(_) => false
    case Arr(elems) => forall i | 0 <= i < |elems| :: IsTransportSafe(elems[i])
    case Obj(proto, entries) => proto == PlainObject && forall i | 0 <= i < |entries| :: IsTransportSafe(entries[i].val)
    case _ => true
  }

  /** serialize */
  function Serialize(v: Value): (r: Value)
    ensures IsTransportSafe(r)
  {
    if v.Image? then ImageDescriptor(v.image)
    else if v.Arr? then Arr(seq(|v.elems|, i requires 0 <= i < |v.elems| => Serialize(v.elems[i])))
    else if IsSerializableObject(v) then v
    else if IsObject(v) then
      Obj(PlainObject, ObjectMap(OwnEntries(v), x requires exists e :: e in OwnEntries(v) && e.val == x => Serialize(x)))
    else v
  }

  /** `value && value.__ELECTRON_SERIALIZED_NativeImage__` */
  predicate IsImageDescriptor(v: Value)
    ensures IsImageDescriptor(v) ==> v.Obj?
  {
    Truthy(v) && Truthy(Property(v, ImageTag))
  }

  /** The fields both rebuild paths read from a representation: scaleFactor and size.{width,height}. */
  predicate HasScaleAndSize(rep: Value)
  {
    var scaleFactor := Property(rep, ScaleFactorKey);
    var size := Property(rep, SizeKey);
    scaleFactor.Prim? && scaleFactor.p.Num? && size.Obj?
    && IsInteger(Property(size, WidthKey)) && IsInteger(Property(size, HeightKey))
  }

  predicate IsBufferRepresentation(rep: Value)
  {
    HasScaleAndSize(rep) && IsArrayBufferView(Property(rep, BufferKey))
  }

  predicate IsDataURLRepresentation(rep: Value)
  {
    var dataURL := Property(rep, DataURLKey);
    HasScaleAndSize(rep) && dataURL.Prim? && dataURL.p.Str?
  }

  /**
   * A descriptor deserialize can destructure: its representations form an
   * array, and each entry has the fields the chosen path reads.
   */
  predicate WellFormedDescriptor(v: Value)
  {
    var reps := Property(v, RepresentationsKey);
    reps.Arr?
    && if |reps.elems| == 1 then IsBufferRepresentation(reps.elems[0])
       else forall i | 0 <= i < |reps.elems| :: IsDataURLRepresentation(reps.elems[i])
  }

  function BufferOptions(rep: Value): RepresentationOptions
    requires IsBufferRepresentation(rep)
  {
    var size := Property(rep, SizeKey);
    RepresentationOptions(Property(rep, ScaleFactorKey).p.x,
                          Property(size, WidthKey).p.x.Floor, Property(size, HeightKey).p.x.Floor,
                          FromBuffer(Property(rep, BufferKey).contents))
  }

  function DataURLOptions(rep: Value): RepresentationOptions
    requires IsDataURLRepresentation(rep)
  {
    var size := Property(rep, SizeKey);
    RepresentationOptions(Property(rep, ScaleFactorKey).p.x,
                          Property(size, WidthKey).p.x.Floor, Property(size, HeightKey).p.x.Floor,
                          FromDataURL(Property(rep, DataURLKey).p.s))
  }

  /** The addRepresentation calls the image branch of deserialize makes, in order. */
  function RebuildCalls(descriptor: Value): (r: seq<RepresentationOptions>)
    requires WellFormedDescriptor(descriptor)
    ensures |r| == |Property(descriptor, RepresentationsKey).elems|
    ensures forall i | 0 <= i < |r| :: r[i].source.FromBuffer? <==> |r| == 1
  {
    var reps := Property(descriptor, RepresentationsKey).elems;
    if |reps| == 1 then [BufferOptions(reps[0])]
    else seq(|reps|, i requires 0 <= i < |reps| => DataURLOptions(reps[i]))
  }

  /** The image branch of deserialize: an empty image, then the buffer path or the dataURL path. */
  method DeserializeNativeImage(descriptor: Value, codec: Codec) returns (image: NativeImage)
    requires WellFormedDescriptor(descriptor)
    ensures fresh(image) && image.Valid() && image.codec == codec
    ensures image.calls == RebuildCalls(descriptor)
  {
    image := new NativeImage.CreateEmpty(codec);
    var reps := Property(descriptor, RepresentationsKey).elems;
    if |reps| == 1 {
      var buffer, size, scaleFactor := Property(reps[0], BufferKey), Property(reps[0], SizeKey), Property(reps[0], ScaleFactorKey);
      var width, height := Property(size, WidthKey), Property(size, HeightKey);
      image.AddRepresentation(RepresentationOptions(scaleFactor.p.x, width.p.x.Floor, height.p.x.Floor, FromBuffer(buffer.contents)));
    } else {
      for k := 0 to |reps|
        invariant image.Valid() && image.codec == codec
        invariant |image.calls| == k
        invariant forall j | 0 <= j < k :: image.calls[j] == DataURLOptions(reps[j])
      {
        var rep := reps[k];
        var dataURL, size, scaleFactor := Property(rep, DataURLKey), Property(rep, SizeKey), Property(rep, ScaleFactorKey);
        var width, height := Property(size, WidthKey), Property(size, HeightKey);
        image.AddRepresentation(RepresentationOptions(scaleFactor.p.x, width.p.x.Floor, height.p.x.Floor, FromDataURL(dataURL.p.s)));
      }
    }
  }

  /** Every descriptor in `v` (at any depth deserialize reaches) is well formed. */
  predicate WellFormed(v: Value)
  {
    if IsImageDescriptor(v) then WellFormedDescriptor(v)
    else match v
      case Arr(elems) => forall i | 0 <= i < |elems| :: WellFormed(elems[i])
      case Obj(_, entries) => forall i | 0 <= i < |entries| :: WellFormed(entries[i].val)
      case _ => true
  }

  /** deserialize */
  function Deserialize(v: Value, codec: Codec): (r: Value)
    requires WellFormed(v)
    ensures r.Image? <==> IsImageDescriptor(v)
    ensures r.Obj? ==> r.proto == PlainObject
    ensures Truthy(r) == Truthy(v)
  {
    if IsImageDescriptor(v) then Image(AfterCalls(RebuildCalls(v), codec))
    else if v.Arr? then Arr(seq(|v.elems|, i requires 0 <= i < |v.elems| => Deserialize(v.elems[i], codec)))
    else if IsSerializableObject(v) then v
    else if IsObject(v) then
      Obj(PlainObject, ObjectMap(OwnEntries(v), x requires exists e :: e in OwnEntries(v) && e.val == x => Deserialize(x, codec)))
    else v
  }
}
