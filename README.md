# Electron value marshalling (`lib/common/type-utils.ts`) in Dafny

This project models the part of Electron that prepares values to cross a
process boundary, and proves properties of that model. `serialize` rewrites
a value for structured clone: it replaces native images and class
instances, which structured clone would not carry as they are. `deserialize` rebuilds the
value on the other side. The classifier `isSerializableObject` decides which
leaf values pass through untouched. A native image, which structured clone
cannot carry, is turned into a tagged descriptor object with one entry per
scale factor. `deserialize` turns that descriptor back into an image. It uses
the raw bitmap when there is exactly one representation, and the PNG data
URLs otherwise.

Files:

- `native_image.dfy`, module `NativeImages`: the native image as the code
  uses it. On the read side an image is a sequence of representations
  `(scaleFactor, size, dataURL, bitmap)`, and `getScaleFactors`, `getSize`,
  `toDataURL` and `toBitmap` are lookups into that sequence. On the build
  side, class `NativeImage` has `CreateEmpty` and `AddRepresentation`, which
  appends one representation and logs its argument in a ghost `calls` field.
- `values.dfy`, module `Values`: JavaScript values as finite trees. They are
  undefined, null, primitives, leaf objects (instances of the built-ins, or
  ArrayBuffer views), arrays, objects, and native images. An object is its
  prototype kind (plain or class instance) plus its own enumerable entries,
  in the order `Object.entries` lists them (integer-like keys first, in
  ascending order, then the other keys in insertion order). The model takes
  that list as given. The module also gives truthiness and property lookup.
- `type_utils.dfy`, module `TypeUtils`: the classifier, `ObjectMap`,
  `Serialize` and `Deserialize` as functions. The two image branches, which
  the source writes as loops, are also methods: `SerializeNativeImage` pushes
  descriptor entries, and `DeserializeNativeImage` calls `AddRepresentation`
  on a fresh image. Each method is proved equal to the function that
  specifies it.
- `type_utils_properties.dfy`, module `TypeUtilsProperties`: the lemmas.

Modelling choices:

- Objects are plain or class instances, both of which are `instanceof
  Object`. `serialize` and `deserialize` both rebuild every such object as a
  plain object, because JavaScript's `Object.fromEntries` drops the
  prototype. So on an untagged tree (no object with a truthy
  `__ELECTRON_SERIALIZED_NativeImage__` key) whose images rebuild exactly,
  the round trip returns `PlainCopy(v)`, which equals `v` on trees of plain
  objects. An untagged tree is needed: a plain object that already carries a
  truthy tag is rebuilt as an image at line 59. Objects that are not `instanceof Object` (null
  prototype, another realm) are not modelled; the source returns them
  unchanged (lines 53-54 and 84-85), see "## Left out".
- The native PNG codec is a parameter, `Codec(encode, decode)`. It is used
  when `addRepresentation` fills in the encoding it was not given: a data URL
  from a bitmap, or a bitmap from a data URL. The round trip returns the very
  same image when the image's scale factors are distinct and its encodings
  agree with that codec (`RebuildsExactly`). Distinct factors are needed
  because `getSize` and the other lookups read the first representation with
  a factor (line 41), so a later representation with the same factor is lost.
- `deserialize` requires every descriptor it reaches to be well formed:
  `representations` is an array, and each entry has the fields that the
  chosen path reads, with a numeric `scaleFactor`, an object `size` with
  integral `width` and `height`, and an ArrayBuffer view `buffer` (one
  entry) or a string `dataURL` (any other count). This excludes two kinds
  of input. The source throws on some of them: a null or undefined
  `representations` (line 65), a non-iterable one (line 71), a null or
  undefined entry (lines 66 and 72), a non-empty string `representations`,
  whose characters have no `size` (lines 67 and 73), and a null or
  undefined `size` (lines 67 and 73). The others it passes to
  `addRepresentation` unchecked, as `undefined` or ill-typed fields, and
  what the native side then does is not part of this model. One more is the
  empty string as `representations`: its length is 0, so the loop at line 71
  does nothing and the source returns an empty image.
- A native image that reaches `deserialize` without having been serialized is
  not a descriptor. It falls through to the object branch. It has no own
  enumerable entries, so it becomes `{}`.
- The comment at lines 62-64 contrasts one representation with several. The
  code takes the data-URL path for every count other than one, including
  zero, so an image with no scale factors serializes to an empty list and
  deserializes to an empty image (`EmptyDescriptor`).

## Model

| member | source | states |
|---|---|---|
| `TypeUtilsProperties.SerializableObjectCases` | lib/common/type-utils.ts:16-29 | isSerializableObject holds exactly of null and of leaf objects (every listed built-in and every ArrayBuffer view), whatever their contents; it holds of no primitive, array, object or image |
| `TypeUtils.IsSerializableObject` | lib/common/type-utils.ts:27-28 | the classifier holds only of null and of leaf objects; `SerializableObjectCases` gives the converse |
| `TypeUtils.ObjectMap` | lib/common/type-utils.ts:31-35 | the result has the same length and the same keys in the same order as the source, and the i-th value is the mapper applied to the i-th source value |
| `TypeUtils.Serialize` | lib/common/type-utils.ts:37-56 | the result holds no native image and no class instance anywhere (primitives such as symbols pass through unchanged, whether or not the transport accepts them) |
| `TypeUtils.ImageDescriptor` | lib/common/type-utils.ts:38-46 | the descriptor's tag is `true`, its `representations` is an array with one entry per representation, and it is transport safe |
| `TypeUtils.SerializeNativeImage` | lib/common/type-utils.ts:38-46 | the push loop over getScaleFactors() builds exactly the descriptor `ImageDescriptor` specifies |
| `TypeUtilsProperties.SerializeNativeImageIsSerialize` | lib/common/type-utils.ts:37-46 | the push loop gives the same result as serialize applied to the image |
| `TypeUtilsProperties.ImageDescriptorShape` | lib/common/type-utils.ts:39-46 | the i-th descriptor entry belongs to the i-th scale factor (in getScaleFactors() order), and carries getSize, toDataURL and toBitmap at that factor |
| `TypeUtilsProperties.ImageDescriptorEntries` | lib/common/type-utils.ts:40-44 | with distinct scale factors, the i-th entry carries exactly the i-th representation's scale factor, size, dataURL and bitmap |
| `NativeImages.GetScaleFactors` | lib/common/type-utils.ts:40 | getScaleFactors lists each representation's scale factor, in order |
| `NativeImages.FindScaleFactor` | lib/common/type-utils.ts:41-43 | a lookup at a scale factor reads the first representation with that factor |
| `NativeImages.GetSize` | lib/common/type-utils.ts:41 | getSize at a factor is the size of the first representation with that factor |
| `NativeImages.ToDataURL` | lib/common/type-utils.ts:42 | toDataURL at a factor is the data URL of the first representation with that factor |
| `NativeImages.ToBitmap` | lib/common/type-utils.ts:43 | toBitmap at a factor is the bitmap of the first representation with that factor |
| `NativeImages.FindScaleFactorDistinct` | lib/common/type-utils.ts:41-43 | with distinct scale factors, a lookup at the i-th factor reads the i-th representation |
| `TypeUtilsProperties.SerializeLeaf` | lib/common/type-utils.ts:49-55 | serialize returns primitives, undefined, null and leaf objects unchanged |
| `TypeUtilsProperties.SerializeArray` | lib/common/type-utils.ts:47-48 | serialize of an array is an array of the same length whose i-th element is serialize of the i-th element |
| `TypeUtilsProperties.SerializeObject` | lib/common/type-utils.ts:51-52 | serialize of any object, plain or class instance, is a plain object with the same keys in the same order and each value serialized |
| `TypeUtilsProperties.SerializeTag` | lib/common/type-utils.ts:37-59 | serialize's output passes deserialize's tag test if and only if the input was a native image or an object that already had a truthy tag |
| `TypeUtilsProperties.SerializeTransportSafeFixed` | lib/common/type-utils.ts:47-52 | serialize leaves a value unchanged when it already holds no image and no class instance |
| `TypeUtilsProperties.SerializeIdempotent` | lib/common/type-utils.ts:37-56 | serializing twice gives the same result as serializing once |
| `TypeUtils.Deserialize` | lib/common/type-utils.ts:58-87 | deserialize returns a native image exactly when its input passes the tag test; any object it returns is a plain object; it keeps truthiness |
| `TypeUtils.IsImageDescriptor` | lib/common/type-utils.ts:59 | the tag test passes only for objects; arrays, primitives, leaf objects and native images never pass it |
| `TypeUtilsProperties.DeserializeLeaf` | lib/common/type-utils.ts:80-86 | deserialize returns primitives, undefined, null and leaf objects unchanged |
| `TypeUtilsProperties.DeserializeArray` | lib/common/type-utils.ts:78-79 | deserialize of an array is an array of the same length whose i-th element is deserialize of the i-th element |
| `TypeUtilsProperties.DeserializeObject` | lib/common/type-utils.ts:82-83 | deserialize of an object that is not a descriptor is a plain object with the same keys in the same order and each value deserialized |
| `TypeUtilsProperties.DeserializeUndescribedImage` | lib/common/type-utils.ts:82-83 | a native image given to deserialize directly becomes an empty plain object |
| `TypeUtils.RebuildCalls` | lib/common/type-utils.ts:60-76 | the image branch makes one addRepresentation call per descriptor entry, from a buffer exactly when the list has one entry and from a dataURL otherwise |
| `TypeUtils.DeserializeNativeImage` | lib/common/type-utils.ts:60-77 | starting from createEmpty(), the method makes exactly the addRepresentation calls of `RebuildCalls` in order, and the image holds one representation per call |
| `TypeUtilsProperties.DeserializeNativeImageIsDeserialize` | lib/common/type-utils.ts:58-77 | the image the method builds is the one deserialize returns for the descriptor |
| `NativeImages.NativeImage.CreateEmpty` | lib/common/type-utils.ts:60 | a new image has no representations and no calls |
| `NativeImages.NativeImage.AddRepresentation` | lib/common/type-utils.ts:68 | appends exactly one representation, built from the options, and logs the call |
| `NativeImages.Added` | lib/common/type-utils.ts:68 | the model's assumption about the native addRepresentation call, not a proved property of the source: the representation it adds has the given scale factor and size, keeps the encoding it was given, and takes the other from the codec |
| `NativeImages.AfterCalls` | lib/common/type-utils.ts:60-76 | after createEmpty and a sequence of calls, the image holds one representation per call, in call order, each the one that call adds |
| `TypeUtilsProperties.SingleRepresentationPath` | lib/common/type-utils.ts:65-68 | with exactly one entry, a single addRepresentation call is made, from that entry's buffer, scaleFactor, width and height and not its dataURL; the image holds that bitmap |
| `TypeUtilsProperties.ManyRepresentationsPath` | lib/common/type-utils.ts:69-76 | with any other count, one addRepresentation call is made per entry, in list order, each from that entry's dataURL, scaleFactor, width and height |
| `TypeUtilsProperties.EmptyDescriptor` | lib/common/type-utils.ts:69-77 | a descriptor with no entries rebuilds an empty image |
| `TypeUtilsProperties.DescriptorAccepted` | lib/common/type-utils.ts:46-66 | serialize's descriptor of any image passes deserialize's tag test and is well formed; every entry has the fields of both rebuild paths, so either path could read it |
| `TypeUtilsProperties.DescribedCalls` | lib/common/type-utils.ts:37-76 | for serialize's descriptor of an image, the i-th call carries the i-th scale factor, its size, and its bitmap (one representation) or its dataURL (any other count) |
| `TypeUtilsProperties.RebuiltImage` | lib/common/type-utils.ts:37-77 | deserialize(serialize(image)) has one representation per scale factor; each has that factor and its size; with one representation it keeps the bitmap, and otherwise it keeps each dataURL; the other encoding comes from the codec |
| `TypeUtilsProperties.ImageRoundTrip` | lib/common/type-utils.ts:37-77 | the image round trip keeps the scale factors in order; with distinct factors it keeps every size; with one representation it keeps the bitmap; with distinct factors and any other count it keeps every dataURL |
| `TypeUtilsProperties.ImageRoundTripExact` | lib/common/type-utils.ts:37-77 | when the image's scale factors are distinct and its encodings agree with the codec, the round trip gives back the very same image |
| `TypeUtilsProperties.RoundTrip` | lib/common/type-utils.ts:37-87 | on a finite tree with no truthy image tag, deserialize(serialize(v)) is well defined and equals v with class instances turned into plain objects, provided every image rebuilds exactly |
| `TypeUtilsProperties.RoundTripPlain` | lib/common/type-utils.ts:37-87 | on untagged trees of plain objects whose images rebuild exactly, the round trip is the identity |

## Left out

- `isPromise` (lines 3-14) is left out. It is duck-typed promise detection and plays no part in marshalling.
- The native binding (line 1) is not part of this model. Its PNG encoding and decoding are the `Codec` parameter.
- AddRepresentation records the width and height it is given. The model does not say what the native side does when those disagree with the size of the decoded data URL.
- A scale factor that `addRepresentation` would default to 1.0 when missing is treated as malformed (`WellFormed` requires a number). Fractional widths and heights are treated the same way.
- Lookups at a scale factor the image lacks (the native side picks the closest one) are not modelled. The code only looks up factors that `getScaleFactors()` reported.
- Object identity (`===`) is not modelled. The lemmas state equality of values.
- Aliasing and cycles are not modelled. Values are finite trees, on which the recursion always terminates.
- Holes in sparse arrays are not modelled. `value.map` at lines 48 and 79 keeps them, but `Arr(seq<Value>)` has a value at every index.
- JavaScript object semantics beyond the ordered list of own enumerable string-keyed entries are not modelled: prototype-chain lookups, getters, symbol keys, non-enumerable properties, the entries of Map, Set or function objects, and named properties set on arrays, leaf objects or native images (the model gives those no named properties, so they never pass the tag test).
- Objects that are not `instanceof Object` (created with a null prototype, or from another realm) are not modelled. The source returns them unchanged from both functions (lines 53-54 and 84-85), together with any native image or class instance nested inside them. `Serialize`'s guarantee that no image and no class instance remains, and the round-trip lemmas, hold only for the objects the model has.
- Serialize: its result is free of images and class instances, but that does not make it structured-clonable. Symbols pass through the last branch (lines 53-54) unchanged, and structured clone rejects them. Functions are not modelled; the source turns them into plain objects of their own enumerable properties at line 52.
- Objects are assumed to have distinct keys, so a lookup returns the first match.
- The special IEEE numbers (NaN, infinities, -0) are left out, because a number is modelled as a `real`. Truthiness of NaN is therefore not modelled.
- Structured clone and the transport channel are not part of this model.
- Malformed descriptors are not modelled. `Deserialize` requires `WellFormed` instead. This excludes the inputs the source throws on (a null, undefined or non-iterable `representations`, a null or undefined entry (lines 66, 72), a non-empty string `representations`, a null or undefined `size`), the ones it passes to `addRepresentation` unchecked (a missing or ill-typed `buffer`, `dataURL`, `scaleFactor`, `width` or `height`, or an array-like `representations` of length 1 (line 66)), and the empty string as `representations`, which the source turns into an empty image.
