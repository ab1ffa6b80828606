/** Type tags of the typed-array bridge: the host-side element type, JavaScriptCore's
    typed-array type identifier, and the two lookups between them. */
module TypeTags {

  /** The host-side element type (`TypedArray::Type`). */
  datatype ArrayType =
    | Int8Array | Int16Array | Int32Array
    | Uint8Array | Uint8ClampedArray | Uint16Array | Uint32Array
    | Float32Array | Float64Array
    | ArrayBuffer | None
  {
    /** The element types whose engine objects are typed-array views. */
    predicate IsView() {
      this != ArrayBuffer && this != None
    }
  }

  /** JavaScriptCore's `JSTypedArrayType`. `KUnlisted` stands for any value of that
      enumeration the bridge's table does not name (such as a kind a newer engine adds). */
  datatype JSTypedArrayType =
    | KInt8Array | KInt16Array | KInt32Array
    | KUint8Array | KUint8ClampedArray | KUint16Array | KUint32Array
    | KFloat32Array | KFloat64Array
    | KArrayBuffer | KNone
    | KUnlisted(code: int)

  /** `jscArrayType<T>()`: the engine identifier the `TYPE_MAP` table assigns to a host type.
      The table lists every host type, so the result is always a named identifier. */
  function JscArrayType(t: ArrayType): (k: JSTypedArrayType)
    ensures !k.KUnlisted?
    ensures k == KNone <==> t == None
    ensures k == KArrayBuffer <==> t == ArrayBuffer
  {
    match t
    case Int8Array => KInt8Array
    case Int16Array => KInt16Array
    case Int32Array => KInt32Array
    case Uint8Array => KUint8Array
    case Uint8ClampedArray => KUint8ClampedArray
    case Uint16Array => KUint16Array
    case Uint32Array => KUint32Array
    case Float32Array => KFloat32Array
    case Float64Array => KFloat64Array
    case ArrayBuffer => KArrayBuffer
    case None => KNone
  }

  /** The `switch` of `typeFromJSValue`: ten named identifiers map back to their host
      type; `KNone` and every identifier the switch does not list fall to `None`. */
  function TypeFromJscType(k: JSTypedArrayType): (t: ArrayType)
    ensures t == None <==> (k == KNone || k.KUnlisted?)
  {
    match k
    case KInt8Array => Int8Array
    case KInt16Array => Int16Array
    case KInt32Array => Int32Array
    case KUint8Array => Uint8Array
    case KUint8ClampedArray => Uint8ClampedArray
    case KUint16Array => Uint16Array
    case KUint32Array => Uint32Array
    case KFloat32Array => Float32Array
    case KFloat64Array => Float64Array
    case KArrayBuffer => ArrayBuffer
    case _ => None
  }

  /** `sizeof(ContentType<T>)`, the byte width of one element. `None` has no element type. */
  function Width(t: ArrayType): (w: nat)
    requires t != None
    ensures 1 <= w <= 8
    ensures t == ArrayBuffer || t == Uint8Array ==> w == 1
  {
    match t
    case Int8Array => 1
    case Int16Array => 2
    case Int32Array => 4
    case Uint8Array => 1
    case Uint8ClampedArray => 1
    case Uint16Array => 2
    case Uint32Array => 4
    case Float32Array => 4
    case Float64Array => 8
    case ArrayBuffer => 1
  }

  /** Mapping a host type to its engine identifier and back gives the same host type,
      for all eleven tags including `ArrayBuffer` and `None`. */
  lemma TagRoundTrip(t: ArrayType)
    ensures TypeFromJscType(JscArrayType(t)) == t
  {
  }

  /** Distinct host types get distinct engine identifiers. */
  lemma JscArrayTypeInjective(a: ArrayType, b: ArrayType)
    ensures JscArrayType(a) == JscArrayType(b) ==> a == b
  {
  }

  /** The other direction of the round trip: every identifier that detection does not
      send to `None` is the table's identifier for the detected type. */
  lemma DetectedTypeRoundTrip(k: JSTypedArrayType)
    ensures TypeFromJscType(k) != None ==> JscArrayType(TypeFromJscType(k)) == k
  {
  }
}
