/** The typed-array bridge between host element vectors and JavaScriptCore typed arrays:
    the handle that ties an engine object's protection to a host value, the conversions
    between engine values and handles, and the four operations `create`,
    `updateWithData`, `fromJSValue` (with `rawFromJSValue`) and `typeFromJSValue`. */
module TypedArrayJsc {
  import opened TypeTags
  import opened ByteGroups
  import opened Engine

  /** The bridge's failures. The first two are the `std::runtime_error`s it throws; the
      third is the failed `assert` on the byte length, which aborts the call. */
  datatype Error = TooSmall | InvalidData | LengthNotMultiple

  function Message(e: Error): string {
    match e
    case TooSmall => "TypedArray to small to fit provided data"
    case InvalidData => "Invalid typed array data"
    case LengthNotMultiple => "byteLength % sizeof(ContentType<T>) == 0"
  }

  datatype Result<T> = Ok(value: T) | Err(error: Error)

  datatype Outcome = Pass | Fail(error: Error)

  /** The largest value of the `int` that `create` computes the byte length in. */
  const IntMax: nat := 0x7fff_ffff

  /** `JSCRuntime::JSCTypedArray`: the host-side pointer value that owns one protection of
      an engine object. `runtime` gives both the context `ctx_` and the flag `ctxInvalid_`
      the handle refers to; `disposed` records that `invalidate` has run (`delete this`). */
  class JscTypedArray {
    const runtime: Runtime
    const obj: ObjId
    var disposed: bool

    /** Protects the object exactly once. */
    constructor (runtime: Runtime, obj: ObjId)
      requires runtime.Valid() && obj in runtime.heap
      modifies runtime`heap
      ensures this.runtime == runtime && this.obj == obj && !disposed
      ensures runtime.Valid() && runtime.heap == Protect(old(runtime.heap), obj)
    {
      this.runtime := runtime;
      this.obj := obj;
      disposed := false;
      new;
      runtime.ValueProtect(obj);
    }

    /** Releases the protection exactly once while the context is live, and never after
        it has been torn down; either way the handle is disposed. */
    method Invalidate()
      requires !disposed && runtime.Valid()
      modifies this`disposed, runtime`heap
      ensures disposed && runtime.Valid()
      ensures runtime.heap ==
        if runtime.ctxInvalid then old(runtime.heap) else Unprotect(old(runtime.heap), obj)
    {
      if !runtime.ctxInvalid {
        runtime.ValueUnprotect(obj);
      }
      disposed := true;
    }
  }

  /** `Convert::toJSC`: the engine object a live handle owns, that is, the object the
      handle's construction protected. */
  function ToJSC(v: JscTypedArray): (id: ObjId)
    reads v
    requires !v.disposed
    ensures id == v.obj
  {
    v.obj
  }

  /** `Convert::toJSI`: wraps an engine value in a fresh handle. `JSValueToObject` succeeds
      on an object, and the handle then owns that very object; on any other value it
      fails, and the handle owns a fresh plain object made with `JSObjectMake` instead. */
  method ToJSI(rt: Runtime, value: JSValue) returns (v: JscTypedArray)
    requires rt.Valid()
    requires value.Object? ==> value.id in rt.heap
    modifies rt
    ensures rt.Valid() && rt.ctxInvalid == old(rt.ctxInvalid)
    ensures fresh(v) && v.runtime == rt && !v.disposed
    ensures value.Object? ==> ToJSC(v) == value.id && rt.heap == Protect(old(rt.heap), value.id)
    ensures !value.Object? ==>
      && ToJSC(v) !in old(rt.heap)
      && rt.heap == old(rt.heap)[ToJSC(v) := EmptyObject().(protectCount := 1)]
  {
    var objRef: ObjId;
    if value.Object? {
      objRef := value.id;
    } else {
      objRef := rt.ObjectMake();
    }
    v := new JscTypedArray(rt, objRef);
  }

  /** `TypedArray::create<T>`: a new engine typed array of type `t` holding `data`. A
      non-empty vector is copied into a new buffer the engine takes over without copying;
      an empty one gets a zero-length typed array of the same type and no buffer of ours.
      Either way the array is a view at offset 0 over exactly the bytes of `data`, its
      detected type is `t`, reading it back as `t` gives `data`, and the handle holds its
      only protection. */
  method Create(rt: Runtime, t: ArrayType, data: seq<Element>) returns (v: JscTypedArray)
    requires rt.Valid() && t.IsView() && AllWidth(data, Width(t))
    requires |data| * Width(t) <= IntMax
    modifies rt
    ensures rt.Valid() && rt.ctxInvalid == old(rt.ctxInvalid)
    ensures fresh(v) && v.runtime == rt && !v.disposed
    ensures ToJSC(v) !in old(rt.heap) && rt.heap == old(rt.heap)[ToJSC(v) := Created(t, data)]
    ensures TypeFromJSValue(rt, v) == t
    ensures FromJSValue(rt, v, t) == Ok(data)
  {
    var byteLength := |data| * Width(t);
    var arrayType := JscArrayType(t);
    FlattenLength(data, Width(t));
    ghost var before := rt.heap;
    var obj: ObjId;
    if |data| != 0 {
      // new uint8_t[byteLength] filled by memcpy: the memory image of the vector
      var rawData := Flatten(data);
      obj := rt.MakeTypedArrayWithBytesNoCopy(arrayType, rawData, byteLength);
    } else {
      obj := rt.MakeEmptyTypedArray(arrayType);
    }
    assert obj !in before && rt.heap == before[obj := Created(t, data).(protectCount := 0)];
    v := ToJSI(rt, Object(obj));
    ProtectStored(before, obj, Created(t, data).(protectCount := 0));
    ReadBackCreated(t, data);
  }

  /** The engine object `create` leaves behind: a view of the table's identifier for `t`,
      at offset 0, over a buffer holding exactly the bytes of `data`, attached, protected
      once by the handle. */
  ghost function Created(t: ArrayType, data: seq<Element>): Record
    requires t.IsView() && AllWidth(data, Width(t))
  {
    Record(JscArrayType(t), Flatten(data), 0, |data| * Width(t), false, 1)
  }

  /** `TypedArray::updateWithData`: overwrites the bytes of the engine object in place,
      starting at the first byte of its buffer, when `data` fits in the typed array's byte
      length; otherwise fails with `TooSmall` and changes nothing. A success writes
      `|data|` bytes and no more: the buffer keeps its length and its remaining bytes. */
  method UpdateWithData(rt: Runtime, v: JscTypedArray, data: seq<Byte>) returns (r: Outcome)
    requires rt.Valid() && !v.disposed && ToJSC(v) in rt.heap
    modifies rt`heap
    ensures rt.Valid()
    ensures r.Fail? <==> |data| > TypedArrayByteLength(old(rt.heap[v.obj]))
    ensures r.Fail? ==> r.error == TooSmall && rt.heap == old(rt.heap)
    ensures r.Fail? ==> Message(r.error) == "TypedArray to small to fit provided data"
    ensures r.Pass? ==>
      rt.heap == old(rt.heap)[v.obj := old(rt.heap[v.obj]).(
        backing := Overwrite(old(rt.heap[v.obj]).backing, data))]
  {
    var jsObjectRef := ToJSC(v);
    var rec := rt.heap[jsObjectRef];
    var byteLength := TypedArrayByteLength(rec);
    if byteLength < |data| {
      return Fail(TooSmall);
    }
    // std::copy to JSObjectGetTypedArrayBytesPtr, the first byte of the buffer
    rt.heap := rt.heap[jsObjectRef := rec.(backing := Overwrite(rec.backing, data))];
    r := Pass;
  }

  /** The bytes an in-place copy of `data` to the start of `b` leaves behind. */
  function Overwrite(b: seq<Byte>, data: seq<Byte>): (r: seq<Byte>)
    requires |data| <= |b|
    ensures |r| == |b|
    ensures forall i :: 0 <= i < |r| ==> r[i] == if i < |data| then data[i] else b[i]
  {
    data + b[|data|..]
  }

  /** The byte span `fromJSValue` reads, or `NullData` when it gets no bytes pointer. */
  datatype ByteSpan = NullData | Span(offset: nat, length: nat)

  /** The span selection of `fromJSValue`: an `ArrayBuffer` is read whole from offset 0;
      a view of any other listed or unlisted kind is read over its own offset and length;
      an object that is not array-like, or a detached buffer, gives no bytes pointer. */
  function SelectSpan(r: Record): (s: ByteSpan)
    requires WellFormed(r)
    ensures s.Span? ==> s.offset + s.length <= |r.backing|
    ensures s.NullData? <==> (r.kind == KNone || r.detached)
    ensures r.kind == KArrayBuffer && !r.detached ==> s == Span(0, |r.backing|)
    ensures IsViewKind(r.kind) && !r.detached ==> s == Span(r.byteOffset, r.byteLength)
  {
    if r.kind == KArrayBuffer then
      if ArrayBufferHasBytesPtr(r) then Span(0, ArrayBufferByteLength(r)) else NullData
    else if r.kind != KNone then
      if TypedArrayHasBytesPtr(r) then Span(TypedArrayByteOffset(r), TypedArrayByteLength(r))
      else NullData
    else NullData
  }

  /** The body of `fromJSValue<T>` on one engine object: fail with `InvalidData` when there
      is no bytes pointer, abort when the span is not a whole number of `t` elements, and
      otherwise return the `length / width` elements stored in the selected span. */
  function ReadElements(r: Record, t: ArrayType): (res: Result<seq<Element>>)
    requires WellFormed(r) && t != None
    ensures res == Err(InvalidData) <==> SelectSpan(r).NullData?
    ensures res == Err(LengthNotMultiple) <==>
      SelectSpan(r).Span? && SelectSpan(r).length % Width(t) != 0
    ensures res.Err? ==> res.error != TooSmall
    ensures res.Ok? ==>
      var s := SelectSpan(r);
      && s.Span?
      && |res.value| * Width(t) == s.length
      && AllWidth(res.value, Width(t))
      && Flatten(res.value) == r.backing[s.offset..s.offset + s.length]
  {
    match SelectSpan(r)
    case NullData => Err(InvalidData)
    case Span(offset, length) =>
      if length % Width(t) != 0 then Err(LengthNotMultiple)
      else Ok(Chunk(r.backing[offset..offset + length], Width(t)))
  }

  /** `TypedArray::fromJSValue<T>`: `ReadElements` on the object the handle owns. It
      throws "Invalid typed array data" exactly when there is no bytes pointer, aborts
      exactly when the span is not a whole number of elements, and otherwise returns the
      elements whose memory image is the selected span. */
  function FromJSValue(rt: Runtime, v: JscTypedArray, t: ArrayType): (res: Result<seq<Element>>)
    reads rt, v
    requires rt.Valid() && !v.disposed && ToJSC(v) in rt.heap && t != None
    ensures res == Err(InvalidData) <==> SelectSpan(rt.heap[v.obj]).NullData?
    ensures res.Err? && res.error == InvalidData ==> Message(res.error) == "Invalid typed array data"
    ensures res == Err(LengthNotMultiple) <==>
      SelectSpan(rt.heap[v.obj]).Span? && SelectSpan(rt.heap[v.obj]).length % Width(t) != 0
    ensures res.Ok? ==>
      var s := SelectSpan(rt.heap[v.obj]);
      && s.Span?
      && AllWidth(res.value, Width(t))
      && Flatten(res.value) == rt.heap[v.obj].backing[s.offset..s.offset + s.length]
  {
    ReadElements(rt.heap[ToJSC(v)], t)
  }

  /** `TypedArray::rawFromJSValue`: `fromJSValue` at the one-byte `Uint8Array` type. Every
      length is a multiple of one, so the only failure is a missing bytes pointer, and a
      success is the selected byte span itself, one byte per element. */
  function RawFromJSValue(rt: Runtime, v: JscTypedArray): (res: Result<seq<Element>>)
    reads rt, v
    requires rt.Valid() && !v.disposed && ToJSC(v) in rt.heap
    ensures res.Err? <==> SelectSpan(rt.heap[v.obj]).NullData?
    ensures res.Err? ==> res.error == InvalidData
    ensures res.Ok? ==>
      var s := SelectSpan(rt.heap[v.obj]);
      && |res.value| == s.length
      && AllWidth(res.value, 1)
      && Flatten(res.value) == rt.heap[v.obj].backing[s.offset..s.offset + s.length]
  {
    FromJSValue(rt, v, Uint8Array)
  }

  /** `TypedArray::typeFromJSValue`: never fails; whatever it detects other than `None`
      is the host type whose engine identifier the object carries. */
  function TypeFromJSValue(rt: Runtime, v: JscTypedArray): (t: ArrayType)
    reads rt, v
    requires !v.disposed && ToJSC(v) in rt.heap
    ensures t != None ==> JscArrayType(t) == rt.heap[v.obj].kind
    ensures t == None <==> (rt.heap[v.obj].kind == KNone || rt.heap[v.obj].kind.KUnlisted?)
  {
    DetectedTypeRoundTrip(rt.heap[ToJSC(v)].kind);
    TypeFromJscType(rt.heap[ToJSC(v)].kind)
  }

  /** The object `create` leaves is well formed, is detected as `t` and reads back as
      `data`, the empty vector included. */
  lemma ReadBackCreated(t: ArrayType, data: seq<Element>)
    requires t.IsView() && AllWidth(data, Width(t))
    ensures WellFormed(Created(t, data))
    ensures TypeFromJscType(Created(t, data).kind) == t
    ensures ReadElements(Created(t, data), t) == Ok(data)
  {
    var r, w := Created(t, data), Width(t);
    FlattenLength(data, w);
    TagRoundTrip(t);
    ModUnique(r.byteLength, w, |data|, 0);
    assert r.backing[0..r.byteLength] == Flatten(data);
    ChunkFlatten(data, w);
  }

  /** Updating a view at offset 0 with the bytes of whole elements, then reading it,
      gives the new elements followed by the old elements past them: a partial
      overwrite, not a resize. */
  lemma UpdateThenRead(r: Record, t: ArrayType, elems: seq<Element>)
    requires WellFormed(r) && IsViewKind(r.kind) && !r.detached && r.byteOffset == 0
    requires t != None && r.byteLength % Width(t) == 0
    requires AllWidth(elems, Width(t)) && |elems| * Width(t) <= r.byteLength
    ensures |Flatten(elems)| == |elems| * Width(t)
    ensures ReadElements(r, t).Ok? && |elems| <= |ReadElements(r, t).value|
    ensures ReadElements(r.(backing := Overwrite(r.backing, Flatten(elems))), t)
      == Ok(elems + ReadElements(r, t).value[|elems|..])
  {
    var w, len, k := Width(t), r.byteLength, |elems|;
    FlattenLength(elems, w);
    var before := Chunk(r.backing[0..len], w);
    ReadWholeView(r, t);
    CancelFactor(k, |before|, w);
    var u := r.(backing := Overwrite(r.backing, Flatten(elems)));
    OverwriteElements(r.backing, before, elems, len, w);
    ChunkFlatten(elems + before[k..], w);
    ReadWholeView(u, t);
  }

  /** Overwriting the start of a run of whole elements with the bytes of `k` new ones
      leaves the image of the new elements followed by the old ones past the first `k`. */
  lemma OverwriteElements(b: seq<Byte>, before: seq<Element>, elems: seq<Element>, len: nat, w: nat)
    requires len <= |b| && AllWidth(before, w) && AllWidth(elems, w)
    requires Flatten(before) == b[0..len] && |elems| <= |before|
    ensures |Flatten(elems)| <= |b| && AllWidth(elems + before[|elems|..], w)
    ensures Overwrite(b, Flatten(elems))[0..len] == Flatten(elems + before[|elems|..])
  {
    var k := |elems|;
    var tail := before[k..];
    SplitFlatten(before, k, w);
    FlattenLength(elems, w);
    assert b[k * w..len] == Flatten(tail);
    OverwritePrefix(b, Flatten(elems), len);
    FlattenAppend(elems, tail);
  }

  /** A whole, attached view at offset 0 reads as the elements stored in its first
      `byteLength` bytes. */
  lemma ReadWholeView(r: Record, t: ArrayType)
    requires WellFormed(r) && IsViewKind(r.kind) && !r.detached && r.byteOffset == 0
    requires t != None && r.byteLength % Width(t) == 0
    ensures ReadElements(r, t) == Ok(Chunk(r.backing[0..r.byteLength], Width(t)))
  {
  }

  /** The first `len` bytes after an overwrite of the first `|data|`. */
  lemma OverwritePrefix(b: seq<Byte>, data: seq<Byte>, len: nat)
    requires |data| <= len <= |b|
    ensures Overwrite(b, data)[0..len] == data + b[|data|..len]
  {
  }

  /** The write ignores the view's offset: an update no longer than a view's offset lands
      wholly before the view, and reading the view gives what it gave before. */
  lemma UpdateBeforeViewLeavesItUnchanged(r: Record, t: ArrayType, data: seq<Byte>)
    requires WellFormed(r) && IsViewKind(r.kind) && t != None
    requires |data| <= r.byteLength && |data| <= r.byteOffset
    ensures ReadElements(r.(backing := Overwrite(r.backing, data)), t) == ReadElements(r, t)
  {
    var u := r.(backing := Overwrite(r.backing, data));
    assert SelectSpan(u) == SelectSpan(r);
    if !r.detached {
      OverwriteKeepsRest(r.backing, data, r.byteOffset, r.byteOffset + r.byteLength);
    }
  }

  /** An overwrite of the first `|data|` bytes leaves every range past them as it was. */
  lemma OverwriteKeepsRest(b: seq<Byte>, data: seq<Byte>, from: nat, to: nat)
    requires |data| <= from <= to <= |b|
    ensures Overwrite(b, data)[from..to] == b[from..to]
  {
  }

  /** The worked example of an in-place update: `create(Int32Array, [a, b, c])`, then an
      update with the four bytes of `d`, reads back as `[d, b, c]`. */
  lemma Int32UpdateExample(a: Element, b: Element, c: Element, d: Element)
    requires |a| == 4 && |b| == 4 && |c| == 4 && |d| == 4
    ensures WellFormed(Created(Int32Array, [a, b, c]))
    ensures var r := Created(Int32Array, [a, b, c]);
      |d| <= |r.backing| &&
      ReadElements(r.(backing := Overwrite(r.backing, d)), Int32Array) == Ok([d, b, c])
  {
    var r := Created(Int32Array, [a, b, c]);
    ReadBackCreated(Int32Array, [a, b, c]);
    assert Flatten([d]) == d by {
      assert [d][1..] == [];
    }
    UpdateThenRead(r, Int32Array, [d]);
    var u := r.(backing := Overwrite(r.backing, d));
    assert ReadElements(u, Int32Array) == Ok([d] + [a, b, c][1..]);
    assert [d] + [a, b, c][1..] == [d, b, c];
  }
}
