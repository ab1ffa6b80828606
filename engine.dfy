/** An abstract JavaScriptCore engine, as far as the typed-array bridge uses it: a heap of
    objects, each with its typed-array kind, its backing bytes, the span a view covers and
    its protect count; and the runtime the bridge reaches through `getCtxRef`, which holds
    the engine context and the `ctxInvalid` flag. Each engine call the bridge makes is a
    method (or, for the read-only queries, a function) whose effect on the heap is stated. */
module Engine {
  import opened TypeTags
  import opened ByteGroups

  type ObjId = nat

  /** An engine object. `backing` is the whole byte store the object uses (the buffer of
      an `ArrayBuffer`, or the buffer a view looks into); `byteOffset` and `byteLength`
      are a view's own span. `detached` marks a buffer whose bytes pointer the engine
      reports as null. `protectCount` counts outstanding `JSValueProtect` calls. */
  datatype Record = Record(
    kind: JSTypedArrayType,
    backing: seq<Byte>,
    byteOffset: nat,
    byteLength: nat,
    detached: bool,
    protectCount: nat)

  /** The shape the engine guarantees for its objects: a view lies inside its buffer, an
      `ArrayBuffer` spans all of its bytes, and a detached buffer has no bytes. */
  predicate WellFormed(r: Record) {
    && r.byteOffset + r.byteLength <= |r.backing|
    && (r.kind == KArrayBuffer ==> r.byteOffset == 0 && r.byteLength == |r.backing|)
    && (r.detached ==> |r.backing| == 0)
  }

  /** Objects of every kind other than `ArrayBuffer` and `None` answer the typed-array queries. */
  predicate IsViewKind(k: JSTypedArrayType) {
    k != KArrayBuffer && k != KNone
  }

  /** `JSObjectGetTypedArrayByteLength`: a view's own length; 0 for any other object. */
  function TypedArrayByteLength(r: Record): (n: nat)
    ensures n == 0 || IsViewKind(r.kind)
    ensures IsViewKind(r.kind) ==> n == r.byteLength
    ensures WellFormed(r) ==> TypedArrayByteOffset(r) + n <= |r.backing|
  {
    if IsViewKind(r.kind) then r.byteLength else 0
  }

  /** `JSObjectGetTypedArrayByteOffset`: a view's offset into its buffer; 0 otherwise. */
  function TypedArrayByteOffset(r: Record): (n: nat)
    ensures n == 0 || IsViewKind(r.kind)
    ensures IsViewKind(r.kind) ==> n == r.byteOffset
    ensures WellFormed(r) ==> n <= |r.backing|
  {
    if IsViewKind(r.kind) then r.byteOffset else 0
  }

  /** Whether `JSObjectGetTypedArrayBytesPtr` is non-null. When it is, it points at the
      first byte of the view's buffer, not at the view's first byte, so the view's bytes
      are those from its offset on. */
  function TypedArrayHasBytesPtr(r: Record): (b: bool)
    ensures b <==> IsViewKind(r.kind) && !r.detached
    ensures b && WellFormed(r) ==>
      TypedArrayByteOffset(r) + TypedArrayByteLength(r) <= |r.backing|
  {
    IsViewKind(r.kind) && !r.detached
  }

  /** `JSObjectGetArrayBufferByteLength`: the length of the whole buffer; 0 for any other object. */
  function ArrayBufferByteLength(r: Record): (n: nat)
    ensures r.kind != KArrayBuffer ==> n == 0
    ensures r.kind == KArrayBuffer && WellFormed(r) ==> n == r.byteLength && r.byteOffset == 0
  {
    if r.kind == KArrayBuffer then |r.backing| else 0
  }

  /** Whether `JSObjectGetArrayBufferBytesPtr` is non-null; it points at the buffer's first
      byte, and the buffer's bytes are the whole backing store. */
  function ArrayBufferHasBytesPtr(r: Record): (b: bool)
    ensures b <==> r.kind == KArrayBuffer && !r.detached
    ensures b ==> ArrayBufferByteLength(r) == |r.backing|
  {
    r.kind == KArrayBuffer && !r.detached
  }

  /** The object `JSObjectMake(ctx, nullptr, nullptr)` creates: a plain object, not array-like. */
  function EmptyObject(): (r: Record)
    ensures WellFormed(r) && r.kind == KNone && r.protectCount == 0
  {
    Record(KNone, [], 0, 0, false, 0)
  }

  /** The effect of `JSValueProtect` on the heap: one more protection of `id`, nothing else changes. */
  function Protect(heap: map<ObjId, Record>, id: ObjId): (h: map<ObjId, Record>)
    ensures h.Keys == heap.Keys
    ensures id in heap ==> h[id] == heap[id].(protectCount := heap[id].protectCount + 1)
    ensures forall o :: o in heap && o != id ==> h[o] == heap[o]
  {
    if id in heap then heap[id := heap[id].(protectCount := heap[id].protectCount + 1)] else heap
  }

  /** The effect of `JSValueUnprotect`: one protection fewer (none is removed from an
      unprotected object), nothing else changes. */
  function Unprotect(heap: map<ObjId, Record>, id: ObjId): (h: map<ObjId, Record>)
    ensures h.Keys == heap.Keys
    ensures id in heap && heap[id].protectCount > 0 ==>
      h[id] == heap[id].(protectCount := heap[id].protectCount - 1)
    ensures id in heap && heap[id].protectCount == 0 ==> h[id] == heap[id]
    ensures forall o :: o in heap && o != id ==> h[o] == heap[o]
  {
    if id in heap && heap[id].protectCount > 0 then
      heap[id := heap[id].(protectCount := heap[id].protectCount - 1)]
    else heap
  }

  /** Protecting an object just stored is storing it with one more protection. */
  lemma ProtectStored(heap: map<ObjId, Record>, id: ObjId, r: Record)
    ensures Protect(heap[id := r], id) == heap[id := r.(protectCount := r.protectCount + 1)]
  {
  }

  /** A release undoes the retain before it: the heap is exactly as it was. */
  lemma UnprotectUndoesProtect(heap: map<ObjId, Record>, id: ObjId)
    ensures Unprotect(Protect(heap, id), id) == heap
  {
  }

  /** A JavaScript value as the engine hands it to the bridge. Numbers are kept as
      integers: the bridge never looks at a number's value. */
  datatype JSValue =
    | Undefined
    | Null
    | Boolean(b: bool)
    | Number(n: int)
    | Object(id: ObjId)

  /** The state of a `JSCRuntime`: its engine context (the heap of objects) and its
      `ctxInvalid` flag, set when the context is torn down. */
  class Runtime {
    var heap: map<ObjId, Record>
    var nextId: ObjId
    var ctxInvalid: bool

    ghost predicate Valid()
      reads this
    {
      forall id :: id in heap ==> id < nextId && WellFormed(heap[id])
    }

    /** A fresh runtime: a live context with no objects. */
    constructor ()
      ensures Valid() && heap == map[] && !ctxInvalid
    {
      heap := map[];
      nextId := 0;
      ctxInvalid := false;
    }

    /** Adds a new object to the heap under an identifier no object has used. */
    method Allocate(r: Record) returns (id: ObjId)
      requires Valid() && WellFormed(r)
      modifies this
      ensures Valid()
      ensures id !in old(heap) && heap == old(heap)[id := r]
      ensures ctxInvalid == old(ctxInvalid)
    {
      id := nextId;
      heap := heap[id := r];
      nextId := nextId + 1;
    }

    /** `JSObjectMake(ctx, nullptr, nullptr)`: a fresh plain object. */
    method ObjectMake() returns (id: ObjId)
      requires Valid()
      modifies this
      ensures Valid()
      ensures id !in old(heap) && heap == old(heap)[id := EmptyObject()]
      ensures ctxInvalid == old(ctxInvalid)
    {
      id := Allocate(EmptyObject());
    }

    /** `JSObjectMakeTypedArrayWithBytesNoCopy(ctx, kind, bytes, byteLength, ...)`: a fresh
        view of `kind` whose buffer is exactly `bytes`, handed over without a copy. */
    method MakeTypedArrayWithBytesNoCopy(kind: JSTypedArrayType, bytes: seq<Byte>, byteLength: nat)
      returns (id: ObjId)
      requires Valid() && IsViewKind(kind) && byteLength == |bytes|
      modifies this
      ensures Valid()
      ensures id !in old(heap) && heap == old(heap)[id := Record(kind, bytes, 0, byteLength, false, 0)]
      ensures ctxInvalid == old(ctxInvalid)
    {
      id := Allocate(Record(kind, bytes, 0, byteLength, false, 0));
    }

    /** `JSObjectMakeTypedArray(ctx, kind, 0, nullptr)`: a fresh zero-length view of `kind`,
        backed by an empty buffer the engine allocates itself. */
    method MakeEmptyTypedArray(kind: JSTypedArrayType) returns (id: ObjId)
      requires Valid() && IsViewKind(kind)
      modifies this
      ensures Valid()
      ensures id !in old(heap) && heap == old(heap)[id := Record(kind, [], 0, 0, false, 0)]
      ensures ctxInvalid == old(ctxInvalid)
    {
      id := Allocate(Record(kind, [], 0, 0, false, 0));
    }

    /** `JSValueProtect(ctx, obj)`. */
    method ValueProtect(id: ObjId)
      requires Valid()
      modifies this`heap
      ensures Valid() && heap == Protect(old(heap), id)
    {
      heap := Protect(heap, id);
    }

    /** `JSValueUnprotect(ctx, obj)`. */
    method ValueUnprotect(id: ObjId)
      requires Valid()
      modifies this`heap
      ensures Valid() && heap == Unprotect(old(heap), id)
    {
      heap := Unprotect(heap, id);
    }
  }
}
