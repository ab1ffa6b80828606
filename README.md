# Typed-array bridge over JavaScriptCore, and Yoga enum labels

This project models two pieces of the Expo repository in Dafny and proves properties of
the model.

**The typed-array bridge of `expo-gl-cpp`** (`packages/expo-gl-cpp/cpp/TypedArrayJSC.cpp`)
moves element vectors between native code and JavaScriptCore typed arrays.
- `TypeTags` holds the two type-tag lookups. `jscArrayType<T>()` maps a host element type
  to the engine's `JSTypedArrayType`. The `switch` of `typeFromJSValue` maps it back. It
  also gives each element type its byte width.
- `ByteGroups` models elements as fixed-width groups of bytes. A vector's memory image is
  `Flatten`. Reading a byte run back as elements is `Chunk`.
- `Engine` is an abstract JavaScriptCore context: a heap of objects. Each object has its
  typed-array kind, its backing bytes, a view's offset and length, a detached flag, and a
  protect count. The `Runtime` class stands for the `JSCRuntime` that `getCtxRef` reaches:
  the heap plus the `ctxInvalid` flag. Each engine call the bridge makes is a `Runtime`
  method, and its effect on the heap is stated in its contract.
- `TypedArrayJsc` models the bridge itself:
  - the `JSCTypedArray` handle class, which protects its object on construction and
    unprotects it on `invalidate` unless the context has been torn down;
  - `Convert::toJSI` and `Convert::toJSC`;
  - `create`, `updateWithData`, `fromJSValue`, `rawFromJSValue` and `typeFromJSValue`.

`FromJSValue` is `ReadElements` applied to the object a handle owns; its contract gives
the error cases and the result in terms of the handle's object. The bytes pointer of a typed array points at the first byte of
its buffer. `fromJSValue` adds the view's byte offset to it, but `updateWithData` writes at
the pointer itself. The model keeps both behaviours exactly as written, and
`UpdateBeforeViewLeavesItUnchanged` states what follows from the second: an update no
longer than a view's offset leaves that view's contents unchanged.

**The Yoga enum labels** (`ABI33_0_0YGEnums.cpp`, the versioned Yoga copy used by React
Native ABI 33). Each of the sixteen `*ToString` functions maps the members of one
enumeration to fixed labels. Any other value of the enumeration's C type falls back to
`"unknown"`. `YogaEnums.EnumValue` models a C enum value as either a declared member or an
undeclared integer.

## Model

| member | source | states |
|---|---|---|
| TypeTags.JscArrayType | packages/expo-gl-cpp/cpp/TypedArrayJSC.cpp:17-34 | the table gives every host type a named engine identifier; None gets `kJSTypedArrayTypeNone` and only None does; ArrayBuffer gets `kJSTypedArrayTypeArrayBuffer` and only ArrayBuffer does |
| TypeTags.TypeFromJscType | packages/expo-gl-cpp/cpp/TypedArrayJSC.cpp:180-192 | detection answers None exactly for `kJSTypedArrayTypeNone` and for identifiers the switch does not list |
| TypeTags.Width | packages/expo-gl-cpp/cpp/TypedArrayJSC.cpp:95 | an element is 1 to 8 bytes wide; ArrayBuffer and Uint8Array elements are single bytes |
| TypeTags.TagRoundTrip | packages/expo-gl-cpp/cpp/TypedArrayJSC.cpp:19-30 | detecting the identifier the table assigns to a host type gives that host type back, for all eleven types |
| TypeTags.JscArrayTypeInjective | packages/expo-gl-cpp/cpp/TypedArrayJSC.cpp:19-30 | distinct host types get distinct engine identifiers |
| TypeTags.DetectedTypeRoundTrip | packages/expo-gl-cpp/cpp/TypedArrayJSC.cpp:180-192 | every identifier detected as a type other than None is the table's identifier for that type |
| ByteGroups.Chunk | packages/expo-gl-cpp/cpp/TypedArrayJSC.cpp:168-170 | reading a run of n·w bytes as w-byte elements gives n elements, each w bytes wide, whose memory image is the run |
| ByteGroups.FlattenLength | packages/expo-gl-cpp/cpp/TypedArrayJSC.cpp:95 | the memory image of n elements of width w is n·w bytes long |
| ByteGroups.ChunkFlatten | packages/expo-gl-cpp/cpp/TypedArrayJSC.cpp:103-104 | reading back the memory image of a vector gives the same vector, element for element |
| Engine.TypedArrayByteLength | packages/expo-gl-cpp/cpp/TypedArrayJSC.cpp:125 | `JSObjectGetTypedArrayByteLength`: a view's own length, 0 for any other object; a well-formed view's offset plus length stays inside its buffer |
| Engine.TypedArrayByteOffset | packages/expo-gl-cpp/cpp/TypedArrayJSC.cpp:161 | `JSObjectGetTypedArrayByteOffset`: a view's offset into its buffer, 0 for any other object, never past the buffer's end |
| Engine.TypedArrayHasBytesPtr | packages/expo-gl-cpp/cpp/TypedArrayJSC.cpp:129 | `JSObjectGetTypedArrayBytesPtr` is non-null exactly for an attached view; it points at the buffer's first byte, and the view's span starting at its offset lies inside that buffer |
| Engine.ArrayBufferByteLength | packages/expo-gl-cpp/cpp/TypedArrayJSC.cpp:155 | `JSObjectGetArrayBufferByteLength`: the whole buffer's length for an ArrayBuffer, 0 for any other object |
| Engine.ArrayBufferHasBytesPtr | packages/expo-gl-cpp/cpp/TypedArrayJSC.cpp:156 | `JSObjectGetArrayBufferBytesPtr` is non-null exactly for an attached ArrayBuffer, whose bytes are then its whole backing store |
| Engine.EmptyObject | packages/expo-gl-cpp/cpp/TypedArrayJSC.cpp:77 | `JSObjectMake` makes a well-formed, unprotected plain object that is not array-like |
| Engine.Protect | packages/expo-gl-cpp/cpp/TypedArrayJSC.cpp:51 | `JSValueProtect` adds one protection to the object; the set of objects and every other object are unchanged |
| Engine.Unprotect | packages/expo-gl-cpp/cpp/TypedArrayJSC.cpp:56 | `JSValueUnprotect` removes one protection, never going below zero; the set of objects and every other object are unchanged |
| Engine.UnprotectUndoesProtect | packages/expo-gl-cpp/cpp/TypedArrayJSC.cpp:51-56 | a release right after a retain leaves the heap exactly as it was |
| Engine.Runtime.ObjectMake | packages/expo-gl-cpp/cpp/TypedArrayJSC.cpp:77 | adds one fresh plain object and changes nothing else |
| Engine.Runtime.MakeTypedArrayWithBytesNoCopy | packages/expo-gl-cpp/cpp/TypedArrayJSC.cpp:105-112 | adds one fresh view of the given kind at offset 0 whose buffer is exactly the given bytes, and changes nothing else |
| Engine.Runtime.MakeEmptyTypedArray | packages/expo-gl-cpp/cpp/TypedArrayJSC.cpp:118 | adds one fresh zero-length view of the given kind, and changes nothing else |
| Engine.Runtime.ValueProtect | packages/expo-gl-cpp/cpp/TypedArrayJSC.cpp:51 | the heap becomes `Protect` of the old heap; the runtime stays valid |
| Engine.Runtime.ValueUnprotect | packages/expo-gl-cpp/cpp/TypedArrayJSC.cpp:56 | the heap becomes `Unprotect` of the old heap; the runtime stays valid |
| TypedArrayJsc.JscTypedArray.constructor | packages/expo-gl-cpp/cpp/TypedArrayJSC.cpp:47-52 | the handle records its runtime and object and protects that object exactly once |
| TypedArrayJsc.JscTypedArray.Invalidate | packages/expo-gl-cpp/cpp/TypedArrayJSC.cpp:54-59 | the handle is disposed; the object loses one protection while the context is live, and the heap is untouched once `ctxInvalid` is set |
| TypedArrayJsc.ToJSI | packages/expo-gl-cpp/cpp/TypedArrayJSC.cpp:74-80 | an object value is wrapped in a fresh handle that owns and protects that very object; any other value gets a fresh plain object with protect count 1 instead |
| TypedArrayJsc.ToJSC | packages/expo-gl-cpp/cpp/TypedArrayJSC.cpp:82-85 | gives the engine object a live handle owns, the one its construction protected |
| TypedArrayJsc.Create | packages/expo-gl-cpp/cpp/TypedArrayJSC.cpp:92-120 | adds exactly one object: a view of the table's identifier for the type, at offset 0, over exactly the vector's bytes, protected once; it is detected as the requested type and reads back as the given vector, the empty vector included |
| TypedArrayJsc.ReadBackCreated | packages/expo-gl-cpp/cpp/TypedArrayJSC.cpp:92-120 | the object `create` leaves is well formed, is detected as the requested type and reads back as the vector it was made from |
| TypedArrayJsc.UpdateWithData | packages/expo-gl-cpp/cpp/TypedArrayJSC.cpp:122-131 | fails with the error "TypedArray to small to fit provided data" exactly when the data is longer than the typed array's byte length, and then changes nothing; otherwise overwrites the buffer's first bytes with the data and changes nothing else |
| TypedArrayJsc.Overwrite | packages/expo-gl-cpp/cpp/TypedArrayJSC.cpp:129-130 | the copy keeps the buffer's length; each byte comes from the data where the data reaches and is unchanged past it |
| TypedArrayJsc.SelectSpan | packages/expo-gl-cpp/cpp/TypedArrayJSC.cpp:148-162 | an ArrayBuffer is read whole from offset 0 and a view over its own offset and length, always inside the buffer; there is no bytes pointer exactly for a non-array-like object or a detached buffer |
| TypedArrayJsc.ReadElements | packages/expo-gl-cpp/cpp/TypedArrayJSC.cpp:148-170 | fails with "Invalid typed array data" exactly when there is no bytes pointer, and aborts exactly when the span is not a whole number of elements; otherwise the elements are the selected bytes, span length / width of them |
| TypedArrayJsc.FromJSValue | packages/expo-gl-cpp/cpp/TypedArrayJSC.cpp:133-171 | is `ReadElements` of the handle's object: "Invalid typed array data" exactly when there is no bytes pointer, the abort exactly when the span is not a whole number of elements, and otherwise the elements whose memory image is the selected span |
| TypedArrayJsc.RawFromJSValue | packages/expo-gl-cpp/cpp/TypedArrayJSC.cpp:173-175 | fails only for a missing bytes pointer; otherwise returns the selected byte span itself, one byte per element |
| TypedArrayJsc.TypeFromJSValue | packages/expo-gl-cpp/cpp/TypedArrayJSC.cpp:177-194 | never fails; answers None exactly for plain objects and unlisted identifiers; any other answer is the host type whose identifier the object carries |
| TypedArrayJsc.UpdateThenRead | packages/expo-gl-cpp/cpp/TypedArrayJSC.cpp:122-131 | updating a view at offset 0 with k whole elements and reading it back gives the new elements followed by the old elements past the first k |
| TypedArrayJsc.UpdateBeforeViewLeavesItUnchanged | packages/expo-gl-cpp/cpp/TypedArrayJSC.cpp:129-130 | an update that is no longer than a view's byte offset lands before the view, so reading the view gives what it gave before |
| TypedArrayJsc.Int32UpdateExample | packages/expo-gl-cpp/cpp/TypedArrayJSC.cpp:197-201 | an Int32Array made from [a, b, c] and updated with the four bytes of d reads back as [d, b, c] |
| YogaEnums.AlignToString | ios/versioned-react-native/ABI33_0_0/ReactCommon/ABI33_0_0yoga/yoga/ABI33_0_0YGEnums.cpp:9-29 | "unknown" exactly for undeclared values; every label is a non-empty lower-case hyphenated word |
| YogaEnums.AlignLabelsDistinct | ios/versioned-react-native/ABI33_0_0/ReactCommon/ABI33_0_0yoga/yoga/ABI33_0_0YGEnums.cpp:9-29 | distinct Align members get distinct labels |
| YogaEnums.DimensionToString | ios/versioned-react-native/ABI33_0_0/ReactCommon/ABI33_0_0yoga/yoga/ABI33_0_0YGEnums.cpp:31-39 | "unknown" exactly for undeclared values; every label is a non-empty lower-case hyphenated word |
| YogaEnums.DimensionLabelsDistinct | ios/versioned-react-native/ABI33_0_0/ReactCommon/ABI33_0_0yoga/yoga/ABI33_0_0YGEnums.cpp:31-39 | distinct Dimension members get distinct labels |
| YogaEnums.DirectionToString | ios/versioned-react-native/ABI33_0_0/ReactCommon/ABI33_0_0yoga/yoga/ABI33_0_0YGEnums.cpp:41-51 | "unknown" exactly for undeclared values; every label is a non-empty lower-case hyphenated word |
| YogaEnums.DirectionLabelsDistinct | ios/versioned-react-native/ABI33_0_0/ReactCommon/ABI33_0_0yoga/yoga/ABI33_0_0YGEnums.cpp:41-51 | distinct Direction members get distinct labels |
| YogaEnums.DisplayToString | ios/versioned-react-native/ABI33_0_0/ReactCommon/ABI33_0_0yoga/yoga/ABI33_0_0YGEnums.cpp:53-61 | "unknown" exactly for undeclared values; every label is a non-empty lower-case hyphenated word |
| YogaEnums.DisplayLabelsDistinct | ios/versioned-react-native/ABI33_0_0/ReactCommon/ABI33_0_0yoga/yoga/ABI33_0_0YGEnums.cpp:53-61 | distinct Display members get distinct labels |
| YogaEnums.EdgeToString | ios/versioned-react-native/ABI33_0_0/ReactCommon/ABI33_0_0yoga/yoga/ABI33_0_0YGEnums.cpp:63-85 | "unknown" exactly for undeclared values; every label is a non-empty lower-case hyphenated word |
| YogaEnums.EdgeLabelsDistinct | ios/versioned-react-native/ABI33_0_0/ReactCommon/ABI33_0_0yoga/yoga/ABI33_0_0YGEnums.cpp:63-85 | the nine Edge members get nine distinct labels |
| YogaEnums.ExperimentalFeatureToString | ios/versioned-react-native/ABI33_0_0/ReactCommon/ABI33_0_0yoga/yoga/ABI33_0_0YGEnums.cpp:87-93 | "unknown" exactly for undeclared values; every label is a non-empty lower-case hyphenated word |
| YogaEnums.ExperimentalFeatureLabel | ios/versioned-react-native/ABI33_0_0/ReactCommon/ABI33_0_0yoga/yoga/ABI33_0_0YGEnums.cpp:87-93 | the single ExperimentalFeature member is labelled "web-flex-basis" |
| YogaEnums.FlexDirectionToString | ios/versioned-react-native/ABI33_0_0/ReactCommon/ABI33_0_0yoga/yoga/ABI33_0_0YGEnums.cpp:95-107 | "unknown" exactly for undeclared values; every label is a non-empty lower-case hyphenated word |
| YogaEnums.FlexDirectionLabelsDistinct | ios/versioned-react-native/ABI33_0_0/ReactCommon/ABI33_0_0yoga/yoga/ABI33_0_0YGEnums.cpp:95-107 | distinct FlexDirection members get distinct labels |
| YogaEnums.JustifyToString | ios/versioned-react-native/ABI33_0_0/ReactCommon/ABI33_0_0yoga/yoga/ABI33_0_0YGEnums.cpp:109-125 | "unknown" exactly for undeclared values; every label is a non-empty lower-case hyphenated word |
| YogaEnums.JustifyLabelsDistinct | ios/versioned-react-native/ABI33_0_0/ReactCommon/ABI33_0_0yoga/yoga/ABI33_0_0YGEnums.cpp:109-125 | distinct Justify members get distinct labels |
| YogaEnums.LogLevelToString | ios/versioned-react-native/ABI33_0_0/ReactCommon/ABI33_0_0yoga/yoga/ABI33_0_0YGEnums.cpp:127-143 | "unknown" exactly for undeclared values; every label is a non-empty lower-case hyphenated word |
| YogaEnums.LogLevelLabelsDistinct | ios/versioned-react-native/ABI33_0_0/ReactCommon/ABI33_0_0yoga/yoga/ABI33_0_0YGEnums.cpp:127-143 | distinct LogLevel members get distinct labels |
| YogaEnums.MeasureModeToString | ios/versioned-react-native/ABI33_0_0/ReactCommon/ABI33_0_0yoga/yoga/ABI33_0_0YGEnums.cpp:145-155 | "unknown" exactly for undeclared values; every label is a non-empty lower-case hyphenated word |
| YogaEnums.MeasureModeLabelsDistinct | ios/versioned-react-native/ABI33_0_0/ReactCommon/ABI33_0_0yoga/yoga/ABI33_0_0YGEnums.cpp:145-155 | distinct MeasureMode members get distinct labels |
| YogaEnums.NodeTypeToString | ios/versioned-react-native/ABI33_0_0/ReactCommon/ABI33_0_0yoga/yoga/ABI33_0_0YGEnums.cpp:157-165 | "unknown" exactly for undeclared values; every label is a non-empty lower-case hyphenated word |
| YogaEnums.NodeTypeLabelsDistinct | ios/versioned-react-native/ABI33_0_0/ReactCommon/ABI33_0_0yoga/yoga/ABI33_0_0YGEnums.cpp:157-165 | distinct NodeType members get distinct labels |
| YogaEnums.OverflowToString | ios/versioned-react-native/ABI33_0_0/ReactCommon/ABI33_0_0yoga/yoga/ABI33_0_0YGEnums.cpp:167-177 | "unknown" exactly for undeclared values; every label is a non-empty lower-case hyphenated word |
| YogaEnums.OverflowLabelsDistinct | ios/versioned-react-native/ABI33_0_0/ReactCommon/ABI33_0_0yoga/yoga/ABI33_0_0YGEnums.cpp:167-177 | distinct Overflow members get distinct labels |
| YogaEnums.PositionTypeToString | ios/versioned-react-native/ABI33_0_0/ReactCommon/ABI33_0_0yoga/yoga/ABI33_0_0YGEnums.cpp:179-187 | "unknown" exactly for undeclared values; every label is a non-empty lower-case hyphenated word |
| YogaEnums.PositionTypeLabelsDistinct | ios/versioned-react-native/ABI33_0_0/ReactCommon/ABI33_0_0yoga/yoga/ABI33_0_0YGEnums.cpp:179-187 | distinct PositionType members get distinct labels |
| YogaEnums.PrintOptionsToString | ios/versioned-react-native/ABI33_0_0/ReactCommon/ABI33_0_0yoga/yoga/ABI33_0_0YGEnums.cpp:189-199 | "unknown" exactly for undeclared values, combined options included; every label is a non-empty lower-case hyphenated word |
| YogaEnums.PrintOptionsLabelsDistinct | ios/versioned-react-native/ABI33_0_0/ReactCommon/ABI33_0_0yoga/yoga/ABI33_0_0YGEnums.cpp:189-199 | distinct PrintOptions members get distinct labels |
| YogaEnums.UnitToString | ios/versioned-react-native/ABI33_0_0/ReactCommon/ABI33_0_0yoga/yoga/ABI33_0_0YGEnums.cpp:201-213 | "unknown" exactly for undeclared values; every label is a non-empty lower-case hyphenated word |
| YogaEnums.UnitLabelsDistinct | ios/versioned-react-native/ABI33_0_0/ReactCommon/ABI33_0_0yoga/yoga/ABI33_0_0YGEnums.cpp:201-213 | distinct Unit members get distinct labels |
| YogaEnums.WrapToString | ios/versioned-react-native/ABI33_0_0/ReactCommon/ABI33_0_0yoga/yoga/ABI33_0_0YGEnums.cpp:215-225 | "unknown" exactly for undeclared values; every label is a non-empty lower-case hyphenated word |
| YogaEnums.WrapLabelsDistinct | ios/versioned-react-native/ABI33_0_0/ReactCommon/ABI33_0_0yoga/yoga/ABI33_0_0YGEnums.cpp:215-225 | distinct Wrap members get distinct labels |
| YogaEnums.HyphenatedLabels | ios/versioned-react-native/ABI33_0_0/ReactCommon/ABI33_0_0yoga/yoga/ABI33_0_0YGEnums.cpp:99-152 | ColumnReverse is "column-reverse", SpaceEvenly is "space-evenly", AtMost is "at-most" |
| YogaEnums.LabelsSharedAcrossEnums | ios/versioned-react-native/ABI33_0_0/ReactCommon/ABI33_0_0yoga/yoga/ABI33_0_0YGEnums.cpp:9-213 | labels are unique only within one enumeration: Align and Justify share "flex-start", Align and Unit share "auto", MeasureMode and Unit share "undefined" |

## Left out

- The binary-compatible `JSCRuntime` stand-in and `getCtxRef`'s `reinterpret_cast` (TypedArrayJSC.cpp:36-70, 88-90) depend on memory layout. The model passes the `Runtime` directly.
- The JavaScriptCore C API is an abstract heap. Aliasing between a view and a buffer other views share is not modelled: each object owns its backing bytes.
- The deallocator passed to `JSObjectMakeTypedArrayWithBytesNoCopy` (line 110) and the `delete this` of `invalidate` (line 59) free memory. The model has no memory to free; `disposed` marks the handle as gone.
- `ctxInvalid` is a `std::atomic<bool>` read by other threads. Concurrency is not modelled: the flag is a plain field.
- Element values (`int32_t`, `float`, ...) are kept as their bytes, so byte order and floating-point semantics play no part.
- The commented-out `usingTypedArrayHack` branches (lines 98-102, 115-117, 136-147) are not compiled and are not modelled.
- `TypedArrayJsc.Create`: requires the byte length to fit the `int` it is computed in (`IntMax`); the overflow of `data.size() * sizeof(...)` past that is not modelled.
- `TypedArrayJsc.Create`: defined for the nine view types. The file instantiates it only for Int32Array, Uint32Array and Float32Array (lines 197-199); ArrayBuffer and None are not valid there.
- `TypedArrayJsc.ToJSI`: `JSValueToObject` is taken to succeed exactly on object values. Its boxing of booleans, numbers and strings into wrapper objects is not modelled; those values get the fresh plain object.
- `TypedArrayJsc.ToJSC`: the failure of `value.asObject(runtime)` on a non-object `jsi::Value` is not modelled. The bridge's operations take the handle itself.
- `TypedArrayJsc.ReadElements`: the `assert` on the byte length (line 167) aborts only when assertions are enabled. With `NDEBUG` it is compiled out, and lines 168-170 then build a vector from a span that is not a whole number of elements, which is undefined behaviour. `LengthNotMultiple` stands for the debug-build abort only; the model does not describe the release build in that case.
- `TypeTags.Width`: `TypedArrayJSI.h`, which defines `ContentType`, is not part of this model. The widths are those of the fixed-width C types the names imply.
- `packages/expo-firebase-core/ios/EXFirebaseCore/EXFirebaseCore+FIROptions.h` only declares an Objective-C category and has no behaviour to model.
- The Yoga header that gives each enumerator its integer value is not part of this model. Undeclared values are kept as integers without comparing them to those values.
