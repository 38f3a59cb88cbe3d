/** The failures the engine reports.  Each returned error of the source has
    its own constructor; the reflect panics it can run into are kept apart
    under `Panic`, because Go raises them instead of returning them. */
module Errors {
  import opened Values

  datatype PanicReason =
    | Unsettable           // a Set* or SetLen on a value that cannot be set
    | LengthOutOfRange     // SetLen beyond the capacity
    | NegativeIndex        // Index with a negative position

  datatype Error =
    | MalformedIndex(piece: string)                 // a digit-led path piece Atoi refuses
    | NilDereference                                // a nil pointer or interface mid-path
    | IndexOnStruct                                 // an index segment at a struct
    | NoSuchField(name: string)                     // a name the struct has no field for
    | NameOnSequence(name: string)                  // a name segment at an array or slice
    | IndexOutOfRange(index: int, length: nat)      // an index at or past the length
    | PathThroughKind(kind: Kind)                   // a segment left at any other kind
    | ParseFailure(text: string)                    // a new value strconv refuses
    | CannotSet(kind: Kind)
    | CannotGrow(kind: Kind)
    | CannotShrink(kind: Kind)
    | UnknownOperator(name: string)
    | UnknownRenderKind(kind: Kind)
    | Panic(reason: PanicReason)

  datatype Result<+T> = Ok(value: T) | Err(error: Error)
}
