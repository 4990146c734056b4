/** A closed stand-in for the values the checkers inspect through Go's
    reflection: one constructor per kind the checkers tell apart. */
module Dyn {

  datatype Option<T> = None | Some(value: T)

  /** The signed integer kinds int, int8, int16, int32 and int64. */
  datatype IntWidth = Int | Int8 | Int16 | Int32 | Int64

  datatype Value =
    | VSlice(elems: seq<Value>)            // a non-nil slice
    | VNilSlice                            // a nil slice
    | VArray(elems: seq<Value>)            // an array
    | VMap(entries: seq<(Value, Value)>)   // a non-nil map, in enumeration order
    | VNilMap                              // a nil map
    | VStr(s: string)                      // a string; each char stands for one byte
    | VInt(width: IntWidth, i: int)        // a signed integer of any width
    | VUint                                // uint, uint8 ... uintptr
    | VFloat                               // float32, float64
    | VBool
    | VIface(holdsNil: bool)               // an element of interface type
    | VRef(isNil: bool)                    // a pointer, function or unsafe pointer
    | VOther                               // a struct, complex number, ...
    | VInvalid                             // the zero reflect.Value (nil interface or nil pointer)

  /** What the checker was built with: a value, or a pointer to one. */
  datatype Subject = Direct(v: Value) | Pointer(target: Option<Value>)

  /** The entry points dereference a pointer exactly once. */
  function Deref(raw: Subject): (v: Value)
    ensures raw.Direct? ==> v == raw.v
    ensures raw.Pointer? ==> (v == VInvalid <==> raw.target == None || raw.target == Some(VInvalid))
  {
    match raw
    case Direct(v) => v
    case Pointer(Some(v)) => v
    case Pointer(None) => VInvalid
  }

  /** reflect.Slice or reflect.Array. */
  predicate IsSeqKind(v: Value)
  {
    v.VSlice? || v.VNilSlice? || v.VArray?
  }

  /** reflect.Map. */
  predicate IsMapKind(v: Value)
  {
    v.VMap? || v.VNilMap?
  }

  /** The kinds on which `IsNil` does not panic. */
  predicate CanBeNil(v: Value)
  {
    v.VSlice? || v.VNilSlice? || v.VMap? || v.VNilMap? || v.VIface? || v.VRef?
  }

  function IsNil(v: Value): (nil: bool)
    requires CanBeNil(v)
    ensures v.VSlice? || v.VMap? ==> !nil
    ensures v.VNilSlice? || v.VNilMap? ==> nil
  {
    v.VNilSlice? || v.VNilMap? || (v.VIface? && v.holdsNil) || (v.VRef? && v.isNil)
  }

  /** The kinds on which `Len` does not panic. */
  predicate HasLen(v: Value)
  {
    IsSeqKind(v) || IsMapKind(v) || v.VStr?
  }

  function Length(v: Value): (n: nat)
    requires HasLen(v)
    ensures IsSeqKind(v) && !v.VNilSlice? ==> n == |v.elems|
    ensures v.VNilSlice? || v.VNilMap? ==> n == 0
    ensures v.VMap? ==> n == |v.entries|
    ensures v.VStr? ==> n == |v.s|
  {
    match v
    case VSlice(es) => |es|
    case VArray(es) => |es|
    case VMap(kvs) => |kvs|
    case VStr(s) => |s|
    case _ => 0
  }

  /** An element of the allowed-values parameter of `In`. */
  datatype Elem =
    | EStr(s: string)                     // a string element
    | EInt(width: IntWidth, i: int)       // a signed integer element
    | EIfaceStr(s: string)                // an interface element holding a value of the predeclared type string
    | EIfaceInt(width: IntWidth, i: int)  // an interface element holding an int, int8, int16, int32 or int64
    | EIfaceOther                         // an interface element holding anything else, named string and integer types included
    | EOther                              // an element of any other kind

  /** The allowed-values parameter: a slice or array, or anything else. */
  datatype Param = PSeq(elems: seq<Elem>) | PNotSeq
}

/** The library calls the checkers make, passed in as parameters. */
module Foreign {

  /** Whether `time.Parse(layout, value)` succeeds. */
  type TimeParse = (string, string) -> bool

  /** The outcome of `regexp.MatchString(pattern, value)`: an error for a
      pattern that does not compile, else whether it matched. */
  datatype MatchOutcome = BadPattern | Matched | NoMatch

  type MatchString = (string, string) -> MatchOutcome
}
