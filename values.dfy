/** The value graph the editor exposes, as the reflection calls of the engine
    see it: a finite tree of scalars, structs, arrays, slices, pointers and
    interfaces.  A position in the tree is a sequence of steps from the root;
    the engine's "set through a reflect.Value" is a replacement of the subtree
    at such a position. */
module Values {
  import opened Conv

  /** The reflect kinds the engine tells apart; `OtherKind` stands for maps,
      channels, functions and the other kinds it has no case for. */
  datatype Kind =
    | IntKind | UintKind | FloatKind | BoolKind | StringKind
    | StructKind | ArrayKind | SliceKind | PtrKind | InterfaceKind
    | OtherKind(name: string)

  datatype Field = Field(name: string, value: Value)

  /** `bits` is the width of an integer or float type (8, 16, 32 or 64).
      A float's `repr` is its bit pattern, which the model never inspects.
      A slice is its header: the backing store (whose length is the capacity),
      the length, and the zero value of its element type. */
  datatype Value =
    | Int(bits: nat, i: int)
    | Uint(bits: nat, u: nat)
    | Float(bits: nat, repr: nat)
    | Bool(b: bool)
    | Str(s: string)
    | Struct(typeName: string, fields: seq<Field>)
    | Array(elemType: string, elems: seq<Value>)
    | Slice(elemType: string, zero: Value, backing: seq<Value>, len: nat)
    | Ptr(target: Option<Value>)
    | Iface(target: Option<Value>)
    | Other(kindName: string)
  {
    function Kind(): Kind {
      match this
      case Int(_, _) => IntKind
      case Uint(_, _) => UintKind
      case Float(_, _) => FloatKind
      case Bool(_) => BoolKind
      case Str(_) => StringKind
      case Struct(_, _) => StructKind
      case Array(_, _) => ArrayKind
      case Slice(_, _, _, _) => SliceKind
      case Ptr(_) => PtrKind
      case Iface(_) => InterfaceKind
      case Other(k) => OtherKind(k)
    }

    predicate IsScalar() {
      Int? || Uint? || Float? || Bool? || Str?
    }

    /** The elements a slice shows: the first `len` slots of its backing. */
    function Visible(): (r: seq<Value>)
      requires Slice? && len <= |backing|
      ensures |r| == len
    {
      backing[..len]
    }
  }

  /** What Go's type system guarantees of every value it built: integers
      and floats have one of Go's widths and integers hold a number of that
      width, and a slice's length is at most its capacity. */
  predicate WellFormed(v: Value) {
    match v
    case Int(bits, i) => IsWidth(bits) && -(SignedLimit(bits) as int) <= i < SignedLimit(bits)
    case Uint(bits, u) => IsWidth(bits) && u < UnsignedLimit(bits)
    case Float(bits, _) => bits in {32, 64}
    case Struct(_, fields) => forall i :: 0 <= i < |fields| ==> WellFormed(fields[i].value)
    case Array(_, elems) => forall i :: 0 <= i < |elems| ==> WellFormed(elems[i])
    case Slice(_, zero, backing, len) =>
      len <= |backing| && WellFormed(zero) &&
      forall i :: 0 <= i < |backing| ==> WellFormed(backing[i])
    case Ptr(t) => t.Some? ==> WellFormed(t.value)
    case Iface(t) => t.Some? ==> WellFormed(t.value)
    case _ => true
  }

  /** One step from a value to a child: through a pointer or interface, to
      the field at a position, or to the element at an index. */
  datatype Step = Deref | FieldStep(i: nat) | ElemStep(i: nat)

  /** The child a step reaches, if the value has it.  Slice elements stop at
      the length, as `reflect.Value.Index` does. */
  function Child(v: Value, step: Step): (r: Option<Value>)
    ensures r.Some? && WellFormed(v) ==> WellFormed(r.value)
  {
    match step
    case Deref =>
      if (v.Ptr? || v.Iface?) && v.target.Some? then Some(v.target.value) else None
    case FieldStep(i) =>
      if v.Struct? && i < |v.fields| then Some(v.fields[i].value) else None
    case ElemStep(i) =>
      if v.Array? && i < |v.elems| then Some(v.elems[i])
      else if v.Slice? && i < v.len && i < |v.backing| then Some(v.backing[i])
      else None
  }

  /** `v` with the child that `step` reaches replaced by `c`. */
  function Replace(v: Value, step: Step, c: Value): (r: Value)
    requires Child(v, step).Some?
    ensures Child(r, step) == Some(c)
    ensures forall s :: s != step ==> Child(r, s) == Child(v, s)
    ensures r.Kind() == v.Kind()
    ensures v.Struct? ==>
      r.typeName == v.typeName && |r.fields| == |v.fields| &&
      forall k :: 0 <= k < |v.fields| ==> r.fields[k].name == v.fields[k].name
    ensures v.Array? ==> r.elemType == v.elemType && |r.elems| == |v.elems|
    ensures v.Slice? ==>
      r.elemType == v.elemType && r.zero == v.zero && r.len == v.len &&
      |r.backing| == |v.backing| &&
      forall k :: 0 <= k < |v.backing| && step != ElemStep(k) ==> r.backing[k] == v.backing[k]
    ensures WellFormed(v) && WellFormed(c) ==> WellFormed(r)
  {
    match step
    case Deref => if v.Ptr? then Ptr(Some(c)) else Iface(Some(c))
    case FieldStep(i) => v.(fields := v.fields[i := Field(v.fields[i].name, c)])
    case ElemStep(i) =>
      if v.Array? then v.(elems := v.elems[i := c]) else v.(backing := v.backing[i := c])
  }

  /** The value at a position, if the position exists. */
  function ValueAt(v: Value, loc: seq<Step>): Option<Value>
    decreases |loc|
  {
    if loc == [] then Some(v)
    else
      match Child(v, loc[0])
      case None => None
      case Some(c) => ValueAt(c, loc[1..])
  }

  /** `v` with the subtree at `loc` replaced by `x`; `v` itself when the
      position does not exist. */
  function UpdateAt(v: Value, loc: seq<Step>, x: Value): Value
    decreases |loc|
  {
    if loc == [] then x
    else
      match Child(v, loc[0])
      case None => v
      case Some(c) => Replace(v, loc[0], UpdateAt(c, loc[1..], x))
  }

  /** After an update, the position holds the new value. */
  lemma {:induction false} UpdateAtValueAt(v: Value, loc: seq<Step>, x: Value)
    requires ValueAt(v, loc).Some?
    ensures ValueAt(UpdateAt(v, loc, x), loc) == Some(x)
    decreases |loc|
  {
    if loc != [] {
      var c := Child(v, loc[0]).value;
      UpdateAtValueAt(c, loc[1..], x);
    }
  }

  /** Two positions diverge when neither is a prefix of the other. */
  predicate Diverge(l1: seq<Step>, l2: seq<Step>) {
    exists k :: 0 <= k < |l1| && k < |l2| && l1[..k] == l2[..k] && l1[k] != l2[k]
  }

  /** An update changes nothing at a position that diverges from its own. */
  lemma {:induction false} UpdateAtElsewhere(v: Value, l1: seq<Step>, l2: seq<Step>, x: Value)
    requires ValueAt(v, l1).Some?
    requires Diverge(l1, l2)
    ensures ValueAt(UpdateAt(v, l1, x), l2) == ValueAt(v, l2)
    decreases |l1|
  {
    var k :| 0 <= k < |l1| && k < |l2| && l1[..k] == l2[..k] && l1[k] != l2[k];
    var c := Child(v, l1[0]).value;
    if k == 0 {
      assert Child(UpdateAt(v, l1, x), l2[0]) == Child(v, l2[0]);
    } else {
      assert l1[0] == l2[0] by { assert l1[..k][0] == l2[..k][0]; }
      assert l1[1..][..k - 1] == l1[..k][1..];
      assert l2[1..][..k - 1] == l2[..k][1..];
      UpdateAtElsewhere(c, l1[1..], l2[1..], x);
    }
  }

  /** Updating a well-formed tree with a well-formed value keeps it well-formed. */
  lemma {:induction false} UpdateAtWellFormed(v: Value, loc: seq<Step>, x: Value)
    requires WellFormed(v) && WellFormed(x)
    ensures WellFormed(UpdateAt(v, loc, x))
    decreases |loc|
  {
    if loc != [] {
      match Child(v, loc[0])
      case None =>
      case Some(c) => UpdateAtWellFormed(c, loc[1..], x);
    }
  }

  /** Every value reachable in a well-formed tree is well-formed. */
  lemma {:induction false} ValueAtWellFormed(v: Value, loc: seq<Step>)
    requires WellFormed(v) && ValueAt(v, loc).Some?
    ensures WellFormed(ValueAt(v, loc).value)
    decreases |loc|
  {
    if loc != [] {
      ValueAtWellFormed(Child(v, loc[0]).value, loc[1..]);
    }
  }

  /** Go exports a struct field whose name begins with an upper-case letter. */
  predicate Exported(name: string) {
    name != [] && 'A' <= name[0] <= 'Z'
  }

  /** A located value with the two reflect flags that decide whether it may
      be set: whether it is addressable, and whether it was reached through
      an unexported field. */
  datatype Handle = Handle(loc: seq<Step>, value: Value, addressable: bool, readOnly: bool) {
    predicate CanSet() {
      addressable && !readOnly
    }
  }

  /** `reflect.ValueOf` of the editor's state: the root is not addressable. */
  function RootHandle(v: Value): (h: Handle)
    ensures !h.CanSet() && h.loc == [] && h.value == v
  {
    Handle([], v, false, false)
  }

  /** The position of the first field called `name`, or `|fields|`. */
  function FieldIndex(fields: seq<Field>, name: string): (i: nat)
    ensures i <= |fields|
    ensures i < |fields| ==> fields[i].name == name
    ensures forall j :: 0 <= j < i ==> fields[j].name != name
  {
    if fields == [] then 0
    else if fields[0].name == name then 0
    else 1 + FieldIndex(fields[1..], name)
  }
}
