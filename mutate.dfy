/** Locating the value a path names, and the operators that change it
    (mutate.go). */
module Mutation {
  import opened Conv
  import opened Values
  import opened Errors
  import opened Paths

  /* ---------------------------------------------------------------------
     The locator
     --------------------------------------------------------------------- */

  /** findValueToChange: one segment is consumed per struct, array or slice;
      a pointer or interface is stepped through without consuming one, unless
      the operator wants the pointer itself.  The flags of the child handle
      follow reflect: a pointer's target and a slice's element are
      addressable, an interface's content is not, and a field or array
      element is addressable when its parent is; an unexported field makes
      everything below it read-only. */
  function FindValueToChange(p: seq<Segment>, h: Handle, modifiesPtr: bool): (r: Result<Handle>)
    requires WellFormed(h.value)
    ensures r.Ok? ==> WellFormed(r.value.value)
    decreases |p|, h.value
  {
    if p == [] then Ok(h)
    else
      match h.value
      case Ptr(t) =>
        if modifiesPtr then Ok(h)
        else if t.None? then Err(NilDereference)
        else FindValueToChange(p, Handle(h.loc + [Deref], t.value, true, h.readOnly), modifiesPtr)
      case Iface(t) =>
        if modifiesPtr then Ok(h)
        else if t.None? then Err(NilDereference)
        else FindValueToChange(p, Handle(h.loc + [Deref], t.value, false, h.readOnly), modifiesPtr)
      case Struct(_, fields) =>
        if p[0].name == "" then Err(IndexOnStruct)
        else
          var i := FieldIndex(fields, p[0].name);
          if i == |fields| then Err(NoSuchField(p[0].name))
          else
            FindValueToChange(p[1..],
              Handle(h.loc + [FieldStep(i)], fields[i].value, h.addressable, h.readOnly || !Exported(p[0].name)),
              modifiesPtr)
      case Array(_, elems) =>
        if p[0].name != "" then Err(NameOnSequence(p[0].name))
        else if |elems| <= p[0].index then Err(IndexOutOfRange(p[0].index, |elems|))
        else if p[0].index < 0 then Err(Panic(NegativeIndex))
        else
          FindValueToChange(p[1..],
            Handle(h.loc + [ElemStep(p[0].index)], elems[p[0].index], h.addressable, h.readOnly),
            modifiesPtr)
      case Slice(_, _, backing, len) =>
        if p[0].name != "" then Err(NameOnSequence(p[0].name))
        else if len <= p[0].index then Err(IndexOutOfRange(p[0].index, len))
        else if p[0].index < 0 then Err(Panic(NegativeIndex))
        else
          FindValueToChange(p[1..],
            Handle(h.loc + [ElemStep(p[0].index)], backing[p[0].index], true, h.readOnly),
            modifiesPtr)
      case _ => Err(PathThroughKind(h.value.Kind()))
  }

  /** How many segments a sequence of steps consumes: every step but a
      dereference. */
  function Consumed(steps: seq<Step>): nat {
    if steps == [] then 0
    else (if steps[0].Deref? then 0 else 1) + Consumed(steps[1..])
  }

  /** `r` lies below `h`: its position extends `h`'s, and the value at the
      extra steps is the value `r` holds. */
  predicate FoundBelow(h: Handle, r: Handle) {
    |h.loc| <= |r.loc| && r.loc[..|h.loc|] == h.loc &&
    ValueAt(h.value, r.loc[|h.loc|..]) == Some(r.value) && WellFormed(r.value)
  }

  /** The steps from `h` down to `r` consume the segments of `p` one each, and
      a non-empty path ends on a field or element. */
  predicate ConsumesPath(p: seq<Segment>, h: Handle, r: Handle)
    requires |h.loc| <= |r.loc|
  {
    Consumed(r.loc[|h.loc|..]) == |p| && (p != [] ==> r.loc != [] && !r.loc[|r.loc| - 1].Deref?)
  }

  /** One move of the locator, from `h` to `h'` by `step`, carries both facts
      about the end of the walk from `h'` back to `h`. */
  lemma LocateStep(p: seq<Segment>, h: Handle, m: bool, p': seq<Segment>, h': Handle, step: Step, r: Handle)
    requires h'.loc == h.loc + [step] && Child(h.value, step) == Some(h'.value)
    requires p != [] && (if step.Deref? then p' == p else p' == p[1..])
    requires p' == [] ==> r == h'
    requires FoundBelow(h', r)
    ensures FoundBelow(h, r)
    ensures ConsumesPath(p', h', r) ==> ConsumesPath(p, h, r)
  {
    assert r.loc[..|h'.loc|][..|h.loc|] == h'.loc[..|h.loc|];
    assert r.loc[..|h'.loc|][|h.loc|] == h'.loc[|h.loc|];
    var rest := r.loc[|h.loc|..];
    assert rest[0] == step && rest[1..] == r.loc[|h'.loc|..];
  }

  /** What the locator finds is where it says it is, below the handle it
      started from.  When it dereferences freely, the steps it took consume
      exactly the segments of the path, and a non-empty path ends on a field
      or an element, never on a dereference. */
  lemma {:induction false} LocateFound(p: seq<Segment>, h: Handle, m: bool)
    requires WellFormed(h.value) && FindValueToChange(p, h, m).Ok?
    ensures FoundBelow(h, FindValueToChange(p, h, m).value)
    ensures !m ==> ConsumesPath(p, h, FindValueToChange(p, h, m).value)
    decreases |p|, h.value
  {
    var r := FindValueToChange(p, h, m).value;
    if p == [] {
      assert r == h && r.loc[|h.loc|..] == [];
    } else {
      match h.value
      case Ptr(t) =>
        if !m {
          var h' := Handle(h.loc + [Deref], t.value, true, h.readOnly);
          LocateFound(p, h', m);
          LocateStep(p, h, m, p, h', Deref, r);
        }
      case Iface(t) =>
        if !m {
          var h' := Handle(h.loc + [Deref], t.value, false, h.readOnly);
          LocateFound(p, h', m);
          LocateStep(p, h, m, p, h', Deref, r);
        }
      case Struct(_, fields) =>
        var i := FieldIndex(fields, p[0].name);
        var h' := Handle(h.loc + [FieldStep(i)], fields[i].value, h.addressable, h.readOnly || !Exported(p[0].name));
        LocateFound(p[1..], h', m);
        LocateStep(p, h, m, p[1..], h', FieldStep(i), r);
      case Array(_, elems) =>
        var h' := Handle(h.loc + [ElemStep(p[0].index)], elems[p[0].index], h.addressable, h.readOnly);
        LocateFound(p[1..], h', m);
        LocateStep(p, h, m, p[1..], h', ElemStep(p[0].index), r);
      case Slice(_, _, backing, _) =>
        var h' := Handle(h.loc + [ElemStep(p[0].index)], backing[p[0].index], true, h.readOnly);
        LocateFound(p[1..], h', m);
        LocateStep(p, h, m, p[1..], h', ElemStep(p[0].index), r);
    }
  }

  lemma {:induction false} FieldIndexSameNames(f1: seq<Field>, f2: seq<Field>, name: string)
    requires |f1| == |f2| && forall j :: 0 <= j < |f1| ==> f1[j].name == f2[j].name
    ensures FieldIndex(f1, name) == FieldIndex(f2, name)
    decreases |f1|
  {
    if f1 != [] {
      FieldIndexSameNames(f1[1..], f2[1..], name);
    }
  }

  /** `v` with the value that the walk from `h` to `r` reached replaced by `x`. */
  function Rewritten(h: Handle, r: Handle, x: Value): Value
    requires |h.loc| <= |r.loc|
  {
    UpdateAt(h.value, r.loc[|h.loc|..], x)
  }

  /** Locating again after the located value was replaced walks the same way
      and finds the replacement: what an operator writes is what the same
      path reads afterwards. */
  lemma {:induction false} RelocateAfterUpdate(p: seq<Segment>, h: Handle, x: Value)
    requires WellFormed(h.value) && WellFormed(x)
    requires FindValueToChange(p, h, false).Ok?
    ensures FoundBelow(h, FindValueToChange(p, h, false).value)
    ensures var r := FindValueToChange(p, h, false).value;
      WellFormed(Rewritten(h, r, x)) &&
      FindValueToChange(p, h.(value := Rewritten(h, r, x)), false) == Ok(r.(value := x))
    decreases |p|, h.value, 2
  {
    LocateFound(p, h, false);
    var r := FindValueToChange(p, h, false).value;
    UpdateAtWellFormed(h.value, r.loc[|h.loc|..], x);
    if p == [] {
      assert r == h && r.loc[|h.loc|..] == [];
    } else if h.value.Ptr? || h.value.Iface? {
      RelocateDeref(p, h, x);
    } else if h.value.Struct? {
      RelocateField(p, h, x);
    } else {
      RelocateElem(p, h, x);
    }
  }

  lemma {:induction false} RelocateDeref(p: seq<Segment>, h: Handle, x: Value)
    requires WellFormed(h.value) && WellFormed(x) && p != [] && (h.value.Ptr? || h.value.Iface?)
    requires FindValueToChange(p, h, false).Ok?
    ensures var r := FindValueToChange(p, h, false).value;
      |h.loc| <= |r.loc| && WellFormed(Rewritten(h, r, x)) &&
      FindValueToChange(p, h.(value := Rewritten(h, r, x)), false) == Ok(r.(value := x))
    decreases |p|, h.value, 1
  {
    var r := FindValueToChange(p, h, false).value;
    LocateFound(p, h, false);
    UpdateAtWellFormed(h.value, r.loc[|h.loc|..], x);
    var t := h.value.target;
    var h' := Handle(h.loc + [Deref], t.value, h.value.Ptr?, h.readOnly);
    RelocateStep(p, h, p, h', Deref, r, x);
    var v' := Rewritten(h, r, x);
    assert v' == if h.value.Ptr? then Ptr(Some(Rewritten(h', r, x))) else Iface(Some(Rewritten(h', r, x)));
    assert FindValueToChange(p, h.(value := v'), false) == FindValueToChange(p, h'.(value := Rewritten(h', r, x)), false);
  }

  lemma {:induction false} RelocateField(p: seq<Segment>, h: Handle, x: Value)
    requires WellFormed(h.value) && WellFormed(x) && p != [] && h.value.Struct?
    requires FindValueToChange(p, h, false).Ok?
    ensures var r := FindValueToChange(p, h, false).value;
      |h.loc| <= |r.loc| && WellFormed(Rewritten(h, r, x)) &&
      FindValueToChange(p, h.(value := Rewritten(h, r, x)), false) == Ok(r.(value := x))
    decreases |p|, h.value, 1
  {
    var r := FindValueToChange(p, h, false).value;
    LocateFound(p, h, false);
    UpdateAtWellFormed(h.value, r.loc[|h.loc|..], x);
    var fields := h.value.fields;
    var i := FieldIndex(fields, p[0].name);
    var h' := Handle(h.loc + [FieldStep(i)], fields[i].value, h.addressable, h.readOnly || !Exported(p[0].name));
    RelocateStep(p, h, p[1..], h', FieldStep(i), r, x);
    var v' := Rewritten(h, r, x);
    FieldIndexSameNames(fields, v'.fields, p[0].name);
    assert v'.fields[i].value == Rewritten(h', r, x);
    assert FindValueToChange(p, h.(value := v'), false) == FindValueToChange(p[1..], h'.(value := Rewritten(h', r, x)), false);
  }

  lemma {:induction false} RelocateElem(p: seq<Segment>, h: Handle, x: Value)
    requires WellFormed(h.value) && WellFormed(x) && p != [] && (h.value.Array? || h.value.Slice?)
    requires FindValueToChange(p, h, false).Ok?
    ensures var r := FindValueToChange(p, h, false).value;
      |h.loc| <= |r.loc| && WellFormed(Rewritten(h, r, x)) &&
      FindValueToChange(p, h.(value := Rewritten(h, r, x)), false) == Ok(r.(value := x))
    decreases |p|, h.value, 1
  {
    var r := FindValueToChange(p, h, false).value;
    LocateFound(p, h, false);
    UpdateAtWellFormed(h.value, r.loc[|h.loc|..], x);
    var k := p[0].index;
    var v' := Rewritten(h, r, x);
    if h.value.Array? {
      var h' := Handle(h.loc + [ElemStep(k)], h.value.elems[k], h.addressable, h.readOnly);
      RelocateStep(p, h, p[1..], h', ElemStep(k), r, x);
      assert v'.elems == h.value.elems[k := Rewritten(h', r, x)];
      assert FindValueToChange(p, h.(value := v'), false) == FindValueToChange(p[1..], h'.(value := Rewritten(h', r, x)), false);
    } else {
      var h' := Handle(h.loc + [ElemStep(k)], h.value.backing[k], true, h.readOnly);
      RelocateStep(p, h, p[1..], h', ElemStep(k), r, x);
      assert v'.backing == h.value.backing[k := Rewritten(h', r, x)] && v'.len == h.value.len;
      assert FindValueToChange(p, h.(value := v'), false) == FindValueToChange(p[1..], h'.(value := Rewritten(h', r, x)), false);
    }
  }

  /** One move of the locator, seen after the rewrite: the rewritten value at
      `h` is the old one with the rewritten child in place. */
  lemma {:induction false} RelocateStep(p: seq<Segment>, h: Handle, p': seq<Segment>, h': Handle, step: Step, r: Handle, x: Value)
    requires WellFormed(h.value) && WellFormed(h'.value) && WellFormed(x)
    requires h'.loc == h.loc + [step] && Child(h.value, step) == Some(h'.value)
    requires p != [] && (if step.Deref? then p' == p else p' == p[1..])
    requires FindValueToChange(p', h', false) == Ok(r)
    ensures |h.loc| <= |r.loc|
    ensures FoundBelow(h', r)
    ensures WellFormed(Rewritten(h', r, x))
    ensures Rewritten(h, r, x) == Replace(h.value, step, Rewritten(h', r, x))
    ensures FindValueToChange(p', h'.(value := Rewritten(h', r, x)), false) == Ok(r.(value := x))
    decreases |p'|, h'.value, 3
  {
    LocateFound(p', h', false);
    RelocateAfterUpdate(p', h', x);
    LocateStep(p, h, false, p', h', step, r);
    var rest := r.loc[|h.loc|..];
    assert rest[0] == step && rest[1..] == r.loc[|h'.loc|..];
  }

  /** The walk a path names, stated step by step and independently of the
      locator: a non-nil pointer or interface is passed through without
      consuming a segment; at a struct the next segment is a non-empty name
      and the step goes to the first field of that name; at an array or
      slice the next segment is an index (empty name) below the length and
      the step goes to that element.  Once the segments are used up the walk
      stops. */
  predicate Follows(v: Value, p: seq<Segment>, loc: seq<Step>)
    decreases |loc|
  {
    if loc == [] then p == []
    else
      p != [] && Child(v, loc[0]).Some? &&
      match loc[0]
      case Deref =>
        Follows(Child(v, loc[0]).value, p, loc[1..])
      case FieldStep(i) =>
        p[0].name != "" && i == FieldIndex(v.fields, p[0].name) &&
        Follows(Child(v, loc[0]).value, p[1..], loc[1..])
      case ElemStep(j) =>
        p[0].name == "" && j == p[0].index &&
        Follows(Child(v, loc[0]).value, p[1..], loc[1..])
  }

  /** Every walk the locator takes, dereferencing freely, is the walk the
      path names. */
  lemma {:induction false} LocateFollows(p: seq<Segment>, h: Handle)
    requires WellFormed(h.value) && FindValueToChange(p, h, false).Ok?
    ensures var r := FindValueToChange(p, h, false).value;
      |h.loc| <= |r.loc| && r.loc[..|h.loc|] == h.loc && Follows(h.value, p, r.loc[|h.loc|..])
    decreases |p|, h.value
  {
    var r := FindValueToChange(p, h, false).value;
    if p == [] {
      assert r == h && r.loc[|h.loc|..] == [];
    } else {
      var step: Step;
      var h': Handle;
      var p': seq<Segment>;
      match h.value {
      case Ptr(t) =>
        step, p' := Deref, p;
        h' := Handle(h.loc + [Deref], t.value, true, h.readOnly);
      case Iface(t) =>
        step, p' := Deref, p;
        h' := Handle(h.loc + [Deref], t.value, false, h.readOnly);
      case Struct(_, fields) =>
        var i := FieldIndex(fields, p[0].name);
        step, p' := FieldStep(i), p[1..];
        h' := Handle(h.loc + [step], fields[i].value, h.addressable, h.readOnly || !Exported(p[0].name));
      case Array(_, elems) =>
        step, p' := ElemStep(p[0].index), p[1..];
        h' := Handle(h.loc + [step], elems[p[0].index], h.addressable, h.readOnly);
      case Slice(_, _, backing, _) =>
        step, p' := ElemStep(p[0].index), p[1..];
        h' := Handle(h.loc + [step], backing[p[0].index], true, h.readOnly);
      }
      assert FindValueToChange(p, h, false) == FindValueToChange(p', h', false);
      assert Child(h.value, step) == Some(h'.value);
      LocateFollows(p', h');
      var rest := r.loc[|h.loc|..];
      assert r.loc[..|h'.loc|][..|h.loc|] == h'.loc[..|h.loc|];
      assert r.loc[..|h'.loc|][|h.loc|] == h'.loc[|h.loc|];
      assert rest[0] == step && rest[1..] == r.loc[|h'.loc|..];
    }
  }

  /** Every walk the path names is the one the locator takes: it succeeds,
      reports that position, and finds the value there. */
  lemma {:induction false} FollowsLocates(p: seq<Segment>, h: Handle, loc: seq<Step>)
    requires WellFormed(h.value) && Follows(h.value, p, loc)
    ensures FindValueToChange(p, h, false).Ok?
    ensures FindValueToChange(p, h, false).value.loc == h.loc + loc
    ensures ValueAt(h.value, loc) == Some(FindValueToChange(p, h, false).value.value)
    decreases |loc|
  {
    if loc == [] {
      assert h.loc + loc == h.loc;
    } else {
      var c := Child(h.value, loc[0]).value;
      var h': Handle;
      var p': seq<Segment>;
      match loc[0] {
      case Deref =>
        h', p' := Handle(h.loc + [Deref], c, h.value.Ptr?, h.readOnly), p;
      case FieldStep(i) =>
        h', p' := Handle(h.loc + [loc[0]], c, h.addressable, h.readOnly || !Exported(p[0].name)), p[1..];
      case ElemStep(j) =>
        h', p' := Handle(h.loc + [loc[0]], c, h.value.Slice? || h.addressable, h.readOnly), p[1..];
      }
      assert FindValueToChange(p, h, false) == FindValueToChange(p', h', false);
      FollowsLocates(p', h', loc[1..]);
      assert h.loc + loc == h'.loc + loc[1..];
    }
  }

  /** The locator, dereferencing freely from the state's root, succeeds at a
      position exactly when the path names the walk to that position. */
  lemma LocatorFindsNamedValue(v: Value, p: seq<Segment>, loc: seq<Step>)
    requires WellFormed(v)
    ensures (FindValueToChange(p, RootHandle(v), false).Ok? &&
             FindValueToChange(p, RootHandle(v), false).value.loc == loc) <==> Follows(v, p, loc)
    ensures Follows(v, p, loc) ==> ValueAt(v, loc) == Some(FindValueToChange(p, RootHandle(v), false).value.value)
  {
    if FindValueToChange(p, RootHandle(v), false).Ok? {
      LocateFollows(p, RootHandle(v));
      assert FindValueToChange(p, RootHandle(v), false).value.loc[|RootHandle(v).loc|..] ==
        FindValueToChange(p, RootHandle(v), false).value.loc;
    }
    if Follows(v, p, loc) {
      FollowsLocates(p, RootHandle(v), loc);
      assert RootHandle(v).loc + loc == loc;
    }
  }

  /* ---------------------------------------------------------------------
     The operators
     --------------------------------------------------------------------- */

  /** The operators a request can name: set (with the new value as text),
      grow and shrink. */
  datatype Operator = SetOp(newValue: string) | GrowOp | ShrinkOp

  /** ModifiesPointer of the three operators: none of them acts on a pointer
      itself, so the locator always looks through pointers for them. */
  function ModifiesPointer(op: Operator): bool {
    match op
    case SetOp(_) => false
    case GrowOp => false
    case ShrinkOp => false
  }

  /** With any of the three operators, a located value is reached by
      consuming every segment, and a non-empty path never stops on a
      dereference. */
  lemma OperatorsLookThroughPointers(op: Operator, p: seq<Segment>, v: Value)
    requires WellFormed(v) && FindValueToChange(p, RootHandle(v), ModifiesPointer(op)).Ok?
    ensures var r := FindValueToChange(p, RootHandle(v), ModifiesPointer(op)).value;
      Consumed(r.loc) == |p| && (p != [] ==> !r.loc[|r.loc| - 1].Deref?) &&
      Follows(v, p, r.loc) && ValueAt(v, r.loc) == Some(r.value)
  {
    LocateFound(p, RootHandle(v), ModifiesPointer(op));
    var r := FindValueToChange(p, RootHandle(v), ModifiesPointer(op)).value;
    LocatorFindsNamedValue(v, p, r.loc);
  }

  /** operatorSet.Do: text is parsed for integers, unsigned integers, floats
      and bools (the 64-bit result is then narrowed to the field's width, as
      reflect's Set* do), copied for strings, and refused for every other
      kind.  A value that parses but cannot be set makes reflect panic. */
  function DoSet(newValue: string, h: Handle, parseFloat: string -> Option<nat>): Result<Value>
    requires WellFormed(h.value)
  {
    match h.value
    case Int(bits, _) =>
      (match ParseInt64(newValue)
       case None => Err(ParseFailure(newValue))
       case Some(x) => if h.CanSet() then Ok(Int(bits, WrapSigned(x, bits))) else Err(Panic(Unsettable)))
    case Uint(bits, _) =>
      (match ParseUint64(newValue)
       case None => Err(ParseFailure(newValue))
       case Some(x) => if h.CanSet() then Ok(Uint(bits, WrapUnsigned(x, bits))) else Err(Panic(Unsettable)))
    case Float(bits, _) =>
      (match parseFloat(newValue)
       case None => Err(ParseFailure(newValue))
       case Some(f) => if h.CanSet() then Ok(Float(bits, f)) else Err(Panic(Unsettable)))
    case Str(_) =>
      if h.CanSet() then Ok(Str(newValue)) else Err(Panic(Unsettable))
    case Bool(_) =>
      (match ParseBool(newValue)
       case None => Err(ParseFailure(newValue))
       case Some(b) => if h.CanSet() then Ok(Bool(b)) else Err(Panic(Unsettable)))
    case _ => Err(CannotSet(h.value.Kind()))
  }

  /** What set does, kind by kind. */
  lemma SetOutcomes(newValue: string, h: Handle, parseFloat: string -> Option<nat>)
    requires WellFormed(h.value)
    ensures var r := DoSet(newValue, h, parseFloat);
      (r.Ok? ==> r.value.Kind() == h.value.Kind() && WellFormed(r.value) && h.CanSet()) &&
      (!h.value.IsScalar() ==> r == Err(CannotSet(h.value.Kind()))) &&
      (h.value.Str? ==> r == if h.CanSet() then Ok(Str(newValue)) else Err(Panic(Unsettable))) &&
      (h.value.Int? ==>
        (r.Ok? <==> ParseInt64(newValue).Some? && h.CanSet()) &&
        (ParseInt64(newValue).None? ==> r == Err(ParseFailure(newValue))) &&
        (r.Ok? && -(SignedLimit(h.value.bits) as int) <= ParseInt64(newValue).value < SignedLimit(h.value.bits) ==>
           r.value.i == ParseInt64(newValue).value)) &&
      (h.value.Uint? ==>
        (r.Ok? <==> ParseUint64(newValue).Some? && h.CanSet()) &&
        (ParseUint64(newValue).None? ==> r == Err(ParseFailure(newValue))) &&
        (r.Ok? && ParseUint64(newValue).value < UnsignedLimit(h.value.bits) ==> r.value.u == ParseUint64(newValue).value)) &&
      (h.value.Bool? ==>
        (r.Ok? <==> ParseBool(newValue).Some? && h.CanSet()) &&
        (r.Ok? ==> r.value.b == ParseBool(newValue).value))
  {
  }

  /** Setting a scalar to the text the renderer shows for it changes
      nothing. */
  lemma SetRenderedTextIsIdentity(h: Handle, parseFloat: string -> Option<nat>)
    requires WellFormed(h.value) && h.CanSet()
    requires h.value.Int? || h.value.Uint? || h.value.Bool? || h.value.Str?
    ensures h.value.Int? ==> DoSet(FormatInt(h.value.i), h, parseFloat) == Ok(h.value)
    ensures h.value.Uint? ==> DoSet(FormatNat(h.value.u), h, parseFloat) == Ok(h.value)
    ensures h.value.Bool? ==> DoSet(FormatBool(h.value.b), h, parseFloat) == Ok(h.value)
    ensures h.value.Str? ==> DoSet(h.value.s, h, parseFloat) == Ok(h.value)
  {
    match h.value
    case Int(bits, i) => ParseInt64FormatInt(i);
    case Uint(bits, u) => ParseUint64FormatNat(u);
    case Bool(b) => ParseBoolFormatBool(b);
    case Str(_) =>
  }

  /** A backing store of capacity `capacity` holding the slice's visible
      elements, every other slot the element type's zero value
      (reflect.MakeSlice followed by reflect.Copy). */
  function Reallocated(s: Value, capacity: nat): (r: seq<Value>)
    requires s.Slice? && s.len <= |s.backing| && s.len <= capacity
    ensures |r| == capacity
    ensures r[..s.len] == s.Visible()
    ensures forall i :: s.len <= i < capacity ==> r[i] == s.zero
  {
    s.backing[..s.len] + seq(capacity - s.len, _ => s.zero)
  }

  /** doubleCapacity: the slice copied into a store of twice its capacity. */
  function DoubleCapacity(s: Value): (r: seq<Value>)
    requires s.Slice? && s.len <= |s.backing|
    ensures |r| == 2 * |s.backing|
  {
    Reallocated(s, 2 * |s.backing|)
  }

  /** operatorGrow.Do as written: a full slice is first moved to a store of
      double capacity, then the length is raised by one.  Doubling a
      capacity of 0 gives 0, and then raising the length makes reflect
      panic; and when there was room, the slot the new length exposes keeps
      whatever it held. */
  function GrowAsWritten(h: Handle): Result<Value>
    requires WellFormed(h.value)
  {
    match h.value
    case Slice(t, z, backing, len) =>
      if !h.CanSet() then Err(Panic(Unsettable))
      else
        var b := if len >= |backing| then DoubleCapacity(h.value) else backing;
        if len + 1 > |b| then Err(Panic(LengthOutOfRange))
        else Ok(Slice(t, z, b, len + 1))
    case _ => Err(CannotGrow(h.value.Kind()))
  }

  /** Grow as written keeps the elements and adds one; the added one is the
      zero value exactly when the store was full (and so reallocated) or
      the exposed slot already held the zero value. */
  lemma GrowAsWrittenOutcome(h: Handle)
    requires WellFormed(h.value) && h.value.Slice? && h.CanSet() && |h.value.backing| > 0
    ensures var r := GrowAsWritten(h);
      var s := h.value;
      r.Ok? && r.value.Slice? && r.value.len == s.len + 1 && WellFormed(r.value) &&
      r.value.Visible()[..s.len] == s.Visible() &&
      (r.value.Visible()[s.len] == s.zero <==> s.len == |s.backing| || s.backing[s.len] == s.zero)
  {
    var s := h.value;
    var r := GrowAsWritten(h).value;
    assert r.Visible()[..s.len] == r.backing[..s.len];
  }

  /** Grow as written on a slice of capacity 0 panics. */
  lemma GrowAsWrittenPanicsOnZeroCapacity(h: Handle)
    requires WellFormed(h.value) && h.value.Slice? && h.CanSet() && h.value.backing == []
    ensures GrowAsWritten(h) == Err(Panic(LengthOutOfRange))
  {
  }

  /** After a shrink, grow as written brings the removed element back
      instead of the zero value: [2, 3, 4] shrunk to [2, 3] grows to
      [2, 3, 4], not [2, 3, 0]. */
  lemma GrowAsWrittenAfterShrinkReexposes()
    ensures var s := Slice("int", Int(64, 0), [Int(64, 2), Int(64, 3), Int(64, 4)], 3);
      var h := Handle([], s, true, false);
      Shrink(h) == Ok(s.(len := 2)) &&
      GrowAsWritten(h.(value := s.(len := 2))) == Ok(s) &&
      s.Visible()[2] != s.zero
  {
  }

  /** The capacity grow moves a full slice to: double, and at least 1. */
  function GrownCapacity(capacity: nat): (r: nat)
    ensures r > capacity
  {
    if capacity == 0 then 1 else 2 * capacity
  }

  /** Grow as its documentation promises: one more element, holding the zero
      value of the element type, and room for it even at capacity 0. */
  function Grow(h: Handle): Result<Value>
    requires WellFormed(h.value)
  {
    match h.value
    case Slice(t, z, backing, len) =>
      if !h.CanSet() then Err(Panic(Unsettable))
      else
        var b := if len >= |backing| then Reallocated(h.value, GrownCapacity(|backing|)) else backing;
        Ok(Slice(t, z, b[len := z], len + 1))
    case _ => Err(CannotGrow(h.value.Kind()))
  }

  /** Grow appends exactly the zero value to a slice it may set, keeps the
      capacity unless the slice was full, and refuses every other kind. */
  lemma GrowAppendsZero(h: Handle)
    requires WellFormed(h.value)
    ensures !h.value.Slice? ==> Grow(h) == Err(CannotGrow(h.value.Kind()))
    ensures h.value.Slice? && !h.CanSet() ==> Grow(h) == Err(Panic(Unsettable))
    ensures h.value.Slice? && h.CanSet() ==>
      Grow(h).Ok? && Grow(h).value.Slice? && WellFormed(Grow(h).value) &&
      Grow(h).value.Visible() == h.value.Visible() + [h.value.zero] &&
      (h.value.len < |h.value.backing| ==> |Grow(h).value.backing| == |h.value.backing|)
  {
    if h.value.Slice? && h.CanSet() {
      var s := h.value;
      var g := Grow(h).value;
      assert g.Visible() == s.Visible() + [s.zero] by {
        assert g.backing[..s.len] == s.Visible();
      }
    }
  }

  /** operatorShrink.Do: one element fewer, the store and capacity
      untouched; a no-op on an empty slice; refused for other kinds. */
  function Shrink(h: Handle): Result<Value>
    requires WellFormed(h.value)
  {
    match h.value
    case Slice(t, z, backing, len) =>
      if len == 0 then Ok(h.value)
      else if !h.CanSet() then Err(Panic(Unsettable))
      else Ok(Slice(t, z, backing, len - 1))
    case _ => Err(CannotShrink(h.value.Kind()))
  }

  /** Shrink drops exactly the last element and keeps the store. */
  lemma ShrinkDropsLast(h: Handle)
    requires WellFormed(h.value)
    ensures !h.value.Slice? ==> Shrink(h) == Err(CannotShrink(h.value.Kind()))
    ensures h.value.Slice? && h.value.len == 0 ==> Shrink(h) == Ok(h.value)
    ensures h.value.Slice? && h.value.len > 0 && h.CanSet() ==>
      Shrink(h).Ok? && Shrink(h).value.Slice? && WellFormed(Shrink(h).value) &&
      Shrink(h).value.Visible() == h.value.Visible()[..h.value.len - 1] &&
      Shrink(h).value.backing == h.value.backing
  {
  }

  /** Shrink undoes grow: the slice shows the same elements again. */
  lemma ShrinkUndoesGrow(h: Handle)
    requires WellFormed(h.value) && h.value.Slice? && h.CanSet()
    ensures Grow(h).Ok? && WellFormed(Grow(h).value)
    ensures var g := h.(value := Grow(h).value);
      Shrink(g).Ok? && Shrink(g).value.Slice? && Shrink(g).value.Visible() == h.value.Visible()
  {
    GrowAppendsZero(h);
    var g := h.(value := Grow(h).value);
    ShrinkDropsLast(g);
    assert (h.value.Visible() + [h.value.zero])[..h.value.len] == h.value.Visible();
  }

  /** The corrected grow after a shrink shows the zero value, not the
      element the shrink removed. */
  lemma GrowAfterShrinkShowsZero(h: Handle)
    requires WellFormed(h.value) && h.value.Slice? && h.CanSet() && h.value.len > 0
    ensures Shrink(h).Ok? && WellFormed(Shrink(h).value)
    ensures var s := h.(value := Shrink(h).value);
      Grow(s).Ok? && Grow(s).value.Slice? &&
      Grow(s).value.Visible() == h.value.Visible()[..h.value.len - 1] + [h.value.zero]
  {
    ShrinkDropsLast(h);
    GrowAppendsZero(h.(value := Shrink(h).value));
  }

  /** Grow as written and the corrected grow give the same outcome except in
      the two cases the corrected one repairs: a settable slice of capacity
      0, and a settable slice with room whose next slot does not hold the
      zero value. */
  lemma GrowAsWrittenAgrees(h: Handle)
    requires WellFormed(h.value)
    ensures GrowAsWritten(h) == Grow(h) <==>
      !(h.value.Slice? && h.CanSet() &&
        (|h.value.backing| == 0 ||
         (h.value.len < |h.value.backing| && h.value.backing[h.value.len] != h.value.zero)))
  {
    if h.value.Slice? && h.CanSet() {
      var s := h.value;
      if |s.backing| > 0 && s.len < |s.backing| && s.backing[s.len] == s.zero {
        assert s.backing[s.len := s.zero] == s.backing;
      } else if |s.backing| > 0 && s.len >= |s.backing| {
        var b := DoubleCapacity(s);
        assert b[s.len := s.zero] == b;
      } else if |s.backing| > 0 {
        assert Grow(h).value.backing[s.len] != GrowAsWritten(h).value.backing[s.len];
      }
    }
  }

  /** Operator.Do for each operator. */
  function Apply(op: Operator, h: Handle, parseFloat: string -> Option<nat>): Result<Value>
    requires WellFormed(h.value)
  {
    match op
    case SetOp(newValue) => DoSet(newValue, h, parseFloat)
    case GrowOp => Grow(h)
    case ShrinkOp => Shrink(h)
  }

  /** Whatever an operator produces is a well-formed value of the same kind. */
  lemma ApplyKeepsKind(op: Operator, h: Handle, parseFloat: string -> Option<nat>)
    requires WellFormed(h.value) && Apply(op, h, parseFloat).Ok?
    ensures Apply(op, h, parseFloat).value.Kind() == h.value.Kind()
    ensures WellFormed(Apply(op, h, parseFloat).value)
  {
    match op
    case SetOp(newValue) => SetOutcomes(newValue, h, parseFloat);
    case GrowOp => GrowAppendsZero(h);
    case ShrinkOp => ShrinkDropsLast(h);
  }

  /* ---------------------------------------------------------------------
     Building an operator from a request's query parameters
     --------------------------------------------------------------------- */

  /** url.Values.Get: the first value of a key, or "" when there is none. */
  function QueryGet(values: map<string, seq<string>>, key: string): string {
    if key in values && |values[key]| > 0 then values[key][0] else ""
  }

  /** The name a request uses for an operator. */
  function OperatorName(op: Operator): string {
    match op
    case SetOp(_) => "set"
    case GrowOp => "grow"
    case ShrinkOp => "shrink"
  }

  /** OperatorFor: the "operator" parameter names the operator, and set
      takes its new value from the "value" parameter; any other name is an
      error. */
  function OperatorFor(values: map<string, seq<string>>): Result<Operator> {
    var operatorName := QueryGet(values, "operator");
    if operatorName == "set" then Ok(SetOp(QueryGet(values, "value")))
    else if operatorName == "grow" then Ok(GrowOp)
    else if operatorName == "shrink" then Ok(ShrinkOp)
    else Err(UnknownOperator(operatorName))
  }

  /** A request yields an operator exactly when it names it (with the set
      value taken from "value"), and otherwise fails naming what it asked
      for. */
  lemma OperatorForNames(values: map<string, seq<string>>, op: Operator)
    ensures OperatorFor(values) == Ok(op) <==>
      QueryGet(values, "operator") == OperatorName(op) &&
      (op.SetOp? ==> op.newValue == QueryGet(values, "value"))
    ensures OperatorFor(values).Err? <==> QueryGet(values, "operator") !in {"set", "grow", "shrink"}
    ensures OperatorFor(values).Err? ==> OperatorFor(values).error == UnknownOperator(QueryGet(values, "operator"))
  {
  }

  /* ---------------------------------------------------------------------
     A whole mutation: parse the path, locate, apply
     --------------------------------------------------------------------- */

  /** editor.Mutate on the editor's state: the path is parsed, the value it
      names located from the (never addressable) root, and the operator
      applied there.  The result is the whole new state, or the first error
      met on the way. */
  function Mutated(state: Value, path: string, op: Operator, parseFloat: string -> Option<nat>): (r: Result<Value>)
    requires WellFormed(state)
    ensures r.Ok? ==> WellFormed(r.value)
  {
    match ParsePath(path)
    case Err(e) => Err(e)
    case Ok(p) =>
      match FindValueToChange(p, RootHandle(state), ModifiesPointer(op))
      case Err(e) => Err(e)
      case Ok(h) =>
        LocateFound(p, RootHandle(state), ModifiesPointer(op));
        match Apply(op, h, parseFloat)
        case Err(e) => Err(e)
        case Ok(x) =>
          ApplyKeepsKind(op, h, parseFloat);
          UpdateAtWellFormed(state, h.loc, x);
          Ok(UpdateAt(state, h.loc, x))
  }

  /** Where a mutation that succeeded wrote, and what. */
  function MutationSite(state: Value, path: string, op: Operator, parseFloat: string -> Option<nat>): (r: (seq<Step>, Value))
    requires WellFormed(state) && Mutated(state, path, op, parseFloat).Ok?
    ensures Mutated(state, path, op, parseFloat).value == UpdateAt(state, r.0, r.1)
  {
    var h := FindValueToChange(ParsePath(path).value, RootHandle(state), ModifiesPointer(op)).value;
    (h.loc, Apply(op, h, parseFloat).value)
  }

  /** After a successful mutation, locating the same path in the new state
      finds the operator's result: what was written is what the path now
      reads. */
  lemma MutatedReadsBack(state: Value, path: string, op: Operator, parseFloat: string -> Option<nat>)
    requires WellFormed(state) && Mutated(state, path, op, parseFloat).Ok?
    ensures ParsePath(path).Ok?
    ensures var r := FindValueToChange(ParsePath(path).value, RootHandle(Mutated(state, path, op, parseFloat).value), false);
      r.Ok? && r.value.loc == MutationSite(state, path, op, parseFloat).0 &&
      r.value.value == MutationSite(state, path, op, parseFloat).1 &&
      ValueAt(Mutated(state, path, op, parseFloat).value, r.value.loc) == Some(r.value.value)
  {
    var p := ParsePath(path).value;
    var root := RootHandle(state);
    var h := FindValueToChange(p, root, false).value;
    var x := Apply(op, h, parseFloat).value;
    ApplyKeepsKind(op, h, parseFloat);
    RelocateAfterUpdate(p, root, x);
    assert h.loc[|root.loc|..] == h.loc;
    assert Rewritten(root, h, x) == Mutated(state, path, op, parseFloat).value;
    assert root.(value := Rewritten(root, h, x)) == RootHandle(Mutated(state, path, op, parseFloat).value);
    LocateFound(p, root, false);
    UpdateAtValueAt(state, h.loc, x);
  }

  /** A mutation changes nothing at any position that diverges from the one
      its path names. */
  lemma MutatedElsewhere(state: Value, path: string, op: Operator, parseFloat: string -> Option<nat>, loc: seq<Step>)
    requires WellFormed(state) && Mutated(state, path, op, parseFloat).Ok?
    requires Diverge(MutationSite(state, path, op, parseFloat).0, loc)
    ensures ValueAt(Mutated(state, path, op, parseFloat).value, loc) == ValueAt(state, loc)
  {
    var p := ParsePath(path).value;
    LocateFound(p, RootHandle(state), false);
    var site := MutationSite(state, path, op, parseFloat);
    assert site.0[|RootHandle(state).loc|..] == site.0;
    UpdateAtElsewhere(state, site.0, loc, site.1);
  }

  /** A failed mutation reports the first stage that failed, in order:
      parsing the path, locating the value, applying the operator. */
  lemma MutatedErrors(state: Value, path: string, op: Operator, parseFloat: string -> Option<nat>)
    requires WellFormed(state)
    ensures ParsePath(path).Err? ==> Mutated(state, path, op, parseFloat) == Err(ParsePath(path).error)
    ensures ParsePath(path).Ok? ==>
      var found := FindValueToChange(ParsePath(path).value, RootHandle(state), false);
      (found.Err? ==> Mutated(state, path, op, parseFloat) == Err(found.error)) &&
      (found.Ok? && Apply(op, found.value, parseFloat).Err? ==>
         Mutated(state, path, op, parseFloat) == Err(Apply(op, found.value, parseFloat).error))
  {
  }

  /** The state's root is reflect.ValueOf of the stored value and so is never
      settable: the empty path can only succeed as a no-op (shrinking an
      empty slice). */
  lemma EmptyPathChangesNothing(state: Value, op: Operator, parseFloat: string -> Option<nat>)
    requires WellFormed(state)
    ensures Mutated(state, "", op, parseFloat).Ok? ==> Mutated(state, "", op, parseFloat).value == state
    ensures Mutated(state, "", op, parseFloat).Ok? ==> op == ShrinkOp && state.Slice? && state.len == 0
  {
    assert ParsePath("") == Ok([]);
  }
}
