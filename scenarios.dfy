/** The behaviour the repository's own test files describe, stated on the
    model: paths read and printed, values located, set, grown and shrunk,
    and values rendered. */
module Scenarios {
  import opened Conv
  import opened Values
  import opened Errors
  import opened Paths
  import opened Mutation
  import opened Render

  /* ---------------------------------------------------------------------
     Paths
     --------------------------------------------------------------------- */

  /** A text of dot-free pieces parses to the pieces' segments. */
  lemma ParsesTo(pieces: seq<string>, segs: seq<Segment>)
    requires |pieces| == |segs| >= 1 && Join(pieces) != ""
    requires forall i :: 0 <= i < |pieces| ==> '.' !in pieces[i] && EncodePiece(pieces[i]) == Ok(segs[i])
    ensures ParsePath(Join(pieces)) == Ok(segs)
  {
    SplitJoin(pieces);
    EncodeAllPieces(pieces);
    assert EncodeAll(pieces).value == segs;
  }

  /** An index below ten followed by two names. */
  lemma IndexFieldFieldPath(i: nat, a: string, b: string)
    requires a != "" && '.' !in a && !IsDigit(a[0]) && b != "" && '.' !in b && !IsDigit(b[0]) && i < 10
    ensures ParsePath([DigitChar(i)] + "." + a + "." + b) == Ok([Segment("", i), Segment(a, 0), Segment(b, 0)])
  {
    var ps := [[DigitChar(i)], a, b];
    assert ps[1..] == [a, b] && ps[1..][1..] == [b];
    assert Join(ps[1..]) == a + "." + b;
    assert Join(ps) == [DigitChar(i)] + "." + a + "." + b;
    assert Atoi([DigitChar(i)]) == Some(i) by { assert DigitsValue([DigitChar(i)], 10) == i; }
    ParsesTo(ps, [Segment("", i), Segment(a, 0), Segment(b, 0)]);
  }

  /** "1.customer.name" is an index followed by two names. */
  lemma IndexThenNames()
    ensures ParsePath("1" + "." + "customer" + "." + "name") == Ok([Segment("", 1), Segment("customer", 0), Segment("name", 0)])
  {
    IndexFieldFieldPath(1, "customer", "name");
    assert [DigitChar(1)] == "1";
  }

  /** "base.1" is a name followed by an index. */
  lemma NameThenIndex()
    ensures ParsePath("base.1") == Ok([Segment("base", 0), Segment("", 1)])
  {
    assert Atoi("1") == Some(1) by { assert DigitsValue("1", 10) == 1; }
    var qs := ["base", "1"];
    assert qs[1..] == ["1"] && Join(qs[1..]) == "1";
    assert Join(qs) == "base.1";
    ParsesTo(qs, [Segment("base", 0), Segment("", 1)]);
  }

  /** The chain "customers", 3, "balance" prints as "customers.3.balance",
      and the root path as nothing. */
  lemma PrintExamples()
    ensures PathText([Segment("customers", 0), Segment("", 3), Segment("balance", 0)]) == "customers.3.balance"
    ensures PathText([]) == ""
  {
    var segs := [Segment("customers", 0), Segment("", 3), Segment("balance", 0)];
    assert segs[1..] == [Segment("", 3), Segment("balance", 0)] && segs[1..][1..] == [Segment("balance", 0)];
    assert FormatInt(3) == "3";
    assert PathText(segs[1..][1..]) == "balance";
    assert PathText(segs[1..]) == "3.balance";
  }

  /* ---------------------------------------------------------------------
     Locating and changing values
     --------------------------------------------------------------------- */

  function Employee(name: string, id: string): Value {
    Struct("testEmployee", [Field("Name", Str(name)), Field("Id", Str(id))])
  }

  /** The slice of employees the locator test walks through. */
  function Staff(): Value {
    Slice("testEmployee", Employee("", ""), [Employee("Bob", "A"), Employee("Sue", "B")], 2)
  }

  /** The anonymous struct the locator test walks, held by value. */
  function Scanning(): Value {
    Struct("", [
      Field("Foo", Str("5")),
      Field("Bar", Str("hello")),
      Field("Employees", Staff()),
      Field("Boss", Ptr(Some(Employee("Snake", "0"))))])
  }

  lemma EmployeeWellFormed(name: string, id: string)
    ensures WellFormed(Employee(name, id))
  {
    var fs := Employee(name, id).fields;
    assert WellFormed(fs[0].value) && WellFormed(fs[1].value);
  }

  lemma StaffWellFormed()
    ensures WellFormed(Staff())
  {
    EmployeeWellFormed("", "");
    EmployeeWellFormed("Bob", "A");
    EmployeeWellFormed("Sue", "B");
    var staff := Staff();
    assert WellFormed(staff.backing[0]) && WellFormed(staff.backing[1]);
  }

  lemma ScanningWellFormed()
    ensures WellFormed(Scanning())
  {
    StaffWellFormed();
    EmployeeWellFormed("Snake", "0");
    var fs := Scanning().fields;
    assert WellFormed(fs[3].value);
    assert WellFormed(fs[0].value) && WellFormed(fs[1].value) && WellFormed(fs[2].value);
  }

  /** A single field name is a one-segment path. */
  lemma NamePath(name: string)
    requires name != "" && '.' !in name && !IsDigit(name[0])
    ensures ParsePath(name) == Ok([Segment(name, 0)])
  {
    ParsesTo([name], [Segment(name, 0)]);
  }

  /** A field, an index below ten and a field. */
  lemma FieldIndexFieldPath(a: string, i: nat, b: string)
    requires a != "" && '.' !in a && !IsDigit(a[0]) && b != "" && '.' !in b && !IsDigit(b[0]) && i < 10
    ensures ParsePath(a + "." + [DigitChar(i)] + "." + b) == Ok([Segment(a, 0), Segment("", i), Segment(b, 0)])
  {
    var ps := [a, [DigitChar(i)], b];
    assert ps[1..] == [[DigitChar(i)], b] && ps[1..][1..] == [b];
    assert Join(ps[1..]) == [DigitChar(i)] + "." + b;
    assert Join(ps) == a + "." + [DigitChar(i)] + "." + b;
    assert Atoi([DigitChar(i)]) == Some(i) by { assert DigitsValue([DigitChar(i)], 10) == i; }
    ParsesTo(ps, [Segment(a, 0), Segment("", i), Segment(b, 0)]);
  }

  /** Two field names. */
  lemma FieldFieldPath(a: string, b: string)
    requires a != "" && '.' !in a && !IsDigit(a[0]) && b != "" && '.' !in b && !IsDigit(b[0])
    ensures ParsePath(a + "." + b) == Ok([Segment(a, 0), Segment(b, 0)])
  {
    var ps := [a, b];
    assert ps[1..] == [b];
    ParsesTo(ps, [Segment(a, 0), Segment(b, 0)]);
  }

  /** The positions of the fields of the scanned struct. */
  lemma ScanningFields()
    ensures FieldIndex(Scanning().fields, "Foo") == 0
    ensures FieldIndex(Scanning().fields, "Employees") == 2
    ensures FieldIndex(Scanning().fields, "Boss") == 3
    ensures Exported("Foo") && Exported("Employees") && Exported("Boss") && Exported("Name")
  {
    var v := Scanning();
    assert v.fields[0].name == "Foo" && v.fields[1].name == "Bar";
    assert v.fields[2].name == "Employees" && v.fields[3].name == "Boss";
    assert "Foo" != "Employees" && "Bar" != "Employees";
    assert "Foo" != "Boss" && "Bar" != "Boss" && "Employees" != "Boss";
  }

  /** The locator's step into a named field. */
  lemma FieldHop(p: seq<Segment>, h: Handle, k: nat)
    requires WellFormed(h.value) && h.value.Struct? && p != [] && p[0].name != ""
    requires k < |h.value.fields| && FieldIndex(h.value.fields, p[0].name) == k
    ensures FindValueToChange(p, h, false) == FindValueToChange(p[1..],
      Handle(h.loc + [FieldStep(k)], h.value.fields[k].value, h.addressable, h.readOnly || !Exported(p[0].name)), false)
  {
  }

  /** The locator's step to an element of a slice. */
  lemma SliceHop(p: seq<Segment>, h: Handle)
    requires WellFormed(h.value) && h.value.Slice? && p != [] && p[0].name == "" && 0 <= p[0].index < h.value.len
    ensures FindValueToChange(p, h, false) == FindValueToChange(p[1..],
      Handle(h.loc + [ElemStep(p[0].index)], h.value.backing[p[0].index], true, h.readOnly), false)
  {
  }

  /** The locator's step through a non-nil pointer. */
  lemma PtrHop(p: seq<Segment>, h: Handle)
    requires WellFormed(h.value) && h.value.Ptr? && h.value.target.Some? && p != []
    ensures FindValueToChange(p, h, false) == FindValueToChange(p,
      Handle(h.loc + [Deref], h.value.target.value, true, h.readOnly), false)
  {
  }

  /** A top-level field of a state held by value is found, but cannot be
      set. */
  lemma FindFieldExample(v: Value)
    requires v == Scanning() && WellFormed(v)
    ensures FindValueToChange([Segment("Foo", 0)], RootHandle(v), false) == Ok(Handle([FieldStep(0)], Str("5"), false, false))
  {
    ScanningFields();
    var segs := [Segment("Foo", 0)];
    FieldHop(segs, RootHandle(v), 0);
    assert segs[1..] == [];
    assert RootHandle(v).loc + [FieldStep(0)] == [FieldStep(0)];
  }

  /** An element of a slice field is found by index, and is settable even
      though the state is held by value: slice elements are addressable. */
  lemma ElementPath()
    ensures ParsePath("Employees.0.Name") == Ok([Segment("Employees", 0), Segment("", 0), Segment("Name", 0)])
  {
    FieldIndexFieldPath("Employees", 0, "Name");
    assert "Employees" + "." + [DigitChar(0)] + "." + "Name" == "Employees.0.Name";
  }

  /** From the slice of employees, index 0 and then Name. */
  lemma FindInStaff()
    ensures WellFormed(Staff())
    ensures FindValueToChange([Segment("", 0), Segment("Name", 0)], Handle([FieldStep(2)], Staff(), false, false), false) ==
      Ok(Handle([FieldStep(2), ElemStep(0), FieldStep(0)], Str("Bob"), true, false))
  {
    StaffWellFormed();
    var segs := [Segment("", 0), Segment("Name", 0)];
    var h1 := Handle([FieldStep(2)], Staff(), false, false);
    var bob := Employee("Bob", "A");
    EmployeeWellFormed("Bob", "A");
    var h2 := Handle([FieldStep(2), ElemStep(0)], bob, true, false);
    assert segs[1..] == [Segment("Name", 0)] && segs[1..][1..] == [];
    assert h1.value.backing[0] == bob && h1.value.len == 2;
    assert h1.loc + [ElemStep(0)] == h2.loc;
    SliceHop(segs, h1);
    assert FieldIndex(bob.fields, "Name") == 0;
    assert Exported("Name");
    assert h2.loc + [FieldStep(0)] == [FieldStep(2), ElemStep(0), FieldStep(0)];
    FieldHop(segs[1..], h2, 0);
  }

  /** An element of a slice field is found by index, and is settable even
      though the state is held by value: slice elements are addressable. */
  lemma FindElementExample(v: Value)
    requires v == Scanning() && WellFormed(v)
    ensures FindValueToChange([Segment("Employees", 0), Segment("", 0), Segment("Name", 0)], RootHandle(v), false) ==
      Ok(Handle([FieldStep(2), ElemStep(0), FieldStep(0)], Str("Bob"), true, false))
  {
    ScanningFields();
    FindInStaff();
    var segs := [Segment("Employees", 0), Segment("", 0), Segment("Name", 0)];
    var h1 := Handle([FieldStep(2)], Staff(), false, false);
    assert v.fields[2].value == Staff();
    assert RootHandle(v).loc + [FieldStep(2)] == [FieldStep(2)];
    assert segs[1..] == [Segment("", 0), Segment("Name", 0)];
    FieldHop(segs, RootHandle(v), 2);
  }

  /** A field behind a pointer field is found through the pointer, and is
      settable. */
  lemma PointerPath()
    ensures ParsePath("Boss.Name") == Ok([Segment("Boss", 0), Segment("Name", 0)])
  {
    FieldFieldPath("Boss", "Name");
    assert "Boss" + "." + "Name" == "Boss.Name";
  }

  /** A field, the pointer it holds, and a field of the struct pointed to:
      the pointer's target is addressable, so the field found is settable
      even when the state is held by value. */
  lemma FieldDerefField(v: Value, a: string, k: nat, b: string, j: nat)
    requires WellFormed(v) && v.Struct? && k < |v.fields|
    requires a != "" && FieldIndex(v.fields, a) == k && Exported(a)
    requires v.fields[k].value.Ptr? && v.fields[k].value.target.Some?
    requires v.fields[k].value.target.value.Struct? && j < |v.fields[k].value.target.value.fields|
    requires b != "" && FieldIndex(v.fields[k].value.target.value.fields, b) == j && Exported(b)
    ensures FindValueToChange([Segment(a, 0), Segment(b, 0)], RootHandle(v), false) ==
      Ok(Handle([FieldStep(k), Deref, FieldStep(j)], v.fields[k].value.target.value.fields[j].value, true, false))
  {
    var segs := [Segment(a, 0), Segment(b, 0)];
    var h1 := Handle([FieldStep(k)], v.fields[k].value, false, false);
    var h2 := Handle([FieldStep(k), Deref], v.fields[k].value.target.value, true, false);
    assert RootHandle(v).loc + [FieldStep(k)] == h1.loc;
    FieldHop(segs, RootHandle(v), k);
    assert segs[1..] == [Segment(b, 0)] && segs[1..][1..] == [];
    assert h1.loc + [Deref] == h2.loc;
    PtrHop(segs[1..], h1);
    assert h2.loc + [FieldStep(j)] == [FieldStep(k), Deref, FieldStep(j)];
    FieldHop(segs[1..], h2, j);
  }

  lemma FindThroughPointerExample(v: Value)
    requires v == Scanning() && WellFormed(v)
    ensures FindValueToChange([Segment("Boss", 0), Segment("Name", 0)], RootHandle(v), false) ==
      Ok(Handle([FieldStep(3), Deref, FieldStep(0)], Str("Snake"), true, false))
  {
    ScanningFields();
    var snake := Employee("Snake", "0");
    assert v.fields[3].value == Ptr(Some(snake));
    assert FieldIndex(snake.fields, "Name") == 0;
    FieldDerefField(v, "Boss", 3, "Name", 0);
  }

  /** An index at or past the length is refused with the length. */
  lemma IndexPastEndExample(v: Value)
    requires v == Scanning() && WellFormed(v)
    ensures FindValueToChange([Segment("Employees", 0), Segment("", 9), Segment("Name", 0)], RootHandle(v), false) ==
      Err(IndexOutOfRange(9, 2))
  {
    ScanningFields();
    StaffWellFormed();
    var segs := [Segment("Employees", 0), Segment("", 9), Segment("Name", 0)];
    var h1 := Handle([FieldStep(2)], Staff(), false, false);
    assert v.fields[2].value == Staff();
    assert RootHandle(v).loc + [FieldStep(2)] == [FieldStep(2)];
    assert segs[1..][0] == Segment("", 9);
    FieldHop(segs, RootHandle(v), 2);
  }

  /** A name the struct has no field for is refused with that name. */
  lemma UnknownFieldExample(v: Value)
    requires v == Scanning() && WellFormed(v)
    ensures FindValueToChange([Segment("NotAField", 0)], RootHandle(v), false) == Err(NoSuchField("NotAField"))
  {
    var fs := v.fields;
    assert fs[1..][1..][1..][1..] == [];
    assert FieldIndex(fs, "NotAField") == 4;
  }

  /** A segment left over at a string field cannot be followed. */
  lemma PathThroughScalarExample(v: Value)
    requires v == Scanning() && WellFormed(v)
    ensures FindValueToChange([Segment("Foo", 0), Segment("bar", 0)], RootHandle(v), false) ==
      Err(PathThroughKind(StringKind))
  {
    ScanningFields();
    var segs := [Segment("Foo", 0), Segment("bar", 0)];
    FieldHop(segs, RootHandle(v), 0);
  }

  /** An index at a struct, and a name at a slice, are refused. */
  lemma WrongSegmentExamples(v: Value)
    requires v == Scanning() && WellFormed(v)
    ensures FindValueToChange([Segment("", 0)], RootHandle(v), false) == Err(IndexOnStruct)
    ensures FindValueToChange([Segment("Employees", 0), Segment("first", 0)], RootHandle(v), false) ==
      Err(NameOnSequence("first"))
  {
    ScanningFields();
    var segs := [Segment("Employees", 0), Segment("first", 0)];
    FieldHop(segs, RootHandle(v), 2);
  }

  function Modify(foo: int, bar: string, baz: bool): Value {
    Ptr(Some(Struct("modify", [Field("Foo", Int(64, foo)), Field("Bar", Str(bar)), Field("Baz", Bool(baz))])))
  }

  function ModifyFields(foo: int, bar: string, baz: bool): seq<Field> {
    [Field("Foo", Int(64, foo)), Field("Bar", Str(bar)), Field("Baz", Bool(baz))]
  }

  lemma ModifyWellFormed(foo: int, bar: string, baz: bool)
    requires MinInt64 <= foo <= MaxInt64
    ensures WellFormed(Modify(foo, bar, baz))
  {
    assert WellFormed(Int(64, foo));
  }

  /** Each of the three field names locates its field through the pointer,
      settable. */
  lemma ModifyFind(foo: int, bar: string, baz: bool, k: nat)
    requires MinInt64 <= foo <= MaxInt64 && k < 3
    ensures WellFormed(Modify(foo, bar, baz))
    ensures var f := ModifyFields(foo, bar, baz)[k];
      FindValueToChange([Segment(f.name, 0)], RootHandle(Modify(foo, bar, baz)), false) ==
        Ok(Handle([Deref, FieldStep(k)], f.value, true, false))
  {
    ModifyWellFormed(foo, bar, baz);
    var fs := ModifyFields(foo, bar, baz);
    var v := Modify(foo, bar, baz);
    var segs := [Segment(fs[k].name, 0)];
    var h1 := Handle([Deref], Struct("modify", fs), true, false);
    assert RootHandle(v).loc + [Deref] == h1.loc;
    assert FindValueToChange(segs, RootHandle(v), false) == FindValueToChange(segs, h1, false);
    assert "Foo" != "Bar" && "Foo" != "Baz" && "Bar" != "Baz";
    assert FieldIndex(fs, fs[k].name) == k;
    assert Exported(fs[k].name);
    assert segs[1..] == [];
    assert h1.loc + [FieldStep(k)] == [Deref, FieldStep(k)];
    var h2 := Handle([Deref, FieldStep(k)], fs[k].value, true, false);
    assert FindValueToChange(segs, h1, false) == FindValueToChange([], h2, false);
  }

  /** Writing through the pointer to field `k` replaces that field alone. */
  lemma ModifyUpdate(foo: int, bar: string, baz: bool, k: nat, x: Value)
    requires k < 3
    ensures var fs := ModifyFields(foo, bar, baz);
      UpdateAt(Modify(foo, bar, baz), [Deref, FieldStep(k)], x) ==
        Ptr(Some(Struct("modify", fs[k := Field(fs[k].name, x)])))
  {
    var fs := ModifyFields(foo, bar, baz);
    var loc := [Deref, FieldStep(k)];
    assert loc[1..] == [FieldStep(k)] && loc[1..][1..] == [];
    var s := Struct("modify", fs);
    assert UpdateAt(s, loc[1..], x) == Struct("modify", fs[k := Field(fs[k].name, x)]);
  }

  /** Writing an int, a string or a bool into the matching field. */
  lemma ModifySetFields(foo: int, bar: string, baz: bool, foo': int, bar': string, baz': bool)
    ensures UpdateAt(Modify(foo, bar, baz), [Deref, FieldStep(0)], Int(64, foo')) == Modify(foo', bar, baz)
    ensures UpdateAt(Modify(foo, bar, baz), [Deref, FieldStep(1)], Str(bar')) == Modify(foo, bar', baz)
    ensures UpdateAt(Modify(foo, bar, baz), [Deref, FieldStep(2)], Bool(baz')) == Modify(foo, bar, baz')
  {
    var fs := ModifyFields(foo, bar, baz);
    ModifyUpdate(foo, bar, baz, 0, Int(64, foo'));
    assert fs[0 := Field(fs[0].name, Int(64, foo'))] == ModifyFields(foo', bar, baz);
    ModifyUpdate(foo, bar, baz, 1, Str(bar'));
    assert fs[1 := Field(fs[1].name, Str(bar'))] == ModifyFields(foo, bar', baz);
    ModifyUpdate(foo, bar, baz, 2, Bool(baz'));
    assert fs[2 := Field(fs[2].name, Bool(baz'))] == ModifyFields(foo, bar, baz');
  }

  /** A mutation whose path parses, whose value is found and whose operator
      succeeds writes the operator's result where the value was found. */
  lemma MutatedVia(state: Value, path: string, op: Operator, parseFloat: string -> Option<nat>, p: seq<Segment>, h: Handle, x: Value)
    requires WellFormed(state) && ParsePath(path) == Ok(p)
    requires FindValueToChange(p, RootHandle(state), ModifiesPointer(op)) == Ok(h)
    requires Apply(op, h, parseFloat) == Ok(x)
    ensures Mutated(state, path, op, parseFloat) == Ok(UpdateAt(state, h.loc, x))
  {
  }

  lemma SetSevenOnSettableInt(h: Handle, parseFloat: string -> Option<nat>)
    requires h.value == Int(64, 5) && h.CanSet()
    ensures WellFormed(h.value) && Apply(SetOp("7"), h, parseFloat) == Ok(Int(64, 7))
  {
    assert ParseInt64("7") == Some(7) by {
      assert Base0("7") == (10, "7");
      assert DigitsValue("7", 10) == 7;
    }
  }

  /** Setting an int field of a struct held through a pointer. */
  lemma SetIntExample(state: Value, parseFloat: string -> Option<nat>)
    requires state == Modify(5, "hello", false)
    ensures WellFormed(state)
    ensures Mutated(state, "Foo", SetOp("7"), parseFloat) == Ok(Modify(7, "hello", false))
  {
    ModifyFind(5, "hello", false, 0);
    NamePath("Foo");
    var h := Handle([Deref, FieldStep(0)], Int(64, 5), true, false);
    SetSevenOnSettableInt(h, parseFloat);
    MutatedVia(state, "Foo", SetOp("7"), parseFloat, [Segment("Foo", 0)], h, Int(64, 7));
    ModifySetFields(5, "hello", false, 7, "hello", false);
  }

  /** Setting a string field. */
  lemma SetStringExample(state: Value, parseFloat: string -> Option<nat>)
    requires state == Modify(7, "hello", false)
    ensures WellFormed(state)
    ensures Mutated(state, "Bar", SetOp("hi"), parseFloat) == Ok(Modify(7, "hi", false))
  {
    ModifyFind(7, "hello", false, 1);
    NamePath("Bar");
    var h := Handle([Deref, FieldStep(1)], Str("hello"), true, false);
    assert Apply(SetOp("hi"), h, parseFloat) == Ok(Str("hi"));
    MutatedVia(state, "Bar", SetOp("hi"), parseFloat, [Segment("Bar", 0)], h, Str("hi"));
    ModifySetFields(7, "hello", false, 7, "hi", false);
  }

  /** Setting a bool field. */
  lemma SetBoolExample(state: Value, parseFloat: string -> Option<nat>)
    requires state == Modify(7, "hi", false)
    ensures WellFormed(state)
    ensures Mutated(state, "Baz", SetOp("true"), parseFloat) == Ok(Modify(7, "hi", true))
  {
    ModifyFind(7, "hi", false, 2);
    NamePath("Baz");
    var h := Handle([Deref, FieldStep(2)], Bool(false), true, false);
    assert ParseBool("true") == Some(true);
    assert Apply(SetOp("true"), h, parseFloat) == Ok(Bool(true));
    MutatedVia(state, "Baz", SetOp("true"), parseFloat, [Segment("Baz", 0)], h, Bool(true));
    ModifySetFields(7, "hi", false, 7, "hi", true);
  }

  /** A text that is not a number is refused for an int field. */
  lemma SetIntRefusedExample(state: Value, parseFloat: string -> Option<nat>)
    requires state == Modify(7, "hi", true)
    ensures WellFormed(state)
    ensures Mutated(state, "Foo", SetOp("seven"), parseFloat) == Err(ParseFailure("seven"))
  {
    ModifyFind(7, "hi", true, 0);
    NamePath("Foo");
    SevenIsNotANumber();
  }

  lemma SevenIsNotANumber()
    ensures ParseInt64("seven") == None
  {
    assert Base0("seven") == (10, "seven");
    assert DigitValue('s') == 28;
  }

  function Growable(bar: seq<Value>, len: nat): Value {
    Ptr(Some(Struct("growable", [Field("Foo", Int(64, 1)), Field("Bar", Slice("int", Int(64, 0), bar, len))])))
  }

  function Full(): seq<Value> {
    [Int(64, 2), Int(64, 3), Int(64, 4)]
  }

  lemma GrowableWellFormed(bar: seq<Value>, len: nat)
    requires len <= |bar| && forall i :: 0 <= i < |bar| ==> bar[i].Int? && bar[i].bits == 64 && 0 <= bar[i].i < 8
    ensures WellFormed(Growable(bar, len))
    ensures WellFormed(Slice("int", Int(64, 0), bar, len))
  {
    assert WellFormed(Int(64, 1)) && WellFormed(Int(64, 0));
    assert forall i :: 0 <= i < |bar| ==> WellFormed(bar[i]);
  }

  /** "Bar" locates the slice field through the pointer, settable. */
  lemma GrowableFind(bar: seq<Value>, len: nat)
    requires len <= |bar| && forall i :: 0 <= i < |bar| ==> bar[i].Int? && bar[i].bits == 64 && 0 <= bar[i].i < 8
    ensures WellFormed(Growable(bar, len))
    ensures FindValueToChange([Segment("Bar", 0)], RootHandle(Growable(bar, len)), false) ==
      Ok(Handle([Deref, FieldStep(1)], Slice("int", Int(64, 0), bar, len), true, false))
  {
    GrowableWellFormed(bar, len);
    var v := Growable(bar, len);
    var segs := [Segment("Bar", 0)];
    var h1 := Handle([Deref], v.target.value, true, false);
    assert RootHandle(v).loc + [Deref] == h1.loc;
    assert FindValueToChange(segs, RootHandle(v), false) == FindValueToChange(segs, h1, false);
    assert h1.value.fields[0].name == "Foo" && h1.value.fields[1].name == "Bar" && "Foo" != "Bar";
    assert FieldIndex(h1.value.fields, "Bar") == 1;
    assert Exported("Bar");
    assert segs[1..] == [];
    assert h1.loc + [FieldStep(1)] == [Deref, FieldStep(1)];
    var h2 := Handle([Deref, FieldStep(1)], Slice("int", Int(64, 0), bar, len), true, false);
    assert FindValueToChange(segs, h1, false) == FindValueToChange([], h2, false);
  }

  /** Writing through the pointer to the slice field. */
  lemma GrowableUpdate(bar: seq<Value>, len: nat, bar': seq<Value>, len': nat)
    ensures UpdateAt(Growable(bar, len), [Deref, FieldStep(1)], Slice("int", Int(64, 0), bar', len')) == Growable(bar', len')
  {
    var loc := [Deref, FieldStep(1)];
    assert loc[1..] == [FieldStep(1)] && loc[1..][1..] == [];
    var s := Growable(bar, len).target.value;
    var fs := s.fields;
    assert fs[1 := Field("Bar", Slice("int", Int(64, 0), bar', len'))] == Growable(bar', len').target.value.fields;
  }

  /** Growing a full, non-empty slice it may set doubles the store and
      exposes one zero. */
  lemma GrowFull(h: Handle, b: seq<Value>)
    requires WellFormed(h.value) && h.CanSet() && |b| > 0
    requires h.value.Slice? && h.value.backing == b && h.value.len == |b|
    ensures Grow(h) == Ok(Slice(h.value.elemType, h.value.zero, b + seq(|b|, _ => h.value.zero), |b| + 1))
  {
    var z := h.value.zero;
    var r := Reallocated(h.value, 2 * |b|);
    assert b[..|b|] == b;
    assert r == b + seq(|b|, _ => z);
    assert r[|b| := z] == r;
  }

  /** An operator that yields a new header for the slice field, applied
      through the path "Bar", writes that header back into the state. */
  lemma GrowableMutated(state: Value, bar: seq<Value>, len: nat, op: Operator, parseFloat: string -> Option<nat>,
                        bar': seq<Value>, len': nat)
    requires len <= |bar| && forall i :: 0 <= i < |bar| ==> bar[i].Int? && bar[i].bits == 64 && 0 <= bar[i].i < 8
    requires state == Growable(bar, len) && WellFormed(Slice("int", Int(64, 0), bar, len))
    requires Apply(op, Handle([Deref, FieldStep(1)], Slice("int", Int(64, 0), bar, len), true, false), parseFloat) ==
      Ok(Slice("int", Int(64, 0), bar', len'))
    ensures WellFormed(state)
    ensures Mutated(state, "Bar", op, parseFloat) == Ok(Growable(bar', len'))
  {
    GrowableFind(bar, len);
    NamePath("Bar");
    var h := Handle([Deref, FieldStep(1)], Slice("int", Int(64, 0), bar, len), true, false);
    assert !ModifiesPointer(op);
    MutatedVia(state, "Bar", op, parseFloat, [Segment("Bar", 0)], h, Slice("int", Int(64, 0), bar', len'));
    GrowableUpdate(bar, len, bar', len');
  }

  /** Growing a full slice field through the pointer doubles its store and
      exposes one zero. */
  lemma GrowFullField(state: Value, bar: seq<Value>, parseFloat: string -> Option<nat>)
    requires |bar| > 0 && forall i :: 0 <= i < |bar| ==> bar[i].Int? && bar[i].bits == 64 && 0 <= bar[i].i < 8
    requires state == Growable(bar, |bar|)
    ensures WellFormed(state)
    ensures Mutated(state, "Bar", GrowOp, parseFloat) ==
      Ok(Growable(bar + seq(|bar|, _ => Int(64, 0)), |bar| + 1))
  {
    GrowableWellFormed(bar, |bar|);
    var h := Handle([Deref, FieldStep(1)], Slice("int", Int(64, 0), bar, |bar|), true, false);
    GrowFull(h, bar);
    GrowableMutated(state, bar, |bar|, GrowOp, parseFloat, bar + seq(|bar|, _ => Int(64, 0)), |bar| + 1);
  }

  /** Shrinking a non-empty slice field through the pointer shortens it by
      one and keeps its store. */
  lemma ShrinkField(state: Value, bar: seq<Value>, len: nat, parseFloat: string -> Option<nat>)
    requires 0 < len <= |bar| && forall i :: 0 <= i < |bar| ==> bar[i].Int? && bar[i].bits == 64 && 0 <= bar[i].i < 8
    requires state == Growable(bar, len)
    ensures WellFormed(state)
    ensures Mutated(state, "Bar", ShrinkOp, parseFloat) == Ok(Growable(bar, len - 1))
  {
    GrowableWellFormed(bar, len);
    var h := Handle([Deref, FieldStep(1)], Slice("int", Int(64, 0), bar, len), true, false);
    assert Apply(ShrinkOp, h, parseFloat) == Ok(Slice("int", Int(64, 0), bar, len - 1));
    GrowableMutated(state, bar, len, ShrinkOp, parseFloat, bar, len - 1);
  }

  /** Growing the full slice [2, 3, 4] gives [2, 3, 4, 0] in a store of
      twice the capacity. */
  lemma GrowExample(state: Value, parseFloat: string -> Option<nat>)
    requires state == Growable(Full(), 3)
    ensures WellFormed(state)
    ensures Mutated(state, "Bar", GrowOp, parseFloat) ==
      Ok(Growable(Full() + [Int(64, 0), Int(64, 0), Int(64, 0)], 4))
  {
    GrowFullField(state, Full(), parseFloat);
    assert seq(3, _ => Int(64, 0)) == [Int(64, 0), Int(64, 0), Int(64, 0)];
  }

  /** Shrinking [2, 3, 4] gives [2, 3] and keeps the store. */
  lemma ShrinkExample(state: Value, parseFloat: string -> Option<nat>)
    requires state == Growable(Full(), 3)
    ensures WellFormed(state)
    ensures Mutated(state, "Bar", ShrinkOp, parseFloat) == Ok(Growable(Full(), 2))
  {
    ShrinkField(state, Full(), 3, parseFloat);
  }

  /* ---------------------------------------------------------------------
     Rendering
     --------------------------------------------------------------------- */

  /** Integers render as single input fields holding their digits. */
  lemma RenderIntExample(formatFloat: (nat, nat) -> string)
    ensures WellFormed(Int(64, 3))
    ensures RenderValue(Int(64, 3), 0, formatFloat) == Rendering(EditField(0, "3"), 1, None)
  {
    IntInput(3, 0, formatFloat);
    assert FormatNat(3) == "3";
  }

  lemma RenderInt32Example(formatFloat: (nat, nat) -> string)
    ensures WellFormed(Int(32, 5))
    ensures RenderValue(Int(32, 5), 0, formatFloat) == Rendering(EditField(0, "5"), 1, None)
  {
    assert FormatNat(5) == "5";
  }

  lemma RenderUintExample(formatFloat: (nat, nat) -> string)
    ensures WellFormed(Uint(64, 10))
    ensures RenderValue(Uint(64, 10), 0, formatFloat) == Rendering(EditField(0, "10"), 1, None)
  {
    assert FormatNat(10) == FormatNat(1) + "0";
  }

  /** Floats, bools and strings render as single input fields. */
  lemma RenderOtherScalarExamples(formatFloat: (nat, nat) -> string, repr: nat)
    ensures RenderValue(Float(64, repr), 0, formatFloat) == Rendering(EditField(0, formatFloat(64, repr)), 1, None)
    ensures RenderValue(Bool(false), 0, formatFloat) == Rendering(EditField(0, "false"), 1, None)
    ensures RenderValue(Str("hi"), 0, formatFloat) == Rendering(EditField(0, "hi"), 1, None)
  {
  }

  /** A non-negative int renders as its digits in input `id`. */
  lemma IntInput(k: nat, id: nat, formatFloat: (nat, nat) -> string)
    requires k <= MaxInt64
    ensures WellFormed(Int(64, k))
    ensures RenderValue(Int(64, k), id, formatFloat) == Rendering(EditField(id, FormatNat(k)), id + 1, None)
  {
  }

  /** A struct of three fields that render without error, from input 0. */
  lemma StructOfThree(v: Value, formatFloat: (nat, nat) -> string, u0: string, u1: string, u2: string)
    requires v.Struct? && |v.fields| == 3
    requires RenderValue(v.fields[0].value, 0, formatFloat) == Rendering(u0, 1, None)
    requires RenderValue(v.fields[1].value, 1, formatFloat) == Rendering(u1, 2, None)
    requires RenderValue(v.fields[2].value, 2, formatFloat) == Rendering(u2, 3, None)
    ensures RenderValue(v, 0, formatFloat) == Rendering(
      "<div>" + v.typeName + " {<ul>" +
      ("<li>" + v.fields[0].name + ": " + u0 + ",</li>" +
       "<li>" + v.fields[1].name + ": " + u1 + ",</li>" +
       "<li>" + v.fields[2].name + ": " + u2 + ",</li>") +
      "}</ul></div>", 3, None)
  {
    assert StructItems(v, 0, 0, formatFloat) == Rendering("", 0, None);
    assert "" + "<li>" == "<li>";
    var t1 := "<li>" + v.fields[0].name + ": " + u0 + ",</li>";
    var t2 := t1 + "<li>" + v.fields[1].name + ": " + u1 + ",</li>";
    var t3 := t2 + "<li>" + v.fields[2].name + ": " + u2 + ",</li>";
    assert StructItems(v, 1, 0, formatFloat) == Rendering(t1, 1, None);
    assert StructItems(v, 2, 0, formatFloat) == Rendering(t2, 2, None);
    assert StructItems(v, 3, 0, formatFloat) == Rendering(t3, 3, None);
    assert RenderCompositeValue(v, 0, formatFloat) == Rendering("<div>" + v.typeName + " {<ul>" + t3 + "}</ul></div>", 3, None);
  }

  /** An array or slice of three elements that render without error, from
      input 0. */
  lemma ListOfThree(v: Value, formatFloat: (nat, nat) -> string, u0: string, u1: string, u2: string)
    requires (v.Array? || v.Slice?) && ElemCount(v) == 3
    requires RenderValue(ElemAt(v, 0), 0, formatFloat) == Rendering(u0, 1, None)
    requires RenderValue(ElemAt(v, 1), 1, formatFloat) == Rendering(u1, 2, None)
    requires RenderValue(ElemAt(v, 2), 2, formatFloat) == Rendering(u2, 3, None)
    ensures var body := "<li>" + u0 + ",</li>" + "<li>" + u1 + ",</li>" + "<li>" + u2 + ",</li>";
      RenderValue(v, 0, formatFloat) == Rendering(
        if v.Array? then "<div>[" + FormatNat(3) + "]" + v.elemType + " {<ul>" + body + "}</ul></div>"
        else "<div>[]" + v.elemType + " {<ul>" + body + "}</ul></div>", 3, None)
  {
    assert ElemItems(v, 0, 0, formatFloat) == Rendering("", 0, None);
    assert "" + "<li>" == "<li>";
    var t1 := "<li>" + u0 + ",</li>";
    var t2 := t1 + "<li>" + u1 + ",</li>";
    var t3 := t2 + "<li>" + u2 + ",</li>";
    assert ElemItems(v, 1, 0, formatFloat) == Rendering(t1, 1, None);
    assert ElemItems(v, 2, 0, formatFloat) == Rendering(t2, 2, None);
    assert ElemItems(v, 3, 0, formatFloat) == Rendering(t3, 3, None);
  }

  /** The ints 1, 2 and 3 render as inputs 0, 1 and 2. */
  lemma OneTwoThree(formatFloat: (nat, nat) -> string)
    ensures WellFormed(Int(64, 0))
    ensures RenderValue(Int(64, 1), 0, formatFloat) == Rendering(EditField(0, "1"), 1, None)
    ensures RenderValue(Int(64, 2), 1, formatFloat) == Rendering(EditField(1, "2"), 2, None)
    ensures RenderValue(Int(64, 3), 2, formatFloat) == Rendering(EditField(2, "3"), 3, None)
  {
    IntInput(0, 0, formatFloat);
    IntInput(1, 0, formatFloat);
    IntInput(2, 1, formatFloat);
    IntInput(3, 2, formatFloat);
    assert FormatNat(1) == "1" && FormatNat(2) == "2" && FormatNat(3) == "3";
  }

  /** An array of three ints renders as a list of three inputs, numbered
      in order. */
  lemma RenderArrayExample(v: Value, formatFloat: (nat, nat) -> string)
    requires v == Array("int", [Int(64, 1), Int(64, 2), Int(64, 3)])
    ensures WellFormed(v)
    ensures RenderValue(v, 0, formatFloat).text ==
      "<div>[" + "3" + "]" + "int" + " {<ul>" +
      ("<li>" + EditField(0, "1") + ",</li>" + "<li>" + EditField(1, "2") + ",</li>" + "<li>" + EditField(2, "3") + ",</li>") +
      "}</ul></div>"
  {
    OneTwoThree(formatFloat);
    assert WellFormed(v);
    assert FormatNat(3) == "3";
    ListOfThree(v, formatFloat, EditField(0, "1"), EditField(1, "2"), EditField(2, "3"));
  }

  /** A slice of three ints renders the same way, without a length. */
  lemma RenderSliceExample(v: Value, formatFloat: (nat, nat) -> string)
    requires v == Slice("int", Int(64, 0), [Int(64, 1), Int(64, 2), Int(64, 3)], 3)
    ensures WellFormed(v)
    ensures RenderValue(v, 0, formatFloat).text ==
      "<div>[]" + "int" + " {<ul>" +
      ("<li>" + EditField(0, "1") + ",</li>" + "<li>" + EditField(1, "2") + ",</li>" + "<li>" + EditField(2, "3") + ",</li>") +
      "}</ul></div>"
  {
    OneTwoThree(formatFloat);
    assert WellFormed(v);
    ListOfThree(v, formatFloat, EditField(0, "1"), EditField(1, "2"), EditField(2, "3"));
  }

  function Example(): Value {
    Struct("exampleStruct", [Field("myString", Str("hello")), Field("myNumber", Int(64, 5)), Field("myBool", Bool(true))])
  }

  /** A struct renders as a list of named inputs, unexported fields
      included. */
  lemma RenderStructExample(v: Value, formatFloat: (nat, nat) -> string)
    requires v == Example()
    ensures WellFormed(v)
    ensures RenderValue(v, 0, formatFloat).text ==
      "<div>" + "exampleStruct" + " {<ul>" +
      ("<li>" + "myString" + ": " + EditField(0, "hello") + ",</li>" +
       "<li>" + "myNumber" + ": " + EditField(1, "5") + ",</li>" +
       "<li>" + "myBool" + ": " + EditField(2, "true") + ",</li>") +
      "}</ul></div>"
  {
    IntInput(5, 1, formatFloat);
    assert FormatNat(5) == "5";
    assert WellFormed(v.fields[0].value) && WellFormed(v.fields[2].value);
    assert WellFormed(v);
    StructOfThree(v, formatFloat, EditField(0, "hello"), EditField(1, "5"), EditField(2, "true"));
  }

  /** A pointer renders as "&" before its target, and nil as "nil". */
  lemma RenderPointerExample(formatFloat: (nat, nat) -> string)
    ensures RenderValue(Ptr(Some(Int(64, 5))), 0, formatFloat) == Rendering("&" + EditField(0, "5"), 1, None)
    ensures RenderValue(Ptr(None), 0, formatFloat) == Rendering("nil", 0, None)
  {
    IntInput(5, 0, formatFloat);
    assert FormatNat(5) == "5";
  }
}
