/** The HTML renderer (render.go).  A `Renderer` numbers the input fields it
    writes; `RenderValue` is the text and numbering one call produces, as a
    function of the value and the first free number, and each method of the
    renderer is proved to produce exactly that. */
module Render {
  import opened Conv
  import opened Values
  import opened Errors

  /** What rendering one value produces: the text, the next free input
      number, and the error, if any. */
  datatype Rendering = Rendering(text: string, next: nat, err: Option<Error>)

  /** The input element for a scalar, numbered `id`. */
  function EditField(id: nat, value: string): string {
    "<input type='text' id='input-" + FormatNat(id) + "' value='" + value + "'>"
  }

  /** The text a scalar shows: `%d` for integers, `%v` for bools, the string
      itself, and whatever `%f` makes of a float (given as `formatFloat`, on
      the width and bit pattern). */
  function ScalarText(v: Value, formatFloat: (nat, nat) -> string): string
    requires v.IsScalar()
  {
    match v
    case Int(_, i) => FormatInt(i)
    case Uint(_, u) => FormatNat(u)
    case Float(bits, repr) => formatFloat(bits, repr)
    case Bool(b) => FormatBool(b)
    case Str(s) => s
  }

  /* ---------------------------------------------------------------------
     What a rendering consists of
     --------------------------------------------------------------------- */

  /** A value renders without error when nothing the renderer visits is an
      interface or of a kind it has no case for; nil pointers and the hidden
      part of a slice's store are not visited. */
  predicate Renderable(v: Value)
    decreases v
  {
    match v
    case Struct(_, fields) => forall j :: 0 <= j < |fields| ==> Renderable(fields[j].value)
    case Array(_, elems) => forall j :: 0 <= j < |elems| ==> Renderable(elems[j])
    case Slice(_, _, backing, len) => forall j :: 0 <= j < len && j < |backing| ==> Renderable(backing[j])
    case Ptr(target) => target.Some? ==> Renderable(target.value)
    case Iface(_) => false
    case Other(_) => false
    case _ => true
  }

  /** How many input fields a value renders to: one per scalar visited. */
  function InputCount(v: Value): nat
    decreases v, 1
  {
    match v
    case Struct(_, fields) => FieldInputs(v, |fields|)
    case Array(_, elems) => ElemInputs(v, |elems|)
    case Slice(_, _, backing, len) => ElemInputs(v, if len <= |backing| then len else |backing|)
    case Ptr(target) => if target.Some? then InputCount(target.value) else 0
    case Iface(_) => 0
    case Other(_) => 0
    case _ => 1
  }

  function FieldInputs(v: Value, n: nat): nat
    requires v.Struct? && n <= |v.fields|
    decreases v, 0, n
  {
    if n == 0 then 0 else FieldInputs(v, n - 1) + InputCount(v.fields[n - 1].value)
  }

  function ElemInputs(v: Value, n: nat): nat
    requires (v.Array? && n <= |v.elems|) || (v.Slice? && n <= |v.backing|)
    decreases v, 0, n
  {
    if n == 0 then 0
    else ElemInputs(v, n - 1) + InputCount(ElemAt(v, n - 1))
  }

  /* ---------------------------------------------------------------------
     The rendering
     --------------------------------------------------------------------- */

  /** renderElement: scalars become numbered input fields, everything else
      goes to the composite renderer. */
  function RenderValue(v: Value, id: nat, formatFloat: (nat, nat) -> string): (r: Rendering)
    ensures r.err.None? <==> Renderable(v)
    ensures r.err.None? ==> r.next == id + InputCount(v)
    ensures r.next >= id
    decreases v, 2
  {
    if v.IsScalar() then Rendering(EditField(id, ScalarText(v, formatFloat)), id + 1, None)
    else RenderCompositeValue(v, id, formatFloat)
  }

  /** renderComposite and the renderers it dispatches to.  A struct, array or
      slice whose item fails yields no text; a pointer keeps "&" before
      whatever its target yielded, error or not. */
  function RenderCompositeValue(v: Value, id: nat, formatFloat: (nat, nat) -> string): (r: Rendering)
    requires !v.IsScalar()
    ensures r.err.None? <==> Renderable(v)
    ensures r.err.None? ==> r.next == id + InputCount(v)
    ensures r.next >= id
    decreases v, 1
  {
    match v
    case Struct(typeName, fields) =>
      var body := StructItems(v, |fields|, id, formatFloat);
      if body.err.Some? then Rendering("", body.next, body.err)
      else Rendering("<div>" + typeName + " {<ul>" + body.text + "}</ul></div>", body.next, None)
    case Array(elemType, elems) =>
      var body := ElemItems(v, |elems|, id, formatFloat);
      assert forall j :: 0 <= j < |elems| ==> ElemAt(v, j) == elems[j];
      if body.err.Some? then Rendering("", body.next, body.err)
      else Rendering("<div>[" + FormatNat(|elems|) + "]" + elemType + " {<ul>" + body.text + "}</ul></div>", body.next, None)
    case Slice(elemType, _, backing, _) =>
      var body := ElemItems(v, ElemCount(v), id, formatFloat);
      assert forall j :: 0 <= j < ElemCount(v) ==> ElemAt(v, j) == backing[j];
      if body.err.Some? then Rendering("", body.next, body.err)
      else Rendering("<div>[]" + elemType + " {<ul>" + body.text + "}</ul></div>", body.next, None)
    case Ptr(target) =>
      if target.None? then Rendering("nil", id, None)
      else
        var inner := RenderValue(target.value, id, formatFloat);
        Rendering("&" + inner.text, inner.next, inner.err)
    case _ => Rendering("", id, Some(UnknownRenderKind(v.Kind())))
  }

  /** The list items of the first `n` fields of a struct, or the first error. */
  function StructItems(v: Value, n: nat, id: nat, formatFloat: (nat, nat) -> string): (r: Rendering)
    requires v.Struct? && n <= |v.fields|
    ensures r.err.None? <==> forall j :: 0 <= j < n ==> Renderable(v.fields[j].value)
    ensures r.err.None? ==> r.next == id + FieldInputs(v, n)
    ensures r.next >= id
    decreases v, 0, n
  {
    if n == 0 then Rendering("", id, None)
    else
      var prev := StructItems(v, n - 1, id, formatFloat);
      if prev.err.Some? then prev
      else
        var item := RenderValue(v.fields[n - 1].value, prev.next, formatFloat);
        if item.err.Some? then Rendering("", item.next, item.err)
        else Rendering(prev.text + "<li>" + v.fields[n - 1].name + ": " + item.text + ",</li>", item.next, None)
  }

  /** How many elements an array or slice shows: all of an array's, the
      first `len` of a slice's backing store. */
  function ElemCount(v: Value): (r: nat)
    requires v.Array? || v.Slice?
    ensures v.Array? ==> r == |v.elems|
    ensures v.Slice? ==> r <= |v.backing|
    ensures v.Slice? && WellFormed(v) ==> r == |v.Visible()|
  {
    if v.Array? then |v.elems| else if v.len <= |v.backing| then v.len else |v.backing|
  }

  /** The element at position `j` of an array, or of a slice's backing. */
  function ElemAt(v: Value, j: nat): (r: Value)
    requires (v.Array? && j < |v.elems|) || (v.Slice? && j < |v.backing|)
    ensures v.Array? ==> r == v.elems[j]
    ensures v.Slice? ==> r == v.backing[j]
  {
    if v.Array? then v.elems[j] else v.backing[j]
  }

  /** The list items of the first `n` elements of an array or slice, or the
      first error. */
  function ElemItems(v: Value, n: nat, id: nat, formatFloat: (nat, nat) -> string): (r: Rendering)
    requires (v.Array? || v.Slice?) && n <= ElemCount(v)
    ensures r.err.None? <==> forall j :: 0 <= j < n ==> Renderable(ElemAt(v, j))
    ensures r.err.None? ==> r.next == id + ElemInputs(v, n)
    ensures r.next >= id
    decreases v, 0, n
  {
    if n == 0 then Rendering("", id, None)
    else
      var prev := ElemItems(v, n - 1, id, formatFloat);
      if prev.err.Some? then prev
      else
        var item := RenderValue(ElemAt(v, n - 1), prev.next, formatFloat);
        if item.err.Some? then Rendering("", item.next, item.err)
        else Rendering(prev.text + "<li>" + item.text + ",</li>", item.next, None)
  }

  /** The renderer's state: the next input number and the editable flag
      (which the renderer sets but never reads). */
  class Renderer {
    var nextId: nat
    var editable: bool

    constructor ()
      ensures nextId == 0 && !editable
    {
      nextId := 0;
      editable := false;
    }

    /** getNextId: hands out the current number and advances it. */
    method GetNextId() returns (id: string)
      modifies this
      ensures id == "input-" + FormatNat(old(nextId))
      ensures nextId == old(nextId) + 1 && editable == old(editable)
    {
      var n := nextId;
      nextId := nextId + 1;
      id := "input-" + FormatNat(n);
    }

    /** renderEditField: an input element carrying the next number. */
    method RenderEditField(value: string) returns (s: string, err: Option<Error>)
      modifies this
      ensures s == EditField(old(nextId), value) && err.None?
      ensures nextId == old(nextId) + 1 && editable == old(editable)
    {
      var id := GetNextId();
      s := "<input type='text' id='" + id + "' value='" + value + "'>";
      err := None;
    }

    method RenderElement(v: Value, formatFloat: (nat, nat) -> string) returns (s: string, err: Option<Error>)
      modifies this
      ensures var r := RenderValue(v, old(nextId), formatFloat);
        s == r.text && err == r.err && nextId == r.next
      ensures editable == old(editable)
      decreases v, 2
    {
      if v.IsScalar() {
        s, err := RenderEditField(ScalarText(v, formatFloat));
      } else {
        s, err := RenderComposite(v, formatFloat);
      }
    }

    method RenderComposite(v: Value, formatFloat: (nat, nat) -> string) returns (s: string, err: Option<Error>)
      requires !v.IsScalar()
      modifies this
      ensures var r := RenderCompositeValue(v, old(nextId), formatFloat);
        s == r.text && err == r.err && nextId == r.next
      ensures editable == old(editable)
      decreases v, 1
    {
      match v
      case Struct(_, _) => s, err := RenderStruct(v, formatFloat);
      case Array(_, _) => s, err := RenderArray(v, formatFloat);
      case Slice(_, _, _, _) => s, err := RenderSlice(v, formatFloat);
      case Ptr(_) => s, err := RenderPtr(v, formatFloat);
      case _ => s, err := "", Some(UnknownRenderKind(v.Kind()));
    }

    method RenderStruct(v: Value, formatFloat: (nat, nat) -> string) returns (s: string, err: Option<Error>)
      requires v.Struct?
      modifies this
      ensures var r := RenderCompositeValue(v, old(nextId), formatFloat);
        s == r.text && err == r.err && nextId == r.next
      ensures editable == old(editable)
      decreases v, 0, 1
    {
      s, err := RenderFields(v, "<div>" + v.typeName + " {<ul>", formatFloat);
    }

    /** The loop of renderStruct: the header, one list item per field with
        its name, and the closing tags, or no text at the first field that
        fails. */
    method RenderFields(v: Value, header: string, formatFloat: (nat, nat) -> string) returns (s: string, err: Option<Error>)
      requires v.Struct?
      modifies this
      ensures var r := StructItems(v, |v.fields|, old(nextId), formatFloat);
        (r.err.None? ==> s == header + r.text + "}</ul></div>") &&
        (r.err.Some? ==> s == "") && err == r.err && nextId == r.next
      ensures editable == old(editable)
      decreases v, 0, 0
    {
      ghost var id := nextId;
      var fields := v.fields;
      s := header;
      for i := 0 to |fields|
        invariant StructItems(v, i, id, formatFloat).err.None?
        invariant nextId == StructItems(v, i, id, formatFloat).next
        invariant s == header + StructItems(v, i, id, formatFloat).text
        invariant editable == old(editable)
      {
        StructItemsStep(v, i, id, formatFloat, header, s);
        s := s + "<li>" + fields[i].name + ": ";
        var rendered, e := RenderElement(fields[i].value, formatFloat);
        if e.Some? {
          FirstStructError(v, i + 1, |fields|, id, formatFloat);
          return "", e;
        }
        s := s + rendered + ",</li>";
      }
      s := s + "}</ul></div>";
      err := None;
    }

    method RenderArray(v: Value, formatFloat: (nat, nat) -> string) returns (s: string, err: Option<Error>)
      requires v.Array?
      modifies this
      ensures var r := RenderCompositeValue(v, old(nextId), formatFloat);
        s == r.text && err == r.err && nextId == r.next
      ensures editable == old(editable)
      decreases v, 0, 1
    {
      var header := "<div>[" + FormatNat(|v.elems|) + "]" + v.elemType + " {<ul>";
      s, err := RenderElems(v, header, formatFloat);
    }

    method RenderSlice(v: Value, formatFloat: (nat, nat) -> string) returns (s: string, err: Option<Error>)
      requires v.Slice?
      modifies this
      ensures var r := RenderCompositeValue(v, old(nextId), formatFloat);
        s == r.text && err == r.err && nextId == r.next
      ensures editable == old(editable)
      decreases v, 0, 1
    {
      s, err := RenderElems(v, "<div>[]" + v.elemType + " {<ul>", formatFloat);
    }

    /** The loop renderArray and renderSlice share: the header, one list item
        per element shown, and the closing tags, or no text at the first
        element that fails. */
    method RenderElems(v: Value, header: string, formatFloat: (nat, nat) -> string) returns (s: string, err: Option<Error>)
      requires v.Array? || v.Slice?
      modifies this
      ensures var r := ElemItems(v, ElemCount(v), old(nextId), formatFloat);
        (r.err.None? ==> s == header + r.text + "}</ul></div>") &&
        (r.err.Some? ==> s == "") && err == r.err && nextId == r.next
      ensures editable == old(editable)
      decreases v, 0, 0
    {
      ghost var id := nextId;
      var len := ElemCount(v);
      s := header;
      for i := 0 to len
        invariant ElemItems(v, i, id, formatFloat).err.None?
        invariant nextId == ElemItems(v, i, id, formatFloat).next
        invariant s == header + ElemItems(v, i, id, formatFloat).text
        invariant editable == old(editable)
      {
        ghost var before := nextId;
        var subtext, e := RenderElement(ElemAt(v, i), formatFloat);
        ElemItemsAdvance(v, i, id, formatFloat, header, s, before, Rendering(subtext, nextId, e));
        if e.Some? {
          return "", e;
        }
        s := s + "<li>" + subtext + ",</li>";
      }
      s := s + "}</ul></div>";
      err := None;
    }

    method RenderPtr(v: Value, formatFloat: (nat, nat) -> string) returns (s: string, err: Option<Error>)
      requires v.Ptr?
      modifies this
      ensures var r := RenderCompositeValue(v, old(nextId), formatFloat);
        s == r.text && err == r.err && nextId == r.next
      ensures editable == old(editable)
      decreases v, 0
    {
      if v.target.None? {
        return "nil", None;
      }
      var innerText;
      innerText, err := RenderElement(v.target.value, formatFloat);
      s := "&" + innerText;
    }
  }

  /** The renderer Render starts with: numbering from 0, and marked editable
      exactly when the value to render is held through a pointer. */
  method NewRenderer(root: Value) returns (r: Renderer)
    ensures fresh(r) && r.nextId == 0
    ensures r.editable <==> root.Ptr?
  {
    r := new Renderer();
    if root.Ptr? {
      r.editable := true;
    }
  }

  /** Once the items of a struct fail at some field, the items of every
      longer prefix fail the same way. */
  lemma {:induction false} FirstStructError(v: Value, k: nat, n: nat, id: nat, formatFloat: (nat, nat) -> string)
    requires v.Struct? && k <= n <= |v.fields|
    requires StructItems(v, k, id, formatFloat).err.Some?
    ensures StructItems(v, n, id, formatFloat) == StructItems(v, k, id, formatFloat)
    decreases n
  {
    if n > k {
      FirstStructError(v, k, n - 1, id, formatFloat);
    }
  }

  /** The same for the items of an array or slice. */
  lemma {:induction false} FirstElemError(v: Value, k: nat, n: nat, id: nat, formatFloat: (nat, nat) -> string)
    requires (v.Array? || v.Slice?) && k <= n <= ElemCount(v)
    requires ElemItems(v, k, id, formatFloat).err.Some?
    ensures ElemItems(v, n, id, formatFloat) == ElemItems(v, k, id, formatFloat)
    decreases n
  {
    if n > k {
      FirstElemError(v, k, n - 1, id, formatFloat);
    }
  }

  lemma Assoc(a: string, b: string, c: string)
    ensures a + (b + c) == a + b + c
  {
  }

  /** One more field: its rendering, numbered from where the items before
      it stopped, decides the items up to and including it. */
  lemma StructItemsStep(v: Value, i: nat, id: nat, formatFloat: (nat, nat) -> string, header: string, s: string)
    requires v.Struct? && i < |v.fields| && StructItems(v, i, id, formatFloat).err.None?
    requires s == header + StructItems(v, i, id, formatFloat).text
    ensures var item := RenderValue(v.fields[i].value, StructItems(v, i, id, formatFloat).next, formatFloat);
      var r := StructItems(v, i + 1, id, formatFloat);
      r.next == item.next && r.err == item.err &&
      (item.err.None? ==> header + r.text == s + "<li>" + v.fields[i].name + ": " + item.text + ",</li>")
  {
    var prev := StructItems(v, i, id, formatFloat);
    var item := RenderValue(v.fields[i].value, prev.next, formatFloat);
    if item.err.None? {
      var p, n, t := prev.text, v.fields[i].name, item.text;
      assert StructItems(v, i + 1, id, formatFloat).text == p + "<li>" + n + ": " + t + ",</li>";
      Assoc(header, p + "<li>" + n + ": " + t, ",</li>");
      Assoc(header, p + "<li>" + n + ": ", t);
      Assoc(header, p + "<li>" + n, ": ");
      Assoc(header, p + "<li>", n);
      Assoc(header, p, "<li>");
    }
  }

  /** One more element: its rendering, numbered from where the items before
      it stopped, decides the items up to and including it. */
  lemma ElemItemsStep(v: Value, i: nat, id: nat, formatFloat: (nat, nat) -> string, header: string, s: string)
    requires v.Array? || v.Slice?
    requires i < ElemCount(v) && ElemItems(v, i, id, formatFloat).err.None?
    requires s == header + ElemItems(v, i, id, formatFloat).text
    ensures var item := RenderValue(ElemAt(v, i), ElemItems(v, i, id, formatFloat).next, formatFloat);
      var r := ElemItems(v, i + 1, id, formatFloat);
      r.next == item.next && r.err == item.err &&
      (item.err.None? ==> header + r.text == s + "<li>" + item.text + ",</li>")
  {
    var prev := ElemItems(v, i, id, formatFloat);
    var item := RenderValue(ElemAt(v, i), prev.next, formatFloat);
    if item.err.None? {
      var p, t := prev.text, item.text;
      assert ElemItems(v, i + 1, id, formatFloat).text == p + "<li>" + t + ",</li>";
      Assoc(header, p + "<li>" + t, ",</li>");
      Assoc(header, p + "<li>", t);
      Assoc(header, p, "<li>");
    }
  }

  /** One turn of the element loop: given the rendering of element `i`, the
      items of the first `i + 1` elements extend the text so far, or, when
      the element fails, the items of all elements fail with it. */
  lemma ElemItemsAdvance(v: Value, i: nat, id: nat, formatFloat: (nat, nat) -> string, header: string, s: string,
                         before: nat, item: Rendering)
    requires v.Array? || v.Slice?
    requires i < ElemCount(v) && ElemItems(v, i, id, formatFloat).err.None?
    requires before == ElemItems(v, i, id, formatFloat).next
    requires s == header + ElemItems(v, i, id, formatFloat).text
    requires item == RenderValue(ElemAt(v, i), before, formatFloat)
    ensures item.err.Some? ==>
      var r := ElemItems(v, ElemCount(v), id, formatFloat);
      r.err == item.err && r.next == item.next
    ensures item.err.None? ==>
      var r := ElemItems(v, i + 1, id, formatFloat);
      r.err.None? && r.next == item.next && header + r.text == s + "<li>" + item.text + ",</li>"
  {
    ElemItemsStep(v, i, id, formatFloat, header, s);
    if item.err.Some? {
      FirstElemError(v, i + 1, ElemCount(v), id, formatFloat);
    }
  }

  /** A struct, array or slice that fails to render leaves no text. */
  lemma FailedCompositeIsBlank(v: Value, id: nat, formatFloat: (nat, nat) -> string)
    requires v.Struct? || v.Array? || v.Slice?
    requires RenderValue(v, id, formatFloat).err.Some?
    ensures RenderValue(v, id, formatFloat).text == ""
  {
  }
}
