/** The editor object that ties the path codec, the locator, the operators
    and the renderer together (editor.go, with the Mutate of mutate.go and
    the Render of render.go). */
module Editors {
  import opened Conv
  import opened Values
  import opened Errors
  import opened Paths
  import opened Mutation
  import opened Render

  /** The edited state and the address edits are sent to.  The state is the
      whole value tree the editor was given; an edit replaces the part of it
      the path names. */
  class Editor {
    var state: Value
    const mutateUrl: string

    ghost predicate Valid()
      reads this
    {
      WellFormed(state)
    }

    constructor (state: Value, mutateUrl: string)
      requires WellFormed(state)
      ensures this.state == state && this.mutateUrl == mutateUrl && Valid()
    {
      this.state := state;
      this.mutateUrl := mutateUrl;
    }

    /** editor.Mutate: parse the path into its chain, locate the value the
        chain names, and apply the operator there.  On any error the state
        is left as it was. */
    method Mutate(path: string, op: Operator, parseFloat: string -> Option<nat>) returns (err: Option<Error>)
      requires Valid()
      modifies this
      ensures Valid()
      ensures var r := Mutated(old(state), path, op, parseFloat);
        (r.Ok? ==> err.None? && state == r.value) &&
        (r.Err? ==> err == Some(r.error) && state == old(state))
    {
      var chain, nodes := StringToPath(path);
      if chain.Err? {
        return Some(chain.error);
      }
      var p := ReadSegments(chain.value, nodes);
      var found := FindValueToChange(p, RootHandle(state), ModifiesPointer(op));
      if found.Err? {
        return Some(found.error);
      }
      var h := found.value;
      var applied := Apply(op, h, parseFloat);
      if applied.Err? {
        return Some(applied.error);
      }
      LocateFound(p, RootHandle(state), ModifiesPointer(op));
      ApplyKeepsKind(op, h, parseFloat);
      UpdateAtWellFormed(state, h.loc, applied.value);
      state := UpdateAt(state, h.loc, applied.value);
      err := None;
    }

    /** editor.Render: a fresh renderer, marked editable when the state is
        held through a pointer, renders the whole state from input number
        0. */
    method Render(formatFloat: (nat, nat) -> string) returns (s: string, err: Option<Error>)
      requires Valid()
      ensures var r := RenderValue(state, 0, formatFloat);
        s == r.text && err == r.err
      ensures err.None? <==> Renderable(state)
    {
      var r := NewRenderer(state);
      s, err := r.RenderElement(state, formatFloat);
    }
  }
}
