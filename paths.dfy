/** Paths to a field inside the edited value (path.go).  A path is a list of
    segments, each a struct-field name or, when the name is empty, an index.
    The text form separates segments with dots.  In memory the list is a
    chain of `PathNode`s that a recursive walk extends and truncates in
    place. */
module Paths {
  import opened Conv
  import opened Errors

  /** One link's payload: `name`, or `index` when `name` is empty. */
  datatype Segment = Segment(name: string, index: int)

  /* ---------------------------------------------------------------------
     The text form
     --------------------------------------------------------------------- */

  /** `strings.Split(s, ".")`: the pieces between the dots, empty pieces
      included, so that there is always one more piece than there are dots. */
  function Split(s: string): (pieces: seq<string>)
    ensures |pieces| >= 1
    ensures forall i :: 0 <= i < |pieces| ==> '.' !in pieces[i]
    decreases |s|
  {
    if s == [] then [""]
    else
      var rest := Split(s[1..]);
      if s[0] == '.' then [""] + rest
      else [[s[0]] + rest[0]] + rest[1..]
  }

  /** `strings.Join(pieces, ".")`. */
  function Join(pieces: seq<string>): string {
    if pieces == [] then ""
    else if |pieces| == 1 then pieces[0]
    else pieces[0] + "." + Join(pieces[1..])
  }

  /** Joining the pieces of a split gives back the text. */
  lemma {:induction false} JoinSplit(s: string)
    ensures Join(Split(s)) == s
    decreases |s|
  {
    if s != [] {
      JoinSplit(s[1..]);
      var rest := Split(s[1..]);
      if s[0] == '.' {
        assert s == "." + s[1..];
      } else if |rest| == 1 {
        assert s == [s[0]] + s[1..];
      } else {
        assert s == [s[0]] + s[1..];
        assert ([[s[0]] + rest[0]] + rest[1..])[1..] == rest[1..];
      }
    }
  }

  lemma {:induction false} SplitNoDotPrefix(a: string, t: string)
    requires '.' !in a
    ensures Split(a + t) == [a + Split(t)[0]] + Split(t)[1..]
    decreases |a|
  {
    if a == [] {
      assert a + t == t;
      assert a + Split(t)[0] == Split(t)[0];
      assert [Split(t)[0]] + Split(t)[1..] == Split(t);
    } else {
      assert (a + t)[1..] == a[1..] + t;
      SplitNoDotPrefix(a[1..], t);
      assert [a[0]] + (a[1..] + Split(t)[0]) == a + Split(t)[0];
    }
  }

  /** Splitting dot-free pieces joined by dots gives the pieces back. */
  lemma {:induction false} SplitJoin(pieces: seq<string>)
    requires |pieces| >= 1
    requires forall i :: 0 <= i < |pieces| ==> '.' !in pieces[i]
    ensures Split(Join(pieces)) == pieces
    decreases |pieces|
  {
    if |pieces| == 1 {
      SplitNoDotPrefix(pieces[0], "");
      assert pieces[0] + "" == pieces[0];
    } else {
      SplitJoin(pieces[1..]);
      var t := "." + Join(pieces[1..]);
      assert Join(pieces) == pieces[0] + t;
      SplitNoDotPrefix(pieces[0], t);
      assert t[1..] == Join(pieces[1..]);
      assert Split(t) == [""] + pieces[1..];
      assert pieces[0] + "" == pieces[0];
    }
  }

  /** encodePath: a piece whose first character is a decimal digit is an
      index read by `Atoi`; any other piece, the empty one included, is a
      name. */
  function EncodePiece(piece: string): Result<Segment> {
    if piece != [] && IsDigit(piece[0]) then
      match Atoi(piece)
      case None => Err(MalformedIndex(piece))
      case Some(n) => Ok(Segment("", n))
    else Ok(Segment(piece, 0))
  }

  /** The outcomes of encoding one piece. */
  lemma EncodePieceCases(piece: string)
    ensures piece != [] && IsDigit(piece[0]) ==>
      (EncodePiece(piece).Ok? <==> AllDigits(piece, 10) && DigitsValue(piece, 10) <= MaxInt64)
    ensures piece != [] && IsDigit(piece[0]) && EncodePiece(piece).Ok? ==>
      EncodePiece(piece).value == Segment("", DigitsValue(piece, 10))
    ensures piece != [] && IsDigit(piece[0]) && EncodePiece(piece).Err? ==>
      EncodePiece(piece).error == MalformedIndex(piece)
    ensures !(piece != [] && IsDigit(piece[0])) ==> EncodePiece(piece) == Ok(Segment(piece, 0))
  {
    if piece != [] && IsDigit(piece[0]) {
      AtoiDigitLed(piece);
    }
  }

  /** An empty piece, as in "a..b" or "a.", has an empty name and index 0,
      which is exactly the segment that addresses element 0. */
  lemma EmptyPieceIsIndexZero()
    ensures EncodePiece("") == EncodePiece("0") == Ok(Segment("", 0))
  {
    AtoiFormatNat(0);
  }

  /** sliceToPath: the pieces encoded in order; the first piece that fails
      fails the whole list. */
  function EncodeAll(pieces: seq<string>): Result<seq<Segment>> {
    if pieces == [] then Ok([])
    else
      match EncodePiece(pieces[0])
      case Err(e) => Err(e)
      case Ok(seg) =>
        match EncodeAll(pieces[1..])
        case Err(e) => Err(e)
        case Ok(rest) => Ok([seg] + rest)
  }

  /** One segment per piece, in order, or the error of the first piece that
      fails (and then no segments at all). */
  lemma {:induction false} EncodeAllPieces(pieces: seq<string>)
    ensures EncodeAll(pieces).Ok? <==> forall i :: 0 <= i < |pieces| ==> EncodePiece(pieces[i]).Ok?
    ensures EncodeAll(pieces).Ok? ==>
      |EncodeAll(pieces).value| == |pieces| &&
      forall i :: 0 <= i < |pieces| ==> EncodeAll(pieces).value[i] == EncodePiece(pieces[i]).value
    ensures EncodeAll(pieces).Err? ==>
      exists j :: 0 <= j < |pieces| && EncodePiece(pieces[j]).Err? &&
        EncodeAll(pieces).error == EncodePiece(pieces[j]).error && forall i :: 0 <= i < j ==> EncodePiece(pieces[i]).Ok?
    decreases |pieces|
  {
    if pieces != [] {
      EncodeAllPieces(pieces[1..]);
      if EncodePiece(pieces[0]).Ok? && EncodeAll(pieces[1..]).Err? {
        var j :| 0 <= j < |pieces[1..]| && EncodePiece(pieces[1..][j]).Err? &&
          EncodeAll(pieces[1..]).error == EncodePiece(pieces[1..][j]).error && forall i :: 0 <= i < j ==> EncodePiece(pieces[1..][i]).Ok?;
        assert forall i :: 0 <= i < j + 1 ==> EncodePiece(pieces[i]).Ok? by {
          forall i | 0 <= i < j + 1 ensures EncodePiece(pieces[i]).Ok? {
            if i > 0 { assert pieces[i] == pieces[1..][i - 1]; }
          }
        }
        assert EncodePiece(pieces[j + 1]).Err?;
      }
      if EncodeAll(pieces).Ok? {
        forall i | 0 <= i < |pieces| ensures EncodePiece(pieces[i]).Ok? {
          if i > 0 { assert pieces[i] == pieces[1..][i - 1]; }
        }
      } else if EncodePiece(pieces[0]).Ok? {
        assert EncodeAll(pieces[1..]).Err?;
      }
    }
  }

  /** Appending more pieces extends the segments of a successful prefix. */
  lemma {:induction false} EncodeAllAppend(a: seq<string>, b: seq<string>)
    requires EncodeAll(a).Ok?
    ensures EncodeAll(a + b) ==
      match EncodeAll(b)
      case Err(e) => Err(e)
      case Ok(y) => Ok(EncodeAll(a).value + y)
    decreases |a|
  {
    if a == [] {
      assert a + b == b;
      assert EncodeAll(a).value == [];
      match EncodeAll(b)
      case Err(e) =>
      case Ok(y) => assert [] + y == y;
    } else {
      assert (a + b)[1..] == a[1..] + b;
      EncodeAllAppend(a[1..], b);
      match EncodeAll(b)
      case Err(e) =>
      case Ok(y) =>
        var seg := EncodePiece(a[0]).value;
        assert [seg] + (EncodeAll(a[1..]).value + y) == ([seg] + EncodeAll(a[1..]).value) + y;
    }
  }

  /** StringToPath: the empty text is the root path, with no segments;
      any other text is its pieces encoded. */
  function ParsePath(s: string): Result<seq<Segment>> {
    if s == "" then Ok([]) else EncodeAll(Split(s))
  }

  /** The root path is the only one the empty text denotes; every other
      text has one segment per dot-separated piece. */
  lemma ParsePathShape(s: string)
    ensures ParsePath("") == Ok([])
    ensures s != "" && ParsePath(s).Ok? ==> |ParsePath(s).value| == |Split(s)| >= 1
    ensures s != "" ==> (ParsePath(s).Ok? <==> forall i :: 0 <= i < |Split(s)| ==> EncodePiece(Split(s)[i]).Ok?)
  {
    if s != "" {
      assert ParsePath(s) == EncodeAll(Split(s));
      EncodeAllPieces(Split(s));
    }
  }

  /** How `String` prints one segment: its name, or its index in decimal. */
  function SegmentText(seg: Segment): (t: string)
    ensures t != []
  {
    if seg.name == "" then FormatInt(seg.index) else seg.name
  }

  /** Path.String: the segments' texts, each followed by a dot and the text
      of the rest when the rest prints as something. */
  function PathText(segs: seq<Segment>): string {
    if segs == [] then ""
    else
      var sub := PathText(segs[1..]);
      var elt := SegmentText(segs[0]);
      if sub == "" then elt else elt + "." + sub
  }

  function Texts(segs: seq<Segment>): (ts: seq<string>)
    ensures |ts| == |segs|
    ensures forall i :: 0 <= i < |segs| ==> ts[i] == SegmentText(segs[i])
  {
    if segs == [] then [] else [SegmentText(segs[0])] + Texts(segs[1..])
  }

  /** `String` is the segments' texts joined by dots, and prints nothing
      exactly for the root path. */
  lemma {:induction false} PathTextJoin(segs: seq<Segment>)
    ensures PathText(segs) == Join(Texts(segs))
    ensures PathText(segs) == "" <==> segs == []
    decreases |segs|
  {
    if segs != [] {
      PathTextJoin(segs[1..]);
      assert Texts(segs)[1..] == Texts(segs[1..]);
    }
  }

  /** The segments `String` and `StringToPath` agree on: an index that is a
      non-negative `int64`, or a non-empty name that has no dot, does not
      start with a digit, and leaves the index at 0. */
  predicate Canonical(seg: Segment) {
    if seg.name == "" then 0 <= seg.index <= MaxInt64
    else seg.index == 0 && '.' !in seg.name && !IsDigit(seg.name[0])
  }

  lemma EncodeSegmentText(seg: Segment)
    requires Canonical(seg)
    ensures EncodePiece(SegmentText(seg)) == Ok(seg)
    ensures '.' !in SegmentText(seg)
  {
    if seg.name == "" {
      var t := FormatNat(seg.index);
      AtoiFormatNat(seg.index);
      assert DigitValue('.') == 36;
      assert forall i :: 0 <= i < |t| ==> t[i] != '.';
    }
  }

  lemma {:induction false} EncodeAllTexts(segs: seq<Segment>)
    requires forall i :: 0 <= i < |segs| ==> Canonical(segs[i])
    ensures EncodeAll(Texts(segs)) == Ok(segs)
    decreases |segs|
  {
    if segs != [] {
      var ts := Texts(segs);
      EncodeSegmentText(segs[0]);
      assert EncodePiece(ts[0]) == Ok(segs[0]);
      assert ts[1..] == Texts(segs[1..]);
      EncodeAllTexts(segs[1..]);
      assert EncodeAll(ts) == Ok([segs[0]] + segs[1..]);
      assert [segs[0]] + segs[1..] == segs;
    }
  }

  /** Every segment `StringToPath` produces is one `String` prints back
      faithfully. */
  lemma ParsePathCanonical(s: string)
    requires ParsePath(s).Ok?
    ensures forall i :: 0 <= i < |ParsePath(s).value| ==> Canonical(ParsePath(s).value[i])
  {
    if s != "" {
      var pieces := Split(s);
      EncodeAllPieces(pieces);
      forall i | 0 <= i < |ParsePath(s).value| ensures Canonical(ParsePath(s).value[i]) {
        EncodePieceCases(pieces[i]);
      }
    }
  }

  /** A piece `String` would print as is: a name that does not start with a
      digit, or the decimal digits of an `int64` with no leading zero. */
  predicate PrintablePiece(piece: string) {
    piece != [] &&
    (IsDigit(piece[0]) ==>
      AllDigits(piece, 10) && (piece[0] != '0' || |piece| == 1) && DigitsValue(piece, 10) <= MaxInt64)
  }

  /** `String` gives back the text `StringToPath` read, when every piece of
      it is printable; in any case, printing a parsed path and reading it
      again gives the same segments. */
  lemma PrintParse(s: string)
    requires ParsePath(s).Ok?
    ensures (forall i :: 0 <= i < |Split(s)| ==> PrintablePiece(Split(s)[i])) ==>
      PathText(ParsePath(s).value) == s
    ensures ParsePath(PathText(ParsePath(s).value)) == ParsePath(s)
  {
    var segs := ParsePath(s).value;
    ParsePathCanonical(s);
    RoundTrip(segs);
    if s != "" && forall i :: 0 <= i < |Split(s)| ==> PrintablePiece(Split(s)[i]) {
      var pieces := Split(s);
      EncodeAllPieces(pieces);
      forall i | 0 <= i < |pieces| ensures Texts(segs)[i] == pieces[i] {
        EncodePieceCases(pieces[i]);
        if IsDigit(pieces[i][0]) {
          FormatNatDigits(pieces[i]);
        }
      }
      assert Texts(segs) == pieces;
      PathTextJoin(segs);
      JoinSplit(s);
    }
  }

  /** Round trip: reading back what `String` prints gives the same segments. */
  lemma RoundTrip(segs: seq<Segment>)
    requires forall i :: 0 <= i < |segs| ==> Canonical(segs[i])
    ensures ParsePath(PathText(segs)) == Ok(segs)
  {
    PathTextJoin(segs);
    if segs != [] {
      forall i | 0 <= i < |segs| ensures '.' !in Texts(segs)[i] {
        EncodeSegmentText(segs[i]);
      }
      SplitJoin(Texts(segs));
      EncodeAllTexts(segs);
    }
  }

  /* ---------------------------------------------------------------------
     The linked form
     --------------------------------------------------------------------- */

  /** A `Path` struct of path.go.  No code of the engine changes a node's
      name or index once it is built; only `next` is rewritten. */
  class PathNode {
    const name: string
    const index: int
    var next: PathNode?

    constructor (name: string, index: int)
      ensures this.name == name && this.index == index && next == null
    {
      this.name := name;
      this.index := index;
      next := null;
    }
  }

  /** The segments a sequence of nodes carries. */
  function SegmentsOf(ns: seq<PathNode>): seq<Segment> {
    seq(|ns|, i requires 0 <= i < |ns| => Segment(ns[i].name, ns[i].index))
  }

  /** `p` heads an acyclic chain that visits exactly the nodes `ns`, in order. */
  ghost predicate Spine(p: PathNode?, ns: seq<PathNode>)
    reads set i | 0 <= i < |ns| :: ns[i]
  {
    (if ns == [] then p == null else p == ns[0]) &&
    (forall i, j :: 0 <= i < j < |ns| ==> ns[i] != ns[j]) &&
    (forall i :: 0 <= i < |ns| - 1 ==> ns[i].next == ns[i + 1]) &&
    (ns != [] ==> ns[|ns| - 1].next == null)
  }

  ghost predicate Disjoint(a: seq<PathNode>, b: seq<PathNode>) {
    forall i, j :: 0 <= i < |a| && 0 <= j < |b| ==> a[i] != b[j]
  }

  /** A chain determines its nodes: two spines from the same head agree. */
  lemma {:induction false} SpineUnique(p: PathNode?, ns1: seq<PathNode>, ns2: seq<PathNode>)
    requires Spine(p, ns1) && Spine(p, ns2)
    ensures ns1 == ns2
    decreases |ns1|
  {
    if ns1 != [] && ns2 != [] {
      assert ns1[0] == ns2[0];
      assert Spine(p.next, ns1[1..]);
      assert Spine(p.next, ns2[1..]);
      SpineUnique(p.next, ns1[1..], ns2[1..]);
      assert ns1 == [ns1[0]] + ns1[1..];
      assert ns2 == [ns2[0]] + ns2[1..];
    }
  }

  lemma SegmentsOfAppend(a: seq<PathNode>, b: seq<PathNode>)
    ensures SegmentsOf(a + b) == SegmentsOf(a) + SegmentsOf(b)
  {
  }

  /** sliceToPath: a fresh chain with one node per piece, built front to back
      by linking each new node after the current last one. */
  method SliceToPath(slice: seq<string>) returns (r: Result<PathNode?>, ghost ns: seq<PathNode>)
    ensures r.Ok? <==> EncodeAll(slice).Ok?
    ensures r.Err? ==> r.error == EncodeAll(slice).error
    ensures r.Ok? ==> Spine(r.value, ns) && SegmentsOf(ns) == EncodeAll(slice).value
    ensures forall i :: 0 <= i < |ns| ==> fresh(ns[i])
  {
    var first: PathNode? := null;
    var cur: PathNode? := null;
    ns := [];
    for k := 0 to |slice|
      invariant EncodeAll(slice[..k]).Ok?
      invariant SegmentsOf(ns) == EncodeAll(slice[..k]).value
      invariant Spine(first, ns)
      invariant cur == (if ns == [] then null else ns[|ns| - 1])
      invariant forall i :: 0 <= i < |ns| ==> fresh(ns[i])
    {
      var pathEl := EncodePiece(slice[k]);
      assert slice[..k + 1] == slice[..k] + [slice[k]];
      EncodeAllAppend(slice[..k], [slice[k]]);
      if pathEl.Err? {
        assert slice == slice[..k] + slice[k..];
        EncodeAllAppend(slice[..k], slice[k..]);
        assert slice[k..][0] == slice[k];
        return Err(pathEl.error), [];
      }
      var node := new PathNode(pathEl.value.name, pathEl.value.index);
      if first == null {
        first := node;
      } else {
        cur.next := node;
      }
      cur := node;
      ns := ns + [node];
    }
    assert slice[..|slice|] == slice;
    return Ok(first), ns;
  }

  /** StringToPath: nil for the empty text, otherwise a fresh chain for the
      dot-separated pieces, or the error of the first malformed index. */
  method StringToPath(s: string) returns (r: Result<PathNode?>, ghost ns: seq<PathNode>)
    ensures r.Ok? <==> ParsePath(s).Ok?
    ensures r.Err? ==> r.error == ParsePath(s).error
    ensures r.Ok? ==> Spine(r.value, ns) && SegmentsOf(ns) == ParsePath(s).value
    ensures s == "" ==> r == Ok(null)
    ensures forall i :: 0 <= i < |ns| ==> fresh(ns[i])
  {
    if s == "" {
      return Ok(null), [];
    }
    var sliced := Split(s);
    r, ns := SliceToPath(sliced);
  }

  /** Path.Append: the chain of `newElement` hung after the last node of `p`.
      The root is `p` itself unless `p` is nil, and then it is `newElement`. */
  method Append(p: PathNode?, newElement: PathNode?, ghost pn: seq<PathNode>, ghost en: seq<PathNode>)
    returns (r: PathNode?)
    requires Spine(p, pn) && Spine(newElement, en) && Disjoint(pn, en)
    modifies if pn == [] then {} else {pn[|pn| - 1]}
    ensures Spine(r, pn + en)
    ensures r == if pn == [] then newElement else p
  {
    var prevEl: PathNode? := null;
    var curEl := p;
    ghost var k := 0;
    while curEl != null
      invariant 0 <= k <= |pn|
      invariant curEl == (if k < |pn| then pn[k] else null)
      invariant prevEl == (if k == 0 then null else pn[k - 1])
      decreases |pn| - k
    {
      prevEl, curEl := curEl, curEl.next;
      k := k + 1;
    }
    if prevEl != null {
      prevEl.next := newElement;
      return p;
    } else {
      return newElement;
    }
  }

  /** Path.RemoveLast: nil for a chain of at most one node, which is left as
      it was; otherwise the last node is unlinked and the root is kept. */
  method RemoveLast(p: PathNode?, ghost pn: seq<PathNode>) returns (r: PathNode?)
    requires Spine(p, pn)
    modifies if |pn| >= 2 then {pn[|pn| - 2]} else {}
    ensures |pn| <= 1 ==> r == null && Spine(p, pn)
    ensures |pn| >= 2 ==> r == p && Spine(p, pn[..|pn| - 1]) && Spine(pn[|pn| - 1], [pn[|pn| - 1]])
  {
    assert |pn| >= 2 ==> p.next == pn[1];
    if p == null || p.next == null {
      return null;
    }
    var prevEl := p;
    var curEl := p.next;
    ghost var k := 1;
    while curEl.next != null
      invariant 1 <= k < |pn|
      invariant curEl == pn[k] && prevEl == pn[k - 1]
      decreases |pn| - k
    {
      assert curEl.next == pn[k + 1];
      prevEl, curEl := curEl, curEl.next;
      k := k + 1;
    }
    prevEl.next := null;
    return p;
  }

  /** The segments of a chain, read by walking it. */
  method ReadSegments(p: PathNode?, ghost ns: seq<PathNode>) returns (segs: seq<Segment>)
    requires Spine(p, ns)
    ensures segs == SegmentsOf(ns)
  {
    segs := [];
    var cur := p;
    ghost var k := 0;
    while cur != null
      invariant 0 <= k <= |ns|
      invariant cur == (if k < |ns| then ns[k] else null)
      invariant segs == SegmentsOf(ns[..k])
      decreases |ns| - k
    {
      assert ns[..k + 1] == ns[..k] + [ns[k]];
      segs := segs + [Segment(cur.name, cur.index)];
      cur := cur.next;
      k := k + 1;
    }
    assert ns[..k] == ns;
  }

  /** Path.Visiting: `doing` runs on the path extended by `element` and its
      result is returned.  With a one-node element the chain of `p` is
      restored exactly; a longer element leaves all but its last node
      hanging after `p`. */
  method Visiting<R>(p: PathNode?, element: PathNode?, doing: seq<Segment> -> R,
                     ghost pn: seq<PathNode>, ghost en: seq<PathNode>) returns (result: R)
    requires Spine(p, pn) && Spine(element, en) && Disjoint(pn, en)
    modifies (set i | 0 <= i < |pn| :: pn[i]), (set i | 0 <= i < |en| :: en[i])
    ensures result == doing(SegmentsOf(pn) + SegmentsOf(en))
    ensures |en| == 1 ==> Spine(p, pn) && Spine(element, en)
    ensures pn != [] && |en| >= 2 ==> Spine(p, pn + en[..|en| - 1])
    ensures |en| == 0 && |pn| >= 2 ==> Spine(p, pn[..|pn| - 1])
  {
    var updated := Append(p, element, pn, en);
    var seen := ReadSegments(updated, pn + en);
    SegmentsOfAppend(pn, en);
    result := doing(seen);
    ghost var all := pn + en;
    if |en| == 0 {
      assert all == pn;
    } else if |en| == 1 && pn != [] {
      assert all[|all| - 2] == pn[|pn| - 1];
    } else if |en| >= 2 {
      assert all[|all| - 2] == en[|en| - 2];
    }
    var restored := RemoveLast(updated, all);
    if pn != [] {
      if |en| == 1 {
        assert all[..|all| - 1] == pn;
        assert [all[|all| - 1]] == en;
      } else if |en| >= 2 {
        assert all[..|all| - 1] == pn + en[..|en| - 1];
      }
    }
  }

  /** Path.String, recursive on the chain as the source is. */
  method PathString(p: PathNode?, ghost ns: seq<PathNode>) returns (s: string)
    requires Spine(p, ns)
    ensures s == PathText(SegmentsOf(ns))
    decreases |ns|
  {
    if p == null {
      return "";
    }
    assert Spine(p.next, ns[1..]);
    var subpath := PathString(p.next, ns[1..]);
    assert SegmentsOf(ns)[1..] == SegmentsOf(ns[1..]);
    var elt := p.name;
    if elt == "" {
      elt := FormatInt(p.index);
    }
    if subpath == "" {
      s := elt;
    } else {
      s := elt + "." + subpath;
    }
  }
}
