/** The parameter-list splitters: `parseParameters` of the compiler
    simulation, and `parseMotokoParameters`, `parseRustParameters` and
    `parseJavaScriptParameters` of the function parser. The first two and
    the Motoko one are the same code with the default type `Text`; the Rust
    one differs only in its default type `String`. */
module Parameters {
  import opened Wrappers
  import opened Text

  /** A parameter as the analysers record it: `{ name, type }`. */
  datatype Param = Param(name: string, typ: string)

  const MotokoDefault: string := "Text"
  const RustDefault: string := "String"
  const JavaScriptType: string := "any"

  /** One comma-separated piece, trimmed, then split at its last `:` into
      a trimmed name and a trimmed type; without a `:` the whole trimmed
      piece is the name and the type is `default`. */
  function ParamOf(piece: string, default: string): (p: Param)
    ensures IsTrimmed(p.name)
    ensures ':' in piece ==> IsTrimmed(p.typ) && ':' !in p.typ
    ensures ':' !in piece ==> p == Param(Trim(piece), default)
    ensures ',' !in piece ==> ',' !in p.name && (':' in piece ==> ',' !in p.typ)
  {
    var t := Trim(piece);
    assert ':' in piece ==> ':' in t by {
      if ':' in piece { TrimKeepsMark(piece, ':'); }
    }
    assert ',' !in piece ==> ',' !in t by {
      if ',' !in piece { TrimKeepsOut(piece, ','); }
    }
    SplitAtLastColon(t, default)
  }

  /** A trimmed piece split at its last `:`. */
  function SplitAtLastColon(t: string, default: string): (p: Param)
    requires IsTrimmed(t)
    ensures IsTrimmed(p.name)
    ensures ':' in t ==> IsTrimmed(p.typ) && ':' !in p.typ
    ensures ':' !in t ==> p == Param(t, default)
    ensures ',' !in t ==> ',' !in p.name && (':' in t ==> ',' !in p.typ)
  {
    match LastIndexOf(t, ':')
    case None => Param(t, default)
    case Some(k) =>
      SlicesKeepOut(t, k, ',');
      SlicesKeepOut(t, k, ':');
      Param(Trim(t[..k]), Trim(t[k + 1..]))
  }

  /** The two sides of index `k`, trimmed, hold no character that `t`
      does not hold, and no `c` if none follows `k`. */
  lemma SlicesKeepOut(t: string, k: nat, c: char)
    requires k < |t|
    ensures (forall j :: k < j < |t| ==> t[j] != c) ==> c !in Trim(t[k + 1..])
    ensures c !in t ==> c !in Trim(t[..k]) && c !in Trim(t[k + 1..])
  {
    var a, b := t[..k], t[k + 1..];
    assert forall j :: 0 <= j < |a| ==> a[j] == t[j];
    assert forall j :: 0 <= j < |b| ==> b[j] == t[k + 1 + j];
    if forall j :: k < j < |t| ==> t[j] != c {
      TrimKeepsOut(b, c);
    }
    if c !in t {
      TrimKeepsOut(a, c);
      TrimKeepsOut(b, c);
    }
  }

  /** The piece is split at its last colon: whatever stands before it,
      colons included, is the name. */
  lemma ParamOfSplitsAtLastColon(a: string, b: string, default: string)
    requires ':' !in b
    ensures ParamOf(a + [':'] + b, default) == Param(Trim(a), Trim(b))
  {
    var x, y := TrimStart(a), TrimEnd(b);
    var piece, t := a + [':'] + b, x + [':'] + y;
    TrimAtColon(a, b);
    LastColonAt(x, b);
    SliceAtColon(x, y);
    ParamOfAtColon(piece, t, |x|, default);
    TrimOfTrimStart(a);
    TrimOfTrimEnd(b);
  }

  lemma TrimAtColon(a: string, b: string)
    ensures Trim(a + [':'] + b) == TrimStart(a) + [':'] + TrimEnd(b)
  {
    TrimAroundMark(a, ':', b);
  }

  lemma LastColonAt(x: string, b: string)
    requires ':' !in b
    ensures LastIndexOf(x + [':'] + TrimEnd(b), ':') == Some(|x|)
  {
    TrimEndKeepsOut(b, ':');
    LastIndexOfMark(x, ':', TrimEnd(b));
  }

  lemma SliceAtColon(x: string, y: string)
    ensures (x + [':'] + y)[..|x|] == x && (x + [':'] + y)[|x| + 1..] == y
  {
  }

  lemma ParamOfAtColon(piece: string, t: string, k: nat, default: string)
    requires Trim(piece) == t && LastIndexOf(t, ':') == Some(k)
    ensures ParamOf(piece, default) == Param(Trim(t[..k]), Trim(t[k + 1..]))
  {
    assert ParamOf(piece, default) == SplitAtLastColon(t, default);
  }

  /** Each piece read on its own, in order. */
  function ParamsOfPieces(pieces: seq<string>, default: string): (r: seq<Param>)
    ensures |r| == |pieces|
    ensures forall k :: 0 <= k < |r| ==> r[k] == ParamOf(pieces[k], default)
  {
    if |pieces| == 0 then [] else [ParamOf(pieces[0], default)] + ParamsOfPieces(pieces[1..], default)
  }

  /** `parseParameters(s)` with the language's default type: no parameters
      for a blank string, otherwise one per comma-separated piece. */
  function ParseParameters(s: string, default: string): (r: seq<Param>)
    ensures IsBlank(s) <==> r == []
    ensures !IsBlank(s) ==> |r| == Count(s, ',') + 1
    ensures forall k :: 0 <= k < |r| ==> IsTrimmed(r[k].name) && ',' !in r[k].name
  {
    if Trim(s) == [] then []
    else
      SplitCount(s, ',');
      ParamsOfPieces(Split(s, ','), default)
  }

  /** The `k`-th parameter is read from the `k`-th comma-separated piece,
      split at that piece's last colon. */
  lemma ParseParametersPiece(s: string, default: string, k: nat, a: string, b: string)
    requires !IsBlank(s) && k < |Split(s, ',')|
    requires Split(s, ',')[k] == a + [':'] + b && ':' !in b
    ensures ParseParameters(s, default)[k] == Param(Trim(a), Trim(b))
  {
    SplitCount(s, ',');
    ParamOfSplitsAtLastColon(a, b, default);
  }

  /** A piece without a colon gives the default type. */
  lemma ParseParametersDefault(s: string, default: string, k: nat)
    requires !IsBlank(s) && k < |Split(s, ',')|
    requires ':' !in Split(s, ',')[k]
    ensures ParseParameters(s, default)[k] == Param(Trim(Split(s, ',')[k]), default)
  {
    SplitCount(s, ',');
  }

  // ---------------------------------------------------------------------------
  // Rendering, as the Candid generator writes a parameter list

  /** `${p.name}: ${p.type}`. */
  function RenderParam(p: Param): string {
    p.name + ": " + p.typ
  }

  function RenderedParams(ps: seq<Param>): (r: seq<string>)
    ensures |r| == |ps|
    ensures forall k :: 0 <= k < |ps| ==> r[k] == RenderParam(ps[k])
  {
    if |ps| == 0 then [] else [RenderParam(ps[0])] + RenderedParams(ps[1..])
  }

  /** `params.map(p => `${p.name}: ${p.type}`).join(', ')`. */
  function RenderParams(ps: seq<Param>): string {
    Join(RenderedParams(ps), ", ")
  }

  /** A parameter that survives being written out and read back: trimmed
      name and type, no comma in either, no colon in the type. */
  predicate Readable(p: Param) {
    && IsTrimmed(p.name) && IsTrimmed(p.typ)
    && ',' !in p.name && ',' !in p.typ && ':' !in p.typ
  }

  /** Reading back a rendered parameter list gives the parameters, whatever
      the default type. */
  lemma {:induction false} ParseRenderParams(ps: seq<Param>, default: string)
    requires forall k :: 0 <= k < |ps| ==> Readable(ps[k])
    ensures ParseParameters(RenderParams(ps), default) == ps
  {
    var s := RenderParams(ps);
    if |ps| == 0 {
      assert s == "";
    } else {
      RenderedPieces(ps, [], default);
      assert [] + s == s;
      assert s[|ps[0].name|] == ':' by { RenderFront(ps); }
      assert !IsBlank(s);
    }
  }

  lemma RenderFront(ps: seq<Param>)
    requires |ps| >= 1
    ensures RenderParams(ps)[..|ps[0].name| + 1] == ps[0].name + ":"
  {
    var r := RenderedParams(ps);
    if |ps| == 1 {
      assert RenderParams(ps) == RenderParam(ps[0]);
    } else {
      assert RenderParams(ps) == r[0] + ", " + Join(r[1..], ", ");
    }
  }

  /** The pieces of a rendered list, the first one padded on the left with
      white space `w`, read back as the parameters. */
  lemma {:induction false} RenderedPieces(ps: seq<Param>, w: string, default: string)
    requires |ps| >= 1 && IsBlank(w)
    requires forall k :: 0 <= k < |ps| ==> Readable(ps[k])
    ensures ParamsOfPieces(Split(w + RenderParams(ps), ','), default) == ps
    decreases |ps|
  {
    var p := ps[0];
    var piece := w + RenderParam(p);
    PieceOfReadable(w, p, default);
    if |ps| == 1 {
      SplitWithout(piece, ',');
    } else {
      RenderSplitFront(w, ps);
      RenderedPieces(ps[1..], " ", default);
      ParamsOfPiecesCons(piece, Split(" " + RenderParams(ps[1..]), ','), default);
      assert ps == [p] + ps[1..];
    }
  }

  lemma RenderSplitFront(w: string, ps: seq<Param>)
    requires |ps| >= 2 && ',' !in w + RenderParam(ps[0])
    ensures Split(w + RenderParams(ps), ',')
         == [w + RenderParam(ps[0])] + Split(" " + RenderParams(ps[1..]), ',')
  {
    var r := RenderedParams(ps);
    assert r[1..] == RenderedParams(ps[1..]);
    SplitJoinedFront(w, r);
  }

  lemma ParamsOfPiecesCons(x: string, ys: seq<string>, default: string)
    ensures ParamsOfPieces([x] + ys, default) == [ParamOf(x, default)] + ParamsOfPieces(ys, default)
  {
    assert ([x] + ys)[1..] == ys;
  }

  /** A rendered parameter, padded with white space, is one comma-free
      piece that reads back as the parameter. */
  lemma PieceOfReadable(w: string, p: Param, default: string)
    requires IsBlank(w) && Readable(p)
    ensures ',' !in w + RenderParam(p)
    ensures ParamOf(w + RenderParam(p), default) == p
  {
    assert w + RenderParam(p) == w + p.name + [':'] + (" " + p.typ);
    ReadPiece(w, p, default);
    BlankHasNoComma(w);
  }

  lemma BlankHasNoComma(w: string)
    requires IsBlank(w)
    ensures ',' !in w
  {
  }

  lemma ReadPiece(w: string, p: Param, default: string)
    requires IsBlank(w) && Readable(p)
    ensures ParamOf(w + p.name + [':'] + (" " + p.typ), default) == p
  {
    ParamOfSplitsAtLastColon(w + p.name, " " + p.typ, default);
    TrimIgnoresPadding(w, p.name, []);
    assert w + p.name + [] == w + p.name;
    TrimIgnoresPadding(" ", p.typ, []);
    assert " " + p.typ + [] == " " + p.typ;
    TrimmedIsFixed(p.name);
    TrimmedIsFixed(p.typ);
  }

  /** Parsing, writing out and parsing again changes nothing: the parser's
      output is in the form the renderer reads back. */
  lemma ParseParametersNormal(s: string, default: string)
    requires IsTrimmed(default) && ',' !in default && ':' !in default
    ensures ParseParameters(RenderParams(ParseParameters(s, default)), default) == ParseParameters(s, default)
  {
    var r := ParseParameters(s, default);
    forall k | 0 <= k < |r| ensures Readable(r[k]) {
      var piece := Split(s, ',')[k];
      SplitCount(s, ',');
      assert ',' !in piece;
    }
    ParseRenderParams(r, default);
  }

  // ---------------------------------------------------------------------------
  // parseJavaScriptParameters

  /** The trimmed pieces. */
  function TrimAll(pieces: seq<string>): (r: seq<string>)
    ensures |r| == |pieces|
    ensures forall k :: 0 <= k < |r| ==> r[k] == Trim(pieces[k]) && IsTrimmed(r[k])
  {
    if |pieces| == 0 then [] else [Trim(pieces[0])] + TrimAll(pieces[1..])
  }

  /** Each piece, trimmed, as a name of type `any`. */
  function NamesAsParams(names: seq<string>): (r: seq<Param>)
    ensures |r| == |names|
    ensures forall k :: 0 <= k < |r| ==> r[k] == Param(names[k], JavaScriptType)
  {
    if |names| == 0 then [] else [Param(names[0], JavaScriptType)] + NamesAsParams(names[1..])
  }

  /** `parseJavaScriptParameters(s)`: every piece, trimmed, is a name of
      type `any`; no colon is looked for. */
  function ParseJavaScriptParameters(s: string): (r: seq<Param>)
    ensures IsBlank(s) <==> r == []
    ensures !IsBlank(s) ==> |r| == Count(s, ',') + 1
    ensures forall k :: 0 <= k < |r| ==> r[k].typ == JavaScriptType && IsTrimmed(r[k].name)
  {
    if Trim(s) == [] then []
    else
      SplitCount(s, ',');
      NamesAsParams(TrimAll(Split(s, ',')))
  }

  /** Non-empty names joined with `, ` read back as the same names. */
  lemma ParseJoinedNames(names: seq<string>)
    requires forall k :: 0 <= k < |names| ==> names[k] != [] && IsTrimmed(names[k]) && ',' !in names[k]
    ensures ParseJavaScriptParameters(Join(names, ", ")) == NamesAsParams(names)
  {
    if |names| > 0 {
      JoinedNotBlank(names);
      JoinedPieces(names, []);
      assert [] + Join(names, ", ") == Join(names, ", ");
      ParseJavaScriptPieces(Join(names, ", "), names);
    }
  }

  lemma JoinedNotBlank(names: seq<string>)
    requires |names| >= 1 && names[0] != [] && IsTrimmed(names[0])
    ensures !IsBlank(Join(names, ", "))
  {
    var s := Join(names, ", ");
    JoinFront(names);
    assert !IsSpace(s[0]);
  }

  lemma ParseJavaScriptPieces(s: string, names: seq<string>)
    requires !IsBlank(s) && TrimAll(Split(s, ',')) == names
    ensures ParseJavaScriptParameters(s) == NamesAsParams(names)
  {
  }

  lemma JoinFront(names: seq<string>)
    requires |names| >= 1 && names[0] != []
    ensures |Join(names, ", ")| > 0 && Join(names, ", ")[0] == names[0][0]
  {
  }

  lemma {:induction false} JoinedPieces(names: seq<string>, w: string)
    requires |names| >= 1 && IsBlank(w)
    requires forall k :: 0 <= k < |names| ==> IsTrimmed(names[k]) && ',' !in names[k]
    ensures TrimAll(Split(w + Join(names, ", "), ',')) == names
    decreases |names|
  {
    var n := names[0];
    TrimPadded(w, n);
    BlankHasNoComma(w);
    if |names| == 1 {
      SplitWithout(w + n, ',');
      TrimAllCons(w + n, []);
      assert [w + n] + [] == [w + n];
    } else {
      SplitJoinedFront(w, names);
      JoinedPieces(names[1..], " ");
      TrimAllCons(w + n, Split(" " + Join(names[1..], ", "), ','));
      assert names == [n] + names[1..];
    }
  }

  lemma TrimAllCons(x: string, ys: seq<string>)
    ensures TrimAll([x] + ys) == [Trim(x)] + TrimAll(ys)
  {
    assert ([x] + ys)[1..] == ys;
  }
}
