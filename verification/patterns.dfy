/** Hand-written matchers for the regular expressions of the two source
    analysers. Each expression gets:
    - a `...Shape` predicate saying which capture positions make the
      expression match at a given start index (the expression's language),
    - an `...At` function returning the decomposition JavaScript's
      backtracking engine picks at that index (greedy quantifiers, tried
      from the longest), proved to be a shape and to exist whenever a shape
      does; where the expression has a single decomposition it is proved to
      be that one, and for the greedy return-type tails the engine's
      preference over the other decompositions is proved,
    - a `...Match` function doing what `String.prototype.match` does with a
      non-global expression: the leftmost index where it matches. */
module Patterns {
  import opened Wrappers
  import opened Text

  /** The half-open index range [start, end) of a capture group. */
  datatype Group = Group(start: nat, end: nat)

  /** The character classes the expressions use: `\s`, `\w` and negated
      sets such as `[^;{]`. */
  datatype Class = Space | Word | NoneOf(excluded: seq<char>)

  predicate In(c: char, cl: Class) {
    match cl
    case Space => IsSpace(c)
    case Word => IsWordChar(c)
    case NoneOf(excluded) => c !in excluded
  }

  const NotQuote := NoneOf(['"'])
  const NotCloseParen := NoneOf([')'])
  const NotSemicolon := NoneOf([';'])
  const NotSemicolonOrBrace := NoneOf([';', '{'])
  const NotOpenBrace := NoneOf(['{'])

  /** Every character of s[a..b] is in the class `cl`. */
  ghost predicate All(s: string, a: int, b: int, cl: Class) {
    0 <= a <= b <= |s| && forall k :: a <= k < b ==> In(s[k], cl)
  }

  /** End of the longest run of characters of class `cl` starting at `i`:
      what a greedy `cl*` consumes. */
  function Span(s: string, i: nat, cl: Class): (j: nat)
    requires i <= |s|
    ensures i <= j <= |s|
    ensures All(s, i, j, cl)
    ensures j == |s| || !In(s[j], cl)
    decreases |s| - i
  {
    if i < |s| && In(s[i], cl) then Span(s, i + 1, cl) else i
  }

  /** A run of class `cl` from `i` can only stop where the greedy run stops
      or earlier, and it stops exactly there when the next character is not
      in the class. */
  lemma SpanBound(s: string, i: nat, j: int, cl: Class)
    requires i <= |s| && All(s, i, j, cl)
    ensures j <= Span(s, i, cl)
    ensures j == |s| || !In(s[j], cl) ==> j == Span(s, i, cl)
  {
  }

  // ---------------------------------------------------------------------------
  // import\s+(\w+)\s+"([^"]+)"

  datatype ImportGroups = ImportGroups(name: Group, path: Group)

  ghost predicate ImportShape(s: string, i: nat, g: ImportGroups) {
    && OccursAt(s, "import", i)
    && i + 6 < g.name.start && All(s, i + 6, g.name.start, Space)
    && g.name.start < g.name.end && All(s, g.name.start, g.name.end, Word)
    && g.name.end < g.path.start - 1 && g.path.start < g.path.end < |s|
    && All(s, g.name.end, g.path.start - 1, Space) && s[g.path.start - 1] == '"'
    && All(s, g.path.start, g.path.end, NotQuote)
    && s[g.path.end] == '"'
  }

  /** The import expression has at most one decomposition at any index, and
      this is it. */
  function ImportAt(s: string, i: nat): (r: Option<ImportGroups>)
    ensures forall g :: ImportShape(s, i, g) <==> r == Some(g)
  {
    if !OccursAt(s, "import", i) then None
    else
      ImportForced(s, i);
      var a := Span(s, i + 6, Space);
      if a == i + 6 || a == |s| || !In(s[a], Word) then None
      else
        var b := Span(s, a, Word);
        var c := Span(s, b, Space);
        if c == b || c == |s| || s[c] != '"' then None
        else
          var e := Span(s, c + 1, NotQuote);
          if e == c + 1 || e == |s| then None
          else Some(ImportGroups(Group(a, b), Group(c + 1, e)))
  }

  /** Every decomposition of the import expression puts each group where the
      greedy runs end. */
  lemma ImportForced(s: string, i: nat)
    requires i + 6 <= |s|
    ensures forall g :: ImportShape(s, i, g) ==>
      && g.name.start == Span(s, i + 6, Space)
      && g.name.end == Span(s, g.name.start, Word)
      && g.path.start - 1 == Span(s, g.name.end, Space)
      && g.path.end == Span(s, g.path.start, NotQuote)
  {
    forall g | ImportShape(s, i, g)
      ensures g.name.start == Span(s, i + 6, Space)
      ensures g.name.end == Span(s, g.name.start, Word)
      ensures g.path.start - 1 == Span(s, g.name.end, Space)
      ensures g.path.end == Span(s, g.path.start, NotQuote)
    {
      WordCharIsNotSpace(s[g.name.start]);
      SpanBound(s, i + 6, g.name.start, Space);
      SpanBound(s, g.name.start, g.name.end, Word);
      SpanBound(s, g.name.end, g.path.start - 1, Space);
      SpanBound(s, g.path.start, g.path.end, NotQuote);
    }
  }

  lemma WordCharIsNotSpace(c: char)
    ensures In(c, Word) ==> !In(c, Space)
  {
  }

  // ---------------------------------------------------------------------------
  // actor\s+(\w+)

  ghost predicate ActorShape(s: string, i: nat, g: Group) {
    && OccursAt(s, "actor", i)
    && i + 5 < g.start && All(s, i + 5, g.start, Space)
    && g.start < g.end && All(s, g.start, g.end, Word)
  }

  /** The actor expression at index `i`: the name is the whole word after
      the white space, since `\w+` is greedy and nothing follows it. */
  function ActorAt(s: string, i: nat): (r: Option<Group>)
    ensures r.Some? ==> ActorShape(s, i, r.value)
    ensures r.Some? ==> r.value.end == |s| || !IsWordChar(s[r.value.end])
    ensures r.Some? ==> forall g :: ActorShape(s, i, g) ==> g.start == r.value.start && g.end <= r.value.end
    ensures r.None? ==> forall g :: !ActorShape(s, i, g)
  {
    if !OccursAt(s, "actor", i) then None
    else
      ActorForced(s, i);
      var a := Span(s, i + 5, Space);
      if a == i + 5 || a == |s| || !In(s[a], Word) then None
      else Some(Group(a, Span(s, a, Word)))
  }

  lemma ActorForced(s: string, i: nat)
    requires i + 5 <= |s|
    ensures forall g :: ActorShape(s, i, g) ==>
      && g.start == Span(s, i + 5, Space)
      && g.end <= Span(s, g.start, Word)
  {
    forall g | ActorShape(s, i, g)
      ensures g.start == Span(s, i + 5, Space)
      ensures g.end <= Span(s, g.start, Word)
    {
      WordCharIsNotSpace(s[g.start]);
      SpanBound(s, i + 5, g.start, Space);
      SpanBound(s, g.start, g.end, Word);
    }
  }

  // ---------------------------------------------------------------------------
  // <keyword>\s+(\w+)\s*\(([^)]*)\)   -- the head shared by the three
  // function-declaration expressions

  datatype HeadGroups = HeadGroups(name: Group, params: Group)

  ghost predicate HeadShape(s: string, i: nat, kw: string, g: HeadGroups) {
    && OccursAt(s, kw, i)
    && i + |kw| < g.name.start && All(s, i + |kw|, g.name.start, Space)
    && g.name.start < g.name.end && All(s, g.name.start, g.name.end, Word)
    && g.name.end < g.params.start <= g.params.end < |s|
    && All(s, g.name.end, g.params.start - 1, Space) && s[g.params.start - 1] == '('
    && All(s, g.params.start, g.params.end, NotCloseParen)
    && s[g.params.end] == ')'
  }

  /** The declaration head has at most one decomposition at any index. */
  function HeadAt(s: string, i: nat, kw: string): (r: Option<HeadGroups>)
    ensures forall g :: HeadShape(s, i, kw, g) <==> r == Some(g)
  {
    if !OccursAt(s, kw, i) then None
    else
      HeadForced(s, i, kw);
      var a := Span(s, i + |kw|, Space);
      if a == i + |kw| || a == |s| || !In(s[a], Word) then None
      else
        var b := Span(s, a, Word);
        var c := Span(s, b, Space);
        if c == |s| || s[c] != '(' then None
        else
          var e := Span(s, c + 1, NotCloseParen);
          if e == |s| then None
          else Some(HeadGroups(Group(a, b), Group(c + 1, e)))
  }

  lemma HeadForced(s: string, i: nat, kw: string)
    requires i + |kw| <= |s|
    ensures forall g :: HeadShape(s, i, kw, g) ==>
      && g.name.start == Span(s, i + |kw|, Space)
      && g.name.end == Span(s, g.name.start, Word)
      && g.params.start - 1 == Span(s, g.name.end, Space)
      && g.params.end == Span(s, g.params.start, NotCloseParen)
  {
    forall g | HeadShape(s, i, kw, g)
      ensures g.name.start == Span(s, i + |kw|, Space)
      ensures g.name.end == Span(s, g.name.start, Word)
      ensures g.params.start - 1 == Span(s, g.name.end, Space)
      ensures g.params.end == Span(s, g.params.start, NotCloseParen)
    {
      WordCharIsNotSpace(s[g.name.start]);
      SpanBound(s, i + |kw|, g.name.start, Space);
      SpanBound(s, g.name.start, g.name.end, Word);
      SpanBound(s, g.name.end, g.params.start - 1, Space);
      SpanBound(s, g.params.start, g.params.end, NotCloseParen);
    }
  }

  // ---------------------------------------------------------------------------
  // \s+([C]+) and \s*([C]+) with C a class containing white space -- the
  // return-type tails of the Motoko and Rust declaration expressions

  /** At least `least` white-space characters from `p`, then a non-empty run
      of class `cls` captured as `g`. */
  ghost predicate TailShape(s: string, p: nat, least: nat, cls: Class, g: Group) {
    && p + least <= g.start && All(s, p, g.start, Space)
    && g.start < g.end && All(s, g.start, g.end, cls)
  }

  /** Greedy white space first, then the greedy class run; when the class
      run would be empty the engine gives back one white-space character,
      which the class then captures. */
  function TailAt(s: string, p: nat, least: nat, cls: Class): (r: Option<Group>)
    requires p <= |s|
    requires cls.NoneOf? && forall k :: 0 <= k < |cls.excluded| ==> !IsSpace(cls.excluded[k])
    ensures r.Some? ==> TailShape(s, p, least, cls, r.value)
    ensures r.None? ==> forall g :: !TailShape(s, p, least, cls, g)
    ensures r.Some? ==> forall g :: TailShape(s, p, least, cls, g) ==>
      g.start < r.value.start || (g.start == r.value.start && g.end <= r.value.end)
  {
    var a := Span(s, p, Space);
    if a < p + least then
      assert forall g :: !TailShape(s, p, least, cls, g) by {
        forall g | TailShape(s, p, least, cls, g) ensures false {
          SpanBound(s, p, g.start, Space);
        }
      }
      None
    else
      var b := Span(s, a, cls);
      if b > a then
        assert forall g :: TailShape(s, p, least, cls, g) ==> g.start < a || (g.start == a && g.end <= b) by {
          forall g | TailShape(s, p, least, cls, g) ensures g.start < a || (g.start == a && g.end <= b) {
            SpanBound(s, p, g.start, Space);
            if g.start == a {
              SpanBound(s, a, g.end, cls);
            }
          }
        }
        Some(Group(a, b))
      else if a > p + least then
        assert forall g :: TailShape(s, p, least, cls, g) ==> g.start < a - 1 || (g.start == a - 1 && g.end <= a) by {
          forall g | TailShape(s, p, least, cls, g) ensures g.start < a - 1 || (g.start == a - 1 && g.end <= a) {
            SpanBound(s, p, g.start, Space);
          }
        }
        Some(Group(a - 1, a))
      else
        assert forall g :: !TailShape(s, p, least, cls, g) by {
          forall g | TailShape(s, p, least, cls, g) ensures false {
            SpanBound(s, p, g.start, Space);
          }
        }
        None
  }

  // ---------------------------------------------------------------------------
  // public func\s+(\w+)\s*\(([^)]*)\)\s*:\s*async\s+([^;{]+)

  /** The part after the parameter list: `\s*:\s*async\s+([^;{]+)`. */
  datatype MotokoReturn = MotokoReturn(colonAt: nat, asyncAt: nat, ret: Group)

  ghost predicate MotokoReturnShape(s: string, p: nat, g: MotokoReturn) {
    && p <= g.colonAt < |s| && All(s, p, g.colonAt, Space) && s[g.colonAt] == ':'
    && g.colonAt < g.asyncAt && All(s, g.colonAt + 1, g.asyncAt, Space)
    && OccursAt(s, "async", g.asyncAt)
    && TailShape(s, g.asyncAt + 5, 1, NotSemicolonOrBrace, g.ret)
  }

  /** `:` and `async` are forced; the return type is the one the engine's
      backtracking order prefers (see `MotokoReturnPreferred`). */
  function MotokoReturnAt(s: string, p: nat): (r: Option<MotokoReturn>)
    requires p <= |s|
    ensures r.Some? ==> MotokoReturnShape(s, p, r.value)
    ensures r.None? ==> forall g :: !MotokoReturnShape(s, p, g)
  {
    MotokoReturnForced(s, p);
    var c := Span(s, p, Space);
    if c == |s| || s[c] != ':' then None
    else
      var a := Span(s, c + 1, Space);
      if !OccursAt(s, "async", a) then None
      else
        match TailAt(s, a + 5, 1, NotSemicolonOrBrace)
        case None => None
        case Some(t) => Some(MotokoReturn(c, a, t))
  }

  lemma MotokoReturnPreferred(s: string, p: nat, t: MotokoReturn, g: MotokoReturn)
    requires p <= |s| && MotokoReturnAt(s, p) == Some(t) && MotokoReturnShape(s, p, g)
    ensures g.colonAt == t.colonAt && g.asyncAt == t.asyncAt
    ensures g.ret.start < t.ret.start || (g.ret.start == t.ret.start && g.ret.end <= t.ret.end)
  {
    MotokoReturnForced(s, p);
  }

  lemma MotokoReturnForced(s: string, p: nat)
    requires p <= |s|
    ensures forall g :: MotokoReturnShape(s, p, g) ==>
      g.colonAt == Span(s, p, Space) && g.asyncAt == Span(s, g.colonAt + 1, Space)
  {
    forall g | MotokoReturnShape(s, p, g)
      ensures g.colonAt == Span(s, p, Space) && g.asyncAt == Span(s, g.colonAt + 1, Space)
    {
      SpanBound(s, p, g.colonAt, Space);
      assert s[g.asyncAt] == 'a';
      SpanBound(s, g.colonAt + 1, g.asyncAt, Space);
    }
  }

  datatype MotokoSignature = MotokoSignature(head: HeadGroups, rest: MotokoReturn)

  ghost predicate MotokoSignatureShape(s: string, i: nat, g: MotokoSignature) {
    && HeadShape(s, i, "public func", g.head)
    && MotokoReturnShape(s, g.head.params.end + 1, g.rest)
  }

  /** The Motoko declaration expression at index `i`, as the engine
      decomposes it: the head is the only one (`HeadAt`) and the return type
      is the one the engine prefers (`MotokoReturnPreferred`). */
  function MotokoSignatureAt(s: string, i: nat): (r: Option<MotokoSignature>)
    ensures r.Some? ==> MotokoSignatureShape(s, i, r.value)
  {
    match HeadAt(s, i, "public func")
    case None => None
    case Some(h) =>
      match MotokoReturnAt(s, h.params.end + 1)
      case None => None
      case Some(t) => Some(MotokoSignature(h, t))
  }

  /** The matcher finds a decomposition whenever one exists. */
  lemma MotokoSignatureComplete(s: string, i: nat)
    ensures MotokoSignatureAt(s, i).None? <==> forall g :: !MotokoSignatureShape(s, i, g)
  {
    var r := MotokoSignatureAt(s, i);
    if r.None? {
      forall g | MotokoSignatureShape(s, i, g) ensures false {
        MotokoSignatureFound(s, i, g);
      }
    }
  }

  lemma MotokoSignatureFound(s: string, i: nat, g: MotokoSignature)
    requires MotokoSignatureShape(s, i, g)
    ensures MotokoSignatureAt(s, i).Some?
  {
    assert HeadShape(s, i, "public func", g.head);
    var h := HeadAt(s, i, "public func");
    assert h == Some(g.head);
    assert MotokoReturnShape(s, g.head.params.end + 1, g.rest);
  }

  // ---------------------------------------------------------------------------
  // pub async fn\s+(\w+)\s*\(([^)]*)\)\s*->\s*([^{]+)

  /** The part after the parameter list: `\s*->\s*([^{]+)`. */
  datatype RustReturn = RustReturn(arrowAt: nat, ret: Group)

  ghost predicate RustReturnShape(s: string, p: nat, g: RustReturn) {
    && p <= g.arrowAt && All(s, p, g.arrowAt, Space)
    && OccursAt(s, "->", g.arrowAt)
    && TailShape(s, g.arrowAt + 2, 0, NotOpenBrace, g.ret)
  }

  function RustReturnAt(s: string, p: nat): (r: Option<RustReturn>)
    requires p <= |s|
    ensures r.Some? ==> RustReturnShape(s, p, r.value)
    ensures r.None? ==> forall g :: !RustReturnShape(s, p, g)
  {
    RustReturnForced(s, p);
    var a := Span(s, p, Space);
    if !OccursAt(s, "->", a) then None
    else
      match TailAt(s, a + 2, 0, NotOpenBrace)
      case None => None
      case Some(t) => Some(RustReturn(a, t))
  }

  lemma RustReturnPreferred(s: string, p: nat, t: RustReturn, g: RustReturn)
    requires p <= |s| && RustReturnAt(s, p) == Some(t) && RustReturnShape(s, p, g)
    ensures g.arrowAt == t.arrowAt
    ensures g.ret.start < t.ret.start || (g.ret.start == t.ret.start && g.ret.end <= t.ret.end)
  {
    RustReturnForced(s, p);
  }

  lemma RustReturnForced(s: string, p: nat)
    requires p <= |s|
    ensures forall g :: RustReturnShape(s, p, g) ==> g.arrowAt == Span(s, p, Space)
  {
    forall g | RustReturnShape(s, p, g) ensures g.arrowAt == Span(s, p, Space) {
      assert s[g.arrowAt] == '-';
      SpanBound(s, p, g.arrowAt, Space);
    }
  }

  datatype RustSignature = RustSignature(head: HeadGroups, rest: RustReturn)

  ghost predicate RustSignatureShape(s: string, i: nat, g: RustSignature) {
    && HeadShape(s, i, "pub async fn", g.head)
    && RustReturnShape(s, g.head.params.end + 1, g.rest)
  }

  /** The Rust declaration expression at index `i`, as the engine
      decomposes it: the head is the only one (`HeadAt`) and the return type
      is the one the engine prefers (`RustReturnPreferred`). */
  function RustSignatureAt(s: string, i: nat): (r: Option<RustSignature>)
    ensures r.Some? ==> RustSignatureShape(s, i, r.value)
  {
    match HeadAt(s, i, "pub async fn")
    case None => None
    case Some(h) =>
      match RustReturnAt(s, h.params.end + 1)
      case None => None
      case Some(t) => Some(RustSignature(h, t))
  }

  /** The matcher finds a decomposition whenever one exists. */
  lemma RustSignatureComplete(s: string, i: nat)
    ensures RustSignatureAt(s, i).None? <==> forall g :: !RustSignatureShape(s, i, g)
  {
    var r := RustSignatureAt(s, i);
    if r.None? {
      forall g | RustSignatureShape(s, i, g) ensures false {
        RustSignatureFound(s, i, g);
      }
    }
  }

  lemma RustSignatureFound(s: string, i: nat, g: RustSignature)
    requires RustSignatureShape(s, i, g)
    ensures RustSignatureAt(s, i).Some?
  {
    assert HeadShape(s, i, "pub async fn", g.head);
    var h := HeadAt(s, i, "pub async fn");
    assert h == Some(g.head);
    assert RustReturnShape(s, g.head.params.end + 1, g.rest);
  }

  // ---------------------------------------------------------------------------
  // var\s+(\w+)\s*=\s*([^;]+);

  datatype VarGroups = VarGroups(name: Group, eqAt: nat, value: Group)

  ghost predicate VarShape(s: string, i: nat, g: VarGroups) {
    && OccursAt(s, "var", i)
    && i + 3 < g.name.start && All(s, i + 3, g.name.start, Space)
    && g.name.start < g.name.end && All(s, g.name.start, g.name.end, Word)
    && g.name.end <= g.eqAt && All(s, g.name.end, g.eqAt, Space) && g.eqAt < |s| && s[g.eqAt] == '='
    && g.eqAt + 1 <= g.value.start && All(s, g.eqAt + 1, g.value.start, Space)
    && g.value.start < g.value.end < |s| && All(s, g.value.start, g.value.end, NotSemicolon)
    && s[g.value.end] == ';'
  }

  /** The value runs to the first `;`; of the white space before it, the
      engine keeps as much outside the capture as it can. */
  function VarAt(s: string, i: nat): (r: Option<VarGroups>)
    ensures r.Some? ==> VarShape(s, i, r.value)
    ensures r.None? ==> forall g :: !VarShape(s, i, g)
    ensures r.Some? ==> forall g :: VarShape(s, i, g) ==>
      && g.name == r.value.name && g.eqAt == r.value.eqAt && g.value.end == r.value.value.end
      && g.value.start <= r.value.value.start
  {
    if !OccursAt(s, "var", i) then None
    else
      VarForced(s, i);
      var a := Span(s, i + 3, Space);
      if a == i + 3 || a == |s| || !In(s[a], Word) then None
      else
        var b := Span(s, a, Word);
        var e := Span(s, b, Space);
        if e == |s| || s[e] != '=' then None
        else
          var v := Span(s, e + 1, Space);
          var w := Span(s, v, NotSemicolon);
          VarValueEnd(s, i, e, v, w);
          if w == |s| then None
          else if w > v then Some(VarGroups(Group(a, b), e, Group(v, w)))
          else if v > e + 1 then Some(VarGroups(Group(a, b), e, Group(v - 1, v)))
          else None
  }

  /** In every decomposition of the variable expression the name and the
      `=` sit where the greedy runs put them. */
  lemma VarForced(s: string, i: nat)
    requires i + 3 <= |s|
    ensures forall g :: VarShape(s, i, g) ==>
      && g.name.start == Span(s, i + 3, Space)
      && g.name.end == Span(s, g.name.start, Word)
      && g.eqAt == Span(s, g.name.end, Space)
  {
    forall g | VarShape(s, i, g)
      ensures g.name.start == Span(s, i + 3, Space)
      ensures g.name.end == Span(s, g.name.start, Word)
      ensures g.eqAt == Span(s, g.name.end, Space)
    {
      WordCharIsNotSpace(s[g.name.start]);
      SpanBound(s, i + 3, g.name.start, Space);
      SpanBound(s, g.name.start, g.name.end, Word);
      SpanBound(s, g.name.end, g.eqAt, Space);
    }
  }

  /** The captured value ends at the first `;` after the white space that
      follows the `=`, and starts no later than where that white space ends
      (one character earlier when the value would otherwise be empty). */
  lemma VarValueEnd(s: string, i: nat, e: nat, v: nat, w: nat)
    requires e < |s| && v == Span(s, e + 1, Space) && w == Span(s, v, NotSemicolon)
    ensures forall g :: VarShape(s, i, g) && g.eqAt == e ==>
      && g.value.start <= v && g.value.end == w
      && (v == w ==> g.value.start < v)
  {
    forall g | VarShape(s, i, g) && g.eqAt == e
      ensures g.value.start <= v && g.value.end == w
      ensures v == w ==> g.value.start < v
    {
      SpanBound(s, e + 1, g.value.start, Space);
      assert All(s, g.value.start, v, NotSemicolon);
      assert All(s, g.value.start, w, NotSemicolon);
    }
  }

  // ---------------------------------------------------------------------------
  // Leftmost matching

  /** `String.prototype.match` with a non-global expression whose matcher at a
      single index is `at`: the leftmost index from `from` on where it
      matches, with that index's decomposition. */
  function FirstMatch<G>(s: string, from: nat, at: (string, nat) -> Option<G>): (r: Option<(nat, G)>)
    ensures r.Some? ==> from <= r.value.0 <= |s| && at(s, r.value.0) == Some(r.value.1)
    ensures r.Some? ==> forall q :: from <= q < r.value.0 ==> at(s, q).None?
    ensures r.None? ==> forall q :: from <= q <= |s| ==> at(s, q).None?
    decreases |s| + 1 - from
  {
    if from > |s| then None
    else
      match at(s, from)
      case Some(g) => Some((from, g))
      case None => FirstMatch(s, from + 1, at)
  }

  /** `s.match(/import\s+(\w+)\s+"([^"]+)"/)`: the leftmost match and its
      groups, which are the only possible ones at that index. */
  function ImportMatch(s: string): (r: Option<(nat, ImportGroups)>)
    ensures r.Some? ==> Fits(s, r.value.1.name) && Fits(s, r.value.1.path)
    ensures r.Some? ==> ImportShape(s, r.value.0, r.value.1)
    ensures r.Some? ==> forall q: nat, g :: q < r.value.0 ==> !ImportShape(s, q, g)
    ensures r.None? ==> forall q: nat, g :: !ImportShape(s, q, g)
  {
    var r := FirstMatch(s, 0, ImportAt);
    forall q: nat, g | ImportShape(s, q, g) ensures ImportAt(s, q).Some? && q <= |s| { }
    r
  }

  /** `s.match(/actor\s+(\w+)/)`: the leftmost match, its name the whole
      word after the white space. */
  function ActorMatch(s: string): (r: Option<(nat, Group)>)
    ensures r.Some? ==> Fits(s, r.value.1)
    ensures r.Some? ==> ActorShape(s, r.value.0, r.value.1)
    ensures r.Some? ==> r.value.1.end == |s| || !IsWordChar(s[r.value.1.end])
    ensures r.Some? ==> forall q: nat, g :: q < r.value.0 ==> !ActorShape(s, q, g)
    ensures r.None? ==> forall q: nat, g :: !ActorShape(s, q, g)
  {
    var r := FirstMatch(s, 0, ActorAt);
    forall q: nat, g | ActorShape(s, q, g) ensures ActorAt(s, q).Some? && q <= |s| { }
    r
  }

  /** The Motoko declaration expression, leftmost match. */
  function MotokoSignatureMatch(s: string): (r: Option<(nat, MotokoSignature)>)
    ensures r.Some? ==> Fits(s, r.value.1.head.name) && Fits(s, r.value.1.head.params) && Fits(s, r.value.1.rest.ret)
    ensures r.Some? ==> MotokoSignatureShape(s, r.value.0, r.value.1)
    ensures r.Some? ==> forall q: nat, g :: q < r.value.0 ==> !MotokoSignatureShape(s, q, g)
    ensures r.None? ==> forall q: nat, g :: !MotokoSignatureShape(s, q, g)
  {
    var r := FirstMatch(s, 0, MotokoSignatureAt);
    forall q: nat, g | MotokoSignatureShape(s, q, g) ensures MotokoSignatureAt(s, q).Some? && q <= |s| {
      MotokoSignatureFound(s, q, g);
    }
    r
  }

  /** The Rust declaration expression, leftmost match. */
  function RustSignatureMatch(s: string): (r: Option<(nat, RustSignature)>)
    ensures r.Some? ==> Fits(s, r.value.1.head.name) && Fits(s, r.value.1.head.params) && Fits(s, r.value.1.rest.ret)
    ensures r.Some? ==> RustSignatureShape(s, r.value.0, r.value.1)
    ensures r.Some? ==> forall q: nat, g :: q < r.value.0 ==> !RustSignatureShape(s, q, g)
    ensures r.None? ==> forall q: nat, g :: !RustSignatureShape(s, q, g)
  {
    var r := FirstMatch(s, 0, RustSignatureAt);
    forall q: nat, g | RustSignatureShape(s, q, g) ensures RustSignatureAt(s, q).Some? && q <= |s| {
      RustSignatureFound(s, q, g);
    }
    r
  }

  const JavaScriptKeyword := "export function"

  function JavaScriptHeadAt(s: string, i: nat): Option<HeadGroups> {
    HeadAt(s, i, JavaScriptKeyword)
  }

  /** `s.match(/export function\s+(\w+)\s*\(([^)]*)\)/)`: the head alone is
      the whole expression. */
  function JavaScriptSignatureMatch(s: string): (r: Option<(nat, HeadGroups)>)
    ensures r.Some? ==> Fits(s, r.value.1.name) && Fits(s, r.value.1.params)
    ensures r.Some? ==> HeadShape(s, r.value.0, JavaScriptKeyword, r.value.1)
    ensures r.Some? ==> forall q: nat, g :: q < r.value.0 ==> !HeadShape(s, q, JavaScriptKeyword, g)
    ensures r.None? ==> forall q: nat, g :: !HeadShape(s, q, JavaScriptKeyword, g)
  {
    var r := FirstMatch(s, 0, JavaScriptHeadAt);
    forall q: nat, g | HeadShape(s, q, JavaScriptKeyword, g) ensures JavaScriptHeadAt(s, q).Some? && q <= |s| { }
    r
  }

  /** `s.match(/var\s+(\w+)\s*=\s*([^;]+);/)`, leftmost match. */
  function VarMatch(s: string): (r: Option<(nat, VarGroups)>)
    ensures r.Some? ==> Fits(s, r.value.1.name) && Fits(s, r.value.1.value)
    ensures r.Some? ==> VarShape(s, r.value.0, r.value.1)
    ensures r.Some? ==> forall q: nat, g :: q < r.value.0 ==> !VarShape(s, q, g)
    ensures r.None? ==> forall q: nat, g :: !VarShape(s, q, g)
  {
    var r := FirstMatch(s, 0, VarAt);
    forall q: nat, g | VarShape(s, q, g) ensures VarAt(s, q).Some? && q <= |s| { }
    r
  }

  /** The group lies inside `s`. */
  predicate Fits(s: string, g: Group) {
    g.start <= g.end <= |s|
  }

  /** The text of a capture group. */
  function Captured(s: string, g: Group): string
    requires Fits(s, g)
  {
    s[g.start..g.end]
  }
}
