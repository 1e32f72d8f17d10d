/** `analyzeMotokoCode`: the line-by-line scan of Motoko source that the
    compiler simulation runs before producing any artefact.

    The scan is split in two. `Read` looks at one line on its own and
    records what the loop body's tests and regular expressions find on it;
    `Step` then folds that reading into the running state. Everything the
    loop body decides depends only on the line and on whether an actor is
    open, so the state-level facts below are proved once for any reading. */
module Analyzer {
  import opened Wrappers
  import opened Text
  import opened Patterns
  import opened Parameters

  datatype Import = Import(name: string, path: string)
  datatype Function = Function(name: string, params: seq<Param>, returnType: string, line: nat)
  datatype Variable = Variable(name: string, value: string, line: nat)
  datatype Actor = Actor(name: string, functions: seq<Function>, variables: seq<Variable>)

  /** The three line diagnostics, in the order the scan checks for them. */
  datatype Syntax = ImportSyntax | ActorSyntax | FunctionSyntax
  datatype LineError = LineError(line: nat, syntax: Syntax)

  /** What `analyzeMotokoCode` returns; `types` is always empty. */
  datatype Analysis = Analysis(
    actors: seq<Actor>,
    imports: seq<Import>,
    types: seq<string>,
    errors: seq<string>,
    warnings: seq<string>)

  // ---------------------------------------------------------------------------
  // Reading one line

  /** A `public func` declaration without its line number. */
  datatype Signature = Signature(name: string, params: seq<Param>, returnType: string)
  datatype Binding = Binding(name: string, value: string)

  /** What the loop body finds on one line: the brace balance of the raw
      line, whether the trimmed line is skipped, and for each of the four
      checks whether its `startsWith`/`includes` guard holds and what its
      regular expression captured. */
  datatype Reading = Reading(
    braces: int,
    skipped: bool,
    importLine: bool, importFound: Option<Import>,
    actorLine: bool, actorFound: Option<string>,
    functionLine: bool, signature: Option<Signature>,
    varLine: bool, binding: Option<Binding>)

  /** `!trimmed || trimmed.startsWith('//')`: lines the scan skips after
      counting their braces. */
  predicate Skipped(t: string) {
    t == [] || StartsWith(t, "//")
  }

  predicate ImportLine(t: string) {
    StartsWith(t, "import ")
  }

  predicate ActorLine(t: string) {
    Contains(t, "actor ")
  }

  predicate FunctionLine(t: string) {
    Contains(t, "public func ")
  }

  predicate VarLine(t: string) {
    Contains(t, "var ")
  }

  function FoundImport(t: string): Option<Import> {
    match ImportMatch(t)
    case Some((_, g)) => Some(Import(Captured(t, g.name), Captured(t, g.path)))
    case None => None
  }

  function FoundActor(t: string): Option<string> {
    match ActorMatch(t)
    case Some((_, g)) => Some(Captured(t, g))
    case None => None
  }

  /** Parameters through `parseParameters`, the return type trimmed. */
  function FoundSignature(t: string): Option<Signature> {
    match MotokoSignatureMatch(t)
    case Some((_, m)) =>
      Some(Signature(
        Captured(t, m.head.name),
        ParseParameters(Captured(t, m.head.params), MotokoDefault),
        Trim(Captured(t, m.rest.ret))))
    case None => None
  }

  /** The variable's name, and its value trimmed. */
  function FoundBinding(t: string): Option<Binding> {
    match VarMatch(t)
    case Some((_, g)) => Some(Binding(Captured(t, g.name), Trim(Captured(t, g.value))))
    case None => None
  }

  function Read(line: string): Reading {
    var t := Trim(line);
    Reading(
      Count(line, '{') - Count(line, '}'),
      Skipped(t),
      ImportLine(t), FoundImport(t),
      ActorLine(t), FoundActor(t),
      FunctionLine(t), FoundSignature(t),
      VarLine(t), FoundBinding(t))
  }

  /** The readings of `lines`, one per line. */
  function Readings(lines: seq<string>): (rs: seq<Reading>)
    ensures |rs| == |lines|
    ensures forall k :: 0 <= k < |lines| ==> rs[k] == Read(lines[k])
  {
    seq(|lines|, k requires 0 <= k < |lines| => Read(lines[k]))
  }

  /** The readings of a prefix are a prefix of the readings. */
  lemma ReadingsPrefix(lines: seq<string>, i: nat)
    requires i <= |lines|
    ensures Readings(lines[..i]) == Readings(lines)[..i]
  {
  }

  /** A reading records the line's tests and matches faithfully. */
  lemma ReadFaithful(line: string)
    ensures var r, t := Read(line), Trim(line);
      && r.braces == Count(line, '{') - Count(line, '}')
      && r.skipped == Skipped(t)
      && r.importLine == ImportLine(t) && (r.importFound.None? <==> ImportMatch(t).None?)
      && r.actorLine == ActorLine(t) && (r.actorFound.None? <==> ActorMatch(t).None?)
      && r.functionLine == FunctionLine(t) && (r.signature.None? <==> MotokoSignatureMatch(t).None?)
      && r.varLine == VarLine(t) && (r.binding.None? <==> VarMatch(t).None?)
  {
  }

  // ---------------------------------------------------------------------------
  // The scan

  /** The scan's running state. `current` is the index of the actor the
      source's `currentActor` points at (it aliases the last element pushed
      to `actors`); `openedAt` holds the 1-based line each actor opened on. */
  datatype Scan = Scan(
    braceLevel: int,
    actors: seq<Actor>,
    openedAt: seq<nat>,
    current: Option<nat>,
    imports: seq<Import>,
    errors: seq<LineError>)

  const Start := Scan(0, [], [], None, [], [])

  /** `currentActor` is null before the first actor and the last actor
      pushed afterwards. */
  predicate CurrentIsLast(st: Scan) {
    && |st.openedAt| == |st.actors|
    && st.current == (if st.actors == [] then None else Some(|st.actors| - 1))
  }

  function ImportStep(st: Scan, n: nat, r: Reading): (s: Scan)
    requires CurrentIsLast(st)
    ensures CurrentIsLast(s) && s.braceLevel == st.braceLevel
    ensures s.actors == st.actors && s.openedAt == st.openedAt
    ensures s.errors == st.errors + (if r.importLine && r.importFound.None? then [LineError(n, ImportSyntax)] else [])
    ensures s.imports == st.imports + (if r.importLine && r.importFound.Some? then [r.importFound.value] else [])
  {
    if !r.importLine then st
    else if r.importFound.Some? then st.(imports := st.imports + [r.importFound.value])
    else st.(errors := st.errors + [LineError(n, ImportSyntax)])
  }

  function ActorStep(st: Scan, n: nat, r: Reading): (s: Scan)
    requires CurrentIsLast(st)
    ensures CurrentIsLast(s) && s.braceLevel == st.braceLevel
    ensures s.errors == st.errors + (if r.actorLine && r.actorFound.None? then [LineError(n, ActorSyntax)] else [])
    ensures s.actors != [] <==> st.actors != [] || (r.actorLine && r.actorFound.Some?)
    ensures s.imports == st.imports
    ensures r.actorLine && r.actorFound.Some? ==>
      s.actors == st.actors + [Actor(r.actorFound.value, [], [])] && s.openedAt == st.openedAt + [n]
    ensures !(r.actorLine && r.actorFound.Some?) ==> s.actors == st.actors && s.openedAt == st.openedAt
  {
    if !r.actorLine then st
    else if r.actorFound.Some? then
      st.(actors := st.actors + [Actor(r.actorFound.value, [], [])],
          openedAt := st.openedAt + [n],
          current := Some(|st.actors|))
    else st.(errors := st.errors + [LineError(n, ActorSyntax)])
  }

  function AddFunction(actors: seq<Actor>, k: nat, f: Function): (r: seq<Actor>)
    requires k < |actors|
    ensures |r| == |actors|
    ensures forall j :: 0 <= j < |r| && j != k ==> r[j] == actors[j]
    ensures r[k].name == actors[k].name && r[k].functions == actors[k].functions + [f]
    ensures r[k].variables == actors[k].variables
  {
    actors[k := actors[k].(functions := actors[k].functions + [f])]
  }

  function AddVariable(actors: seq<Actor>, k: nat, v: Variable): (r: seq<Actor>)
    requires k < |actors|
    ensures |r| == |actors|
    ensures forall j :: 0 <= j < |r| ==> r[j].name == actors[j].name && r[j].functions == actors[j].functions
    ensures forall j :: 0 <= j < |r| && j != k ==> r[j] == actors[j]
    ensures r[k].variables == actors[k].variables + [v]
  {
    actors[k := actors[k].(variables := actors[k].variables + [v])]
  }

  /** `trimmed.includes('public func ') && currentActor`: the declaration
      goes to the actor `current` points at. */
  function FunctionStep(st: Scan, n: nat, r: Reading): (s: Scan)
    requires CurrentIsLast(st)
    ensures CurrentIsLast(s) && s.braceLevel == st.braceLevel && s.openedAt == st.openedAt
    ensures s.errors == st.errors + (if r.functionLine && st.actors != [] && r.signature.None? then [LineError(n, FunctionSyntax)] else [])
    ensures s.actors != [] <==> st.actors != []
    ensures s.imports == st.imports
    ensures r.functionLine && st.actors != [] && r.signature.Some? ==>
      var g := r.signature.value;
      s.actors == AddFunction(st.actors, |st.actors| - 1, Function(g.name, g.params, g.returnType, n))
    ensures !(r.functionLine && st.actors != [] && r.signature.Some?) ==> s.actors == st.actors
  {
    if !(r.functionLine && st.current.Some?) then st
    else if r.signature.Some? then
      var g := r.signature.value;
      st.(actors := AddFunction(st.actors, st.current.value, Function(g.name, g.params, g.returnType, n)))
    else st.(errors := st.errors + [LineError(n, FunctionSyntax)])
  }

  /** A `var` line that does not match is passed over without a diagnostic. */
  function VarStep(st: Scan, n: nat, r: Reading): (s: Scan)
    requires CurrentIsLast(st)
    ensures CurrentIsLast(s) && s.braceLevel == st.braceLevel && s.openedAt == st.openedAt
    ensures s.errors == st.errors && (s.actors != [] <==> st.actors != [])
    ensures s.imports == st.imports
    ensures r.varLine && st.actors != [] && r.binding.Some? ==>
      var b := r.binding.value;
      s.actors == AddVariable(st.actors, |st.actors| - 1, Variable(b.name, b.value, n))
    ensures !(r.varLine && st.actors != [] && r.binding.Some?) ==> s.actors == st.actors
  {
    if !(r.varLine && st.current.Some?) then st
    else if r.binding.Some? then
      var b := r.binding.value;
      st.(actors := AddVariable(st.actors, st.current.value, Variable(b.name, b.value, n)))
    else st
  }

  /** The loop body for line `n` (1-based): braces are counted on the raw
      line, before the skip test, then the four checks run in order. */
  function Step(st: Scan, n: nat, r: Reading): (s: Scan)
    requires CurrentIsLast(st)
    ensures CurrentIsLast(s) && s.braceLevel == st.braceLevel + r.braces
  {
    var st1 := st.(braceLevel := st.braceLevel + r.braces);
    if r.skipped then st1
    else VarStep(FunctionStep(ActorStep(ImportStep(st1, n, r), n, r), n, r), n, r)
  }

  /** The scan over the readings, one step per line in order. */
  function ScanReadings(rs: seq<Reading>): (st: Scan)
    ensures CurrentIsLast(st)
  {
    if |rs| == 0 then Start
    else Step(ScanReadings(rs[..|rs| - 1]), |rs|, rs[|rs| - 1])
  }

  function ScanLines(lines: seq<string>): Scan {
    ScanReadings(Readings(lines))
  }

  // ---------------------------------------------------------------------------
  // The result

  const UnmatchedBraces := "Unmatched braces in code"

  function SyntaxWord(s: Syntax): string {
    match s
    case ImportSyntax => "import"
    case ActorSyntax => "actor"
    case FunctionSyntax => "function"
  }

  /** `Line ${i + 1}: Invalid … syntax`. */
  function ErrorMessage(e: LineError): (m: string)
    ensures |m| > 0 && m[0] == 'L'
  {
    "Line " + NatToString(e.line) + ": Invalid " + SyntaxWord(e.syntax) + " syntax"
  }

  function ErrorMessages(errs: seq<LineError>): (r: seq<string>)
    ensures |r| == |errs|
    ensures forall k :: 0 <= k < |errs| ==> r[k] == ErrorMessage(errs[k])
  {
    if |errs| == 0 then [] else [ErrorMessage(errs[0])] + ErrorMessages(errs[1..])
  }

  function NoFunctionsWarning(name: string): string {
    "Actor '" + name + "' has no public functions"
  }

  /** One warning per actor without functions, in the order of `actors`. */
  function Warnings(actors: seq<Actor>): (r: seq<string>)
    ensures |r| <= |actors|
    ensures r == [] <==> forall k :: 0 <= k < |actors| ==> actors[k].functions != []
  {
    if |actors| == 0 then []
    else
      (if actors[0].functions == [] then [NoFunctionsWarning(actors[0].name)] else [])
      + Warnings(actors[1..])
  }

  /** `analyzeMotokoCode(code)`. */
  function Analyze(code: string): Analysis {
    var st := ScanLines(Split(code, '\n'));
    Analysis(
      st.actors,
      st.imports,
      [],
      ErrorMessages(st.errors) + (if st.braceLevel != 0 then [UnmatchedBraces] else []),
      Warnings(st.actors))
  }

  // ---------------------------------------------------------------------------
  // Braces

  lemma {:induction false} SumCountSnoc(parts: seq<string>, p: string, x: char)
    ensures SumCount(parts + [p], x) == SumCount(parts, x) + Count(p, x)
    decreases |parts|
  {
    if |parts| == 0 {
      assert [] + [p] == [p];
    } else {
      assert (parts + [p])[1..] == parts[1..] + [p];
      SumCountSnoc(parts[1..], p, x);
    }
  }

  /** The net brace count of the readings. */
  function Balance(rs: seq<Reading>): int {
    if |rs| == 0 then 0 else Balance(rs[..|rs| - 1]) + rs[|rs| - 1].braces
  }

  lemma {:induction false} ScanBalance(rs: seq<Reading>)
    ensures ScanReadings(rs).braceLevel == Balance(rs)
    decreases |rs|
  {
    if |rs| > 0 {
      ScanBalance(rs[..|rs| - 1]);
    }
  }

  lemma {:induction false} BalanceOfLines(rs: seq<Reading>, lines: seq<string>)
    requires |rs| == |lines|
    requires forall k :: 0 <= k < |rs| ==> rs[k].braces == Count(lines[k], '{') - Count(lines[k], '}')
    ensures Balance(rs) == SumCount(lines, '{') - SumCount(lines, '}')
    decreases |lines|
  {
    if |lines| > 0 {
      var m := |lines| - 1;
      BalanceOfLines(rs[..m], lines[..m]);
      assert lines == lines[..m] + [lines[m]];
      SumCountSnoc(lines[..m], lines[m], '{');
      SumCountSnoc(lines[..m], lines[m], '}');
    }
  }

  /** The brace counter after the scan is the number of `{` minus the number
      of `}` over all lines, skipped lines included. */
  lemma BraceLevelCounts(lines: seq<string>)
    ensures ScanLines(lines).braceLevel == SumCount(lines, '{') - SumCount(lines, '}')
  {
    var rs := Readings(lines);
    ScanBalance(rs);
    forall k | 0 <= k < |rs| ensures rs[k].braces == Count(lines[k], '{') - Count(lines[k], '}') {
      ReadFaithful(lines[k]);
    }
    BalanceOfLines(rs, lines);
  }

  /** The scan's final brace counter is the balance of the whole text. */
  lemma BraceTotal(code: string)
    ensures ScanLines(Split(code, '\n')).braceLevel == Count(code, '{') - Count(code, '}')
  {
    BraceLevelCounts(Split(code, '\n'));
    CountOverSplit(code, '\n', '{');
    CountOverSplit(code, '\n', '}');
  }

  lemma BraceErrorLast(msgs: seq<string>, unbalanced: bool)
    requires multiset(msgs)[UnmatchedBraces] == 0
    ensures var errors := msgs + (if unbalanced then [UnmatchedBraces] else []);
      && multiset(errors)[UnmatchedBraces] == (if unbalanced then 1 else 0)
      && (unbalanced ==> errors[|errors| - 1] == UnmatchedBraces)
  {
    assert msgs + [] == msgs;
  }

  lemma NoLineErrorIsUnmatched(msgs: seq<string>)
    requires forall k :: 0 <= k < |msgs| ==> |msgs[k]| > 0 && msgs[k][0] == 'L'
    ensures multiset(msgs)[UnmatchedBraces] == 0
  {
    assert UnmatchedBraces[0] == 'U';
    assert UnmatchedBraces !in msgs;
  }

  /** "Unmatched braces in code" is reported exactly when the whole text
      does not have as many `{` as `}`, then once, as the last error: only
      the totals count, so `}{` is balanced. */
  lemma UnmatchedBracesReported(code: string)
    ensures var errors := Analyze(code).errors;
      && multiset(errors)[UnmatchedBraces] == (if Count(code, '{') != Count(code, '}') then 1 else 0)
      && (Count(code, '{') != Count(code, '}') ==> errors[|errors| - 1] == UnmatchedBraces)
  {
    var st := ScanLines(Split(code, '\n'));
    BraceTotal(code);
    var msgs := ErrorMessages(st.errors);
    NoLineErrorIsUnmatched(msgs);
    BraceErrorLast(msgs, st.braceLevel != 0);
    AnalyzeErrors(code);
  }

  lemma AnalyzeErrors(code: string)
    ensures var st := ScanLines(Split(code, '\n'));
      Analyze(code).errors == ErrorMessages(st.errors) + (if st.braceLevel != 0 then [UnmatchedBraces] else [])
  {
  }

  // ---------------------------------------------------------------------------
  // Warnings

  /** Appending an actor appends its warning, if it has no functions, and
      nothing else: one warning per such actor, in discovery order. */
  lemma {:induction false} WarningsPerActor(actors: seq<Actor>, a: Actor)
    ensures Warnings(actors + [a])
         == Warnings(actors) + (if a.functions == [] then [NoFunctionsWarning(a.name)] else [])
    decreases |actors|
  {
    if |actors| == 0 {
      assert [] + [a] == [a];
      assert [a][1..] == [];
    } else {
      var w := if actors[0].functions == [] then [NoFunctionsWarning(actors[0].name)] else [];
      assert (actors + [a])[0] == actors[0];
      assert (actors + [a])[1..] == actors[1..] + [a];
      assert Warnings(actors + [a]) == w + Warnings(actors[1..] + [a]);
      WarningsPerActor(actors[1..], a);
    }
  }

  // ---------------------------------------------------------------------------
  // Line errors

  /** An actor opens on the line. */
  predicate Opens(r: Reading) {
    !r.skipped && r.actorLine && r.actorFound.Some?
  }

  /** Whether the check for `syn` fails on a line, given whether an actor
      was open before it. */
  predicate Fails(syn: Syntax, open: bool, r: Reading) {
    && !r.skipped
    && match syn
       case ImportSyntax => r.importLine && r.importFound.None?
       case ActorSyntax => r.actorLine && r.actorFound.None?
       case FunctionSyntax => r.functionLine && (open || Opens(r)) && r.signature.None?
  }

  function IfFails(syn: Syntax, open: bool, n: nat, r: Reading): (e: seq<LineError>)
    ensures e == [] || e == [LineError(n, syn)]
  {
    if Fails(syn, open, r) then [LineError(n, syn)] else []
  }

  /** The diagnostics of one line, read straight off the line and whether an
      actor was open before it. */
  function NewErrors(open: bool, n: nat, r: Reading): seq<LineError> {
    IfFails(ImportSyntax, open, n, r)
      + IfFails(ActorSyntax, open, n, r)
      + IfFails(FunctionSyntax, open, n, r)
  }

  lemma NewErrorsHas(open: bool, n: nat, r: Reading, syn: Syntax)
    ensures LineError(n, syn) in NewErrors(open, n, r) <==> Fails(syn, open, r)
  {
  }

  function Rank(s: Syntax): nat {
    match s
    case ImportSyntax => 0
    case ActorSyntax => 1
    case FunctionSyntax => 2
  }

  /** Line order first, then the order of the checks within a line. */
  predicate Precedes(a: LineError, b: LineError) {
    a.line < b.line || (a.line == b.line && Rank(a.syntax) < Rank(b.syntax))
  }

  predicate InOrder(errs: seq<LineError>) {
    forall a, b :: 0 <= a < b < |errs| ==> Precedes(errs[a], errs[b])
  }

  lemma Concat3<T>(e: seq<T>, a: seq<T>, b: seq<T>, c: seq<T>)
    ensures e + a + b + c == e + (a + b + c)
  {
  }

  lemma StepLineErrors(st: Scan, n: nat, r: Reading)
    requires CurrentIsLast(st) && !r.skipped
    ensures Step(st, n, r).errors == st.errors + NewErrors(st.actors != [], n, r)
  {
    var open := st.actors != [];
    Concat3(st.errors, IfFails(ImportSyntax, open, n, r),
      IfFails(ActorSyntax, open, n, r), IfFails(FunctionSyntax, open, n, r));
  }

  lemma StepLineOpens(st: Scan, n: nat, r: Reading)
    requires CurrentIsLast(st) && !r.skipped
    ensures Step(st, n, r).actors != [] <==> st.actors != [] || Opens(r)
  {
  }

  /** The loop body adds exactly the line's own diagnostics; an actor is open
      afterwards when one was before or the line opens one. */
  lemma StepErrors(st: Scan, n: nat, r: Reading)
    requires CurrentIsLast(st)
    ensures var s := Step(st, n, r);
      && s.errors == st.errors + NewErrors(st.actors != [], n, r)
      && (s.actors != [] <==> st.actors != [] || Opens(r))
  {
    if r.skipped {
      assert st.errors + [] == st.errors;
    } else {
      StepLineErrors(st, n, r);
      StepLineOpens(st, n, r);
    }
  }

  /** A line's diagnostics carry its number and come in check order. */
  lemma NewErrorsOrdered(open: bool, n: nat, r: Reading)
    ensures var e := NewErrors(open, n, r);
      && InOrder(e) && forall k :: 0 <= k < |e| ==> e[k].line == n
  {
  }

  /** The errors recorded after `upto` lines: sorted, and each naming one of
      those lines. */
  predicate Sorted(errs: seq<LineError>, upto: nat) {
    InOrder(errs) && forall e :: e in errs ==> 1 <= e.line <= upto
  }

  lemma AppendSorted(xs: seq<LineError>, ys: seq<LineError>, n: nat)
    requires n >= 1 && Sorted(xs, n - 1)
    requires InOrder(ys) && forall k :: 0 <= k < |ys| ==> ys[k].line == n
    ensures Sorted(xs + ys, n)
  {
    forall a, b | 0 <= a < b < |xs + ys| ensures Precedes((xs + ys)[a], (xs + ys)[b]) {
      if b >= |xs| && a < |xs| {
        assert xs[a] in xs;
      }
    }
  }

  lemma StepSorted(st: Scan, n: nat, r: Reading)
    requires CurrentIsLast(st) && n >= 1 && Sorted(st.errors, n - 1)
    ensures Sorted(Step(st, n, r).errors, n)
  {
    StepErrors(st, n, r);
    NewErrorsOrdered(st.actors != [], n, r);
    AppendSorted(st.errors, NewErrors(st.actors != [], n, r), n);
  }

  /** Errors are sorted by line, then by check order (import, actor,
      function) within a line, and each names a line of the text, counted
      from 1. */
  lemma {:induction false} ErrorsSorted(rs: seq<Reading>)
    ensures Sorted(ScanReadings(rs).errors, |rs|)
    decreases |rs|
  {
    if |rs| > 0 {
      ErrorsSorted(rs[..|rs| - 1]);
      StepSorted(ScanReadings(rs[..|rs| - 1]), |rs|, rs[|rs| - 1]);
    }
  }

  lemma StepKeepsEarlier(st: Scan, n: nat, r: Reading, e: LineError)
    requires CurrentIsLast(st) && e.line < n
    ensures e in Step(st, n, r).errors <==> e in st.errors
  {
    StepErrors(st, n, r);
    NewErrorsOrdered(st.actors != [], n, r);
  }

  lemma StepOwnLine(st: Scan, n: nat, r: Reading, e: LineError)
    requires CurrentIsLast(st) && n >= 1 && Sorted(st.errors, n - 1) && e.line == n
    ensures e in Step(st, n, r).errors <==> e in NewErrors(st.actors != [], n, r)
  {
    StepErrors(st, n, r);
  }

  /** The errors that name line `i + 1` are those of that line alone. */
  lemma {:induction false} ErrorsOfLine(rs: seq<Reading>, i: nat, e: LineError)
    requires i < |rs| && e.line == i + 1
    ensures e in ScanReadings(rs).errors
        <==> e in NewErrors(ScanReadings(rs[..i]).actors != [], i + 1, rs[i])
    decreases |rs|
  {
    var m := |rs| - 1;
    if m == i {
      ErrorsSorted(rs[..m]);
      StepOwnLine(ScanReadings(rs[..m]), m + 1, rs[m], e);
    } else {
      StepKeepsEarlier(ScanReadings(rs[..m]), m + 1, rs[m], e);
      ErrorsOfLine(rs[..m], i, e);
      assert rs[..m][..i] == rs[..i] && rs[..m][i] == rs[i];
    }
  }

  /** Which lines get which diagnostic. Blank and `//` lines never get one;
      a `var` line never gets one of its own; a `public func ` line gets one
      only once an actor is open, possibly on the same line. */
  lemma LineErrors(lines: seq<string>, i: nat)
    requires i < |lines|
    ensures var t, errs := Trim(lines[i]), ScanLines(lines).errors;
      && (LineError(i + 1, ImportSyntax) in errs
          <==> !Skipped(t) && ImportLine(t) && ImportMatch(t).None?)
      && (LineError(i + 1, ActorSyntax) in errs
          <==> !Skipped(t) && ActorLine(t) && ActorMatch(t).None?)
      && (LineError(i + 1, FunctionSyntax) in errs
          <==> && !Skipped(t) && FunctionLine(t) && MotokoSignatureMatch(t).None?
               && (ScanLines(lines[..i]).actors != [] || (ActorLine(t) && ActorMatch(t).Some?)))
  {
    var rs := Readings(lines);
    var open := ScanLines(lines[..i]).actors != [];
    ReadingsPrefix(lines, i);
    ReadFaithful(lines[i]);
    ErrorsOfLine(rs, i, LineError(i + 1, ImportSyntax));
    ErrorsOfLine(rs, i, LineError(i + 1, ActorSyntax));
    ErrorsOfLine(rs, i, LineError(i + 1, FunctionSyntax));
    NewErrorsHas(open, i + 1, rs[i], ImportSyntax);
    NewErrorsHas(open, i + 1, rs[i], ActorSyntax);
    NewErrorsHas(open, i + 1, rs[i], FunctionSyntax);
  }

  // ---------------------------------------------------------------------------
  // Where functions go

  /** Actors open on strictly increasing lines, each within the first
      `upto` lines. */
  predicate OpenOrder(openedAt: seq<nat>, upto: nat) {
    && (forall j, k :: 0 <= j < k < |openedAt| ==> openedAt[j] < openedAt[k])
    && (forall k :: 0 <= k < |openedAt| ==> 1 <= openedAt[k] <= upto)
  }

  /** A function recorded for actor `k` lies on or after the line that
      opened actor `k` and before the line that opened actor `k + 1`. */
  predicate FunctionsWithin(actors: seq<Actor>, openedAt: seq<nat>, upto: nat)
    requires |openedAt| == |actors|
  {
    forall k, j :: 0 <= k < |actors| && 0 <= j < |actors[k].functions| ==>
      && openedAt[k] <= actors[k].functions[j].line <= upto
      && (k + 1 < |actors| ==> actors[k].functions[j].line < openedAt[k + 1])
  }

  /** Within an actor, functions come in strictly increasing line order. */
  predicate FunctionsOrdered(actors: seq<Actor>) {
    forall k, a, b :: 0 <= k < |actors| && 0 <= a < b < |actors[k].functions| ==>
      actors[k].functions[a].line < actors[k].functions[b].line
  }

  predicate Arranged(actors: seq<Actor>, openedAt: seq<nat>, upto: nat) {
    && |openedAt| == |actors|
    && OpenOrder(openedAt, upto)
    && FunctionsWithin(actors, openedAt, upto)
    && FunctionsOrdered(actors)
  }

  predicate Placed(st: Scan, upto: nat) {
    Arranged(st.actors, st.openedAt, upto)
  }

  lemma ArrangedGrows(actors: seq<Actor>, openedAt: seq<nat>, upto: nat, upto': nat)
    requires Arranged(actors, openedAt, upto) && upto <= upto'
    ensures Arranged(actors, openedAt, upto')
  {
  }

  lemma ActorStepPlaced(st: Scan, n: nat, r: Reading)
    requires CurrentIsLast(st) && n >= 1 && Placed(st, n - 1)
    ensures var s := ActorStep(st, n, r);
      && Placed(s, n)
      && forall k, j :: 0 <= k < |s.actors| && 0 <= j < |s.actors[k].functions| ==>
           s.actors[k].functions[j].line < n
  {
  }

  lemma FunctionStepPlaced(st: Scan, n: nat, r: Reading)
    requires CurrentIsLast(st) && Placed(st, n)
    requires forall k, j :: 0 <= k < |st.actors| && 0 <= j < |st.actors[k].functions| ==>
      st.actors[k].functions[j].line < n
    ensures Placed(FunctionStep(st, n, r), n)
  {
    if r.functionLine && st.current.Some? && r.signature.Some? {
      var s := FunctionStep(st, n, r);
      var last := |st.actors| - 1;
      assert s.actors[last].functions == st.actors[last].functions + [s.actors[last].functions[|s.actors[last].functions| - 1]];
    }
  }

  lemma VarStepPlaced(st: Scan, n: nat, r: Reading)
    requires CurrentIsLast(st) && Placed(st, n)
    ensures Placed(VarStep(st, n, r), n)
  {
    var s := VarStep(st, n, r);
    assert forall k :: 0 <= k < |s.actors| ==> s.actors[k].functions == st.actors[k].functions;
  }

  lemma LinePlaced(st: Scan, n: nat, r: Reading)
    requires CurrentIsLast(st) && n >= 1 && Placed(st, n - 1) && !r.skipped
    ensures Placed(Step(st, n, r), n)
  {
    var c := Checked(st, n, r);
    CheckedPlaced(st, n, r);
    FunctionStepPlaced(c, n, r);
    VarStepPlaced(FunctionStep(c, n, r), n, r);
    LineIsChain(st, n, r);
  }

  /** The import and actor checks of a line keep the placement, and every
      function recorded so far lies before the line. */
  lemma CheckedPlaced(st: Scan, n: nat, r: Reading)
    requires CurrentIsLast(st) && n >= 1 && Placed(st, n - 1)
    ensures var c := Checked(st, n, r);
      && Placed(c, n)
      && forall k, j :: 0 <= k < |c.actors| && 0 <= j < |c.actors[k].functions| ==>
           c.actors[k].functions[j].line < n
  {
    var st1 := st.(braceLevel := st.braceLevel + r.braces);
    assert st1.actors == st.actors && st1.openedAt == st.openedAt;
    ActorStepPlaced(ImportStep(st1, n, r), n, r);
  }

  lemma StepPlaced(st: Scan, n: nat, r: Reading)
    requires CurrentIsLast(st) && n >= 1 && Placed(st, n - 1)
    ensures Placed(Step(st, n, r), n)
  {
    if r.skipped {
      ArrangedGrows(st.actors, st.openedAt, n - 1, n);
    } else {
      LinePlaced(st, n, r);
    }
  }

  /** Functions attach to the most recently opened actor: actors open on
      increasing lines, and every function of actor `k` lies between the
      line that opened it and the line that opened the next actor (a
      function on the line that opens an actor goes to that actor, and a
      declaration before the first actor is recorded nowhere). */
  lemma {:induction false} FunctionsPlaced(rs: seq<Reading>)
    ensures Placed(ScanReadings(rs), |rs|)
    decreases |rs|
  {
    if |rs| > 0 {
      FunctionsPlaced(rs[..|rs| - 1]);
      StepPlaced(ScanReadings(rs[..|rs| - 1]), |rs|, rs[|rs| - 1]);
    }
  }

  // ---------------------------------------------------------------------------
  // What the scan records

  /** The import line `n` contributes, if it is read as one. */
  function ImportOf(r: Reading, n: nat): seq<Import> {
    if !r.skipped && r.importLine && r.importFound.Some? then [r.importFound.value] else []
  }

  /** The function line `n` declares, if its declaration matches. */
  function FunctionOf(r: Reading, n: nat): seq<Function> {
    if !r.skipped && r.functionLine && r.signature.Some? then
      var g := r.signature.value;
      [Function(g.name, g.params, g.returnType, n)]
    else []
  }

  /** The variable line `n` declares, if its declaration matches. */
  function VariableOf(r: Reading, n: nat): seq<Variable> {
    if !r.skipped && r.varLine && r.binding.Some? then
      [Variable(r.binding.value.name, r.binding.value.value, n)]
    else []
  }

  /** What `of` finds on lines `from` to `|rs|` (1-based), in line order. */
  function Gathered<X>(rs: seq<Reading>, from: nat, of: (Reading, nat) -> seq<X>): seq<X>
    decreases |rs|
  {
    if |rs| == 0 || |rs| < from then []
    else Gathered(rs[..|rs| - 1], from, of) + of(rs[|rs| - 1], |rs|)
  }

  /** The lines on which an actor opens, in increasing order. */
  function OpenedLines(rs: seq<Reading>): (ls: seq<nat>)
    ensures forall k :: 0 <= k < |ls| ==> 1 <= ls[k] <= |rs| && Opens(rs[ls[k] - 1])
    ensures forall i :: 0 <= i < |rs| && Opens(rs[i]) ==> i + 1 in ls
    ensures forall j, k :: 0 <= j < k < |ls| ==> ls[j] < ls[k]
    decreases |rs|
  {
    if |rs| == 0 then []
    else
      var ls := OpenedLines(rs[..|rs| - 1]);
      OpenedLinesGrow(rs, ls);
      ls + (if Opens(rs[|rs| - 1]) then [|rs|] else [])
  }

  /** The opening lines of all but the last line, followed by the last line
      if it opens an actor, are the opening lines of all lines. */
  lemma OpenedLinesGrow(rs: seq<Reading>, ls: seq<nat>)
    requires |rs| >= 1
    requires var p := rs[..|rs| - 1];
      && (forall k :: 0 <= k < |ls| ==> 1 <= ls[k] <= |p| && Opens(p[ls[k] - 1]))
      && (forall i :: 0 <= i < |p| && Opens(p[i]) ==> i + 1 in ls)
      && (forall j, k :: 0 <= j < k < |ls| ==> ls[j] < ls[k])
    ensures var ls' := ls + (if Opens(rs[|rs| - 1]) then [|rs|] else []);
      && (forall k :: 0 <= k < |ls'| ==> 1 <= ls'[k] <= |rs| && Opens(rs[ls'[k] - 1]))
      && (forall i :: 0 <= i < |rs| && Opens(rs[i]) ==> i + 1 in ls')
      && (forall j, k :: 0 <= j < k < |ls'| ==> ls'[j] < ls'[k])
  {
    var p := rs[..|rs| - 1];
    assert forall i :: 0 <= i < |p| ==> p[i] == rs[i];
  }

  /** On a line that is read, a matched declaration goes to the last actor. */
  lemma FunctionStepAppends(st: Scan, n: nat, r: Reading)
    requires CurrentIsLast(st) && st.actors != [] && !r.skipped
    ensures var last, a := |st.actors| - 1, st.actors[|st.actors| - 1];
      FunctionStep(st, n, r).actors == st.actors[last := Grown(a, FunctionOf(r, n), [])]
  {
    var last, a, fs := |st.actors| - 1, st.actors[|st.actors| - 1], FunctionOf(r, n);
    assert a.variables + [] == a.variables;
    if fs == [] {
      assert Grown(a, fs, []) == a;
      assert st.actors[last := a] == st.actors;
    } else {
      var got, want := FunctionStep(st, n, r).actors, st.actors[last := Grown(a, fs, [])];
      assert |got| == |want|;
      assert forall j :: 0 <= j < |got| ==> got[j] == want[j];
    }
  }

  lemma VarStepAppends(st: Scan, n: nat, r: Reading)
    requires CurrentIsLast(st) && st.actors != [] && !r.skipped
    ensures var last, a := |st.actors| - 1, st.actors[|st.actors| - 1];
      VarStep(st, n, r).actors == st.actors[last := Grown(a, [], VariableOf(r, n))]
  {
    var last, a, vs := |st.actors| - 1, st.actors[|st.actors| - 1], VariableOf(r, n);
    assert a.functions + [] == a.functions;
    if vs == [] {
      assert Grown(a, [], vs) == a;
      assert st.actors[last := a] == st.actors;
    } else {
      var got, want := VarStep(st, n, r).actors, st.actors[last := Grown(a, [], vs)];
      assert |got| == |want|;
      assert forall j :: 0 <= j < |got| ==> got[j] == want[j];
    }
  }

  /** Actor `a` with declarations appended. */
  function Grown(a: Actor, fs: seq<Function>, vs: seq<Variable>): Actor {
    a.(functions := a.functions + fs, variables := a.variables + vs)
  }

  /** The state after the import and actor checks of a line that is read. */
  function Checked(st: Scan, n: nat, r: Reading): Scan
    requires CurrentIsLast(st)
  {
    ActorStep(ImportStep(st.(braceLevel := st.braceLevel + r.braces), n, r), n, r)
  }

  lemma LineIsChain(st: Scan, n: nat, r: Reading)
    requires CurrentIsLast(st) && !r.skipped
    ensures Step(st, n, r) == VarStep(FunctionStep(Checked(st, n, r), n, r), n, r)
  {
  }

  /** A line that is read records its import and no actor beyond the
      actor check's. */
  lemma LineImports(st: Scan, n: nat, r: Reading)
    requires CurrentIsLast(st) && !r.skipped
    ensures Step(st, n, r).imports == st.imports + ImportOf(r, n)
    ensures Step(st, n, r).openedAt == Checked(st, n, r).openedAt
  {
    LineIsChain(st, n, r);
  }

  lemma UpdateTwice<T>(xs: seq<T>, i: nat, y: T, z: T)
    requires i < |xs|
    ensures xs[i := y][i := z] == xs[i := z]
  {
  }

  lemma GrownTwice(a: Actor, fs: seq<Function>, vs: seq<Variable>)
    ensures Grown(Grown(a, fs, []), [], vs) == Grown(a, fs, vs)
  {
    assert a.functions + fs + [] == a.functions + fs;
    assert a.variables + [] + vs == a.variables + vs;
  }

  /** A line that is read: its declarations go to the last actor after the
      actor check, which is the line's own actor when it opens one. */
  lemma LineAppends(st: Scan, n: nat, r: Reading, c: Scan)
    requires CurrentIsLast(st) && !r.skipped && c == Checked(st, n, r) && c.actors != []
    ensures Step(st, n, r).actors
         == c.actors[|c.actors| - 1 := Grown(c.actors[|c.actors| - 1], FunctionOf(r, n), VariableOf(r, n))]
  {
    var last, a, fs, vs := |c.actors| - 1, c.actors[|c.actors| - 1], FunctionOf(r, n), VariableOf(r, n);
    var c4 := FunctionStep(c, n, r);
    LineIsChain(st, n, r);
    FunctionStepAppends(c, n, r);
    assert c4.actors == c.actors[last := Grown(a, fs, [])];
    VarStepAppends(c4, n, r);
    GrownTwice(a, fs, vs);
    UpdateTwice(c.actors, last, Grown(a, fs, []), Grown(a, fs, vs));
  }

  /** The state after the actor check: a new, empty actor when the line
      opens one. */
  lemma CheckedActors(st: Scan, n: nat, r: Reading)
    requires CurrentIsLast(st) && !r.skipped
    ensures var c := Checked(st, n, r);
      && c.actors == st.actors + (if Opens(r) then [Actor(r.actorFound.value, [], [])] else [])
      && c.openedAt == st.openedAt + (if Opens(r) then [n] else [])
  {
  }

  lemma StepActorsSkipped(st: Scan, n: nat, r: Reading)
    requires CurrentIsLast(st) && r.skipped && st.actors != []
    ensures Step(st, n, r).actors
         == st.actors[|st.actors| - 1 := Grown(st.actors[|st.actors| - 1], FunctionOf(r, n), VariableOf(r, n))]
  {
    var last, a := |st.actors| - 1, st.actors[|st.actors| - 1];
    assert Grown(a, FunctionOf(r, n), VariableOf(r, n)) == a;
    assert st.actors[last := a] == st.actors;
  }

  lemma StepActorsOpen(st: Scan, n: nat, r: Reading)
    requires CurrentIsLast(st) && Opens(r)
    ensures Step(st, n, r).actors == st.actors + [Actor(r.actorFound.value, FunctionOf(r, n), VariableOf(r, n))]
  {
    var fs, vs := FunctionOf(r, n), VariableOf(r, n);
    var c := Checked(st, n, r);
    var a := Actor(r.actorFound.value, [], []);
    CheckedActors(st, n, r);
    assert c.actors == st.actors + [a];
    LineAppends(st, n, r, c);
    assert Grown(a, fs, vs) == Actor(r.actorFound.value, fs, vs);
    assert (st.actors + [a])[|st.actors| := Actor(r.actorFound.value, fs, vs)]
        == st.actors + [Actor(r.actorFound.value, fs, vs)];
  }

  lemma StepActorsGrow(st: Scan, n: nat, r: Reading)
    requires CurrentIsLast(st) && !r.skipped && !Opens(r) && st.actors != []
    ensures Step(st, n, r).actors
         == st.actors[|st.actors| - 1 := Grown(st.actors[|st.actors| - 1], FunctionOf(r, n), VariableOf(r, n))]
  {
    var c := Checked(st, n, r);
    CheckedActors(st, n, r);
    assert c.actors == st.actors;
    LineAppends(st, n, r, c);
  }

  lemma StepActorsNone(st: Scan, n: nat, r: Reading)
    requires CurrentIsLast(st) && !Opens(r) && st.actors == []
    ensures Step(st, n, r).actors == []
  {
    if !r.skipped {
      CheckedActors(st, n, r);
      LineIsChain(st, n, r);
    }
  }

  /** One loop body's effect on what the scan records: an opening line
      pushes a new actor holding that line's own declarations; any other
      line adds its declarations to the last actor, if there is one. */
  lemma StepRecords(st: Scan, n: nat, r: Reading)
    requires CurrentIsLast(st)
    ensures var s := Step(st, n, r);
      && s.imports == st.imports + ImportOf(r, n)
      && s.openedAt == st.openedAt + (if Opens(r) then [n] else [])
      && (Opens(r) ==> s.actors == st.actors + [Actor(r.actorFound.value, FunctionOf(r, n), VariableOf(r, n))])
      && (!Opens(r) && st.actors != [] ==>
            s.actors == st.actors[|st.actors| - 1 := Grown(st.actors[|st.actors| - 1], FunctionOf(r, n), VariableOf(r, n))])
      && (!Opens(r) && st.actors == [] ==> s.actors == [])
  {
    if !r.skipped {
      LineImports(st, n, r);
      CheckedActors(st, n, r);
    }
    if Opens(r) {
      StepActorsOpen(st, n, r);
    } else if st.actors == [] {
      StepActorsNone(st, n, r);
    } else if r.skipped {
      StepActorsSkipped(st, n, r);
    } else {
      StepActorsGrow(st, n, r);
    }
  }

  /** The last line of actor `k`'s part of the first `m` lines: the line
      before the next actor opens, or line `m`. */
  function PartEnd(openedAt: seq<nat>, k: nat, m: nat): int
    requires k < |openedAt|
  {
    if k + 1 < |openedAt| then openedAt[k + 1] - 1 else m
  }

  /** Actor `a`, the `k`-th to open, is named by the capture of its opening
      line and holds exactly the functions and variables declared from that
      line to the end of its part, in line order. */
  ghost predicate ActorRecords(rs: seq<Reading>, openedAt: seq<nat>, a: Actor, k: nat)
    requires k < |openedAt|
  {
    var o, e := openedAt[k], PartEnd(openedAt, k, |rs|);
    && 1 <= o <= |rs| && 0 <= e <= |rs|
    && Some(a.name) == rs[o - 1].actorFound
    && a.functions == Gathered(rs[..e], o, FunctionOf)
    && a.variables == Gathered(rs[..e], o, VariableOf)
  }

  /** An actor whose part a line does not reach keeps its records. */
  lemma ActorRecordsKept(rs: seq<Reading>, ol: seq<nat>, ol': seq<nat>, a: Actor, k: nat)
    requires |rs| >= 1 && k < |ol| <= |ol'| && ol'[k] == ol[k]
    requires PartEnd(ol', k, |rs|) == PartEnd(ol, k, |rs| - 1)
    requires ActorRecords(rs[..|rs| - 1], ol, a, k)
    ensures ActorRecords(rs, ol', a, k)
  {
    var p, o, e := rs[..|rs| - 1], ol[k], PartEnd(ol, k, |rs| - 1);
    assert p[..e] == rs[..e];
    assert p[o - 1] == rs[o - 1];
  }

  /** The last actor takes the declarations of a line that opens none. */
  lemma ActorRecordsGrow(rs: seq<Reading>, ol: seq<nat>, a: Actor)
    requires |rs| >= 1 && |ol| >= 1
    requires ActorRecords(rs[..|rs| - 1], ol, a, |ol| - 1)
    ensures ActorRecords(rs, ol, Grown(a, FunctionOf(rs[|rs| - 1], |rs|), VariableOf(rs[|rs| - 1], |rs|)), |ol| - 1)
  {
    var p, o := rs[..|rs| - 1], ol[|ol| - 1];
    assert p[o - 1] == rs[o - 1];
    assert rs[..|rs|] == rs;
    assert p[..|p|] == p;
  }

  /** A new actor holds its opening line's own declarations. */
  lemma ActorRecordsNew(rs: seq<Reading>, ol: seq<nat>)
    requires |rs| >= 1 && |ol| >= 1 && ol[|ol| - 1] == |rs| && Opens(rs[|rs| - 1])
    ensures var r := rs[|rs| - 1];
      ActorRecords(rs, ol, Actor(r.actorFound.value, FunctionOf(r, |rs|), VariableOf(r, |rs|)), |ol| - 1)
  {
    assert rs[..|rs|] == rs;
  }

  /** One more line keeps every actor's records, given how the line changes
      the actors and their opening lines. */
  lemma ActorsStep(rs: seq<Reading>, st: Scan, s: Scan)
    requires |rs| >= 1 && |st.openedAt| == |st.actors|
    requires forall k :: 0 <= k < |st.actors| ==> ActorRecords(rs[..|rs| - 1], st.openedAt, st.actors[k], k)
    requires var m, r := |rs|, rs[|rs| - 1];
      && s.openedAt == st.openedAt + (if Opens(r) then [m] else [])
      && (Opens(r) ==> s.actors == st.actors + [Actor(r.actorFound.value, FunctionOf(r, m), VariableOf(r, m))])
      && (!Opens(r) && st.actors != [] ==>
            s.actors == st.actors[|st.actors| - 1 := Grown(st.actors[|st.actors| - 1], FunctionOf(r, m), VariableOf(r, m))])
      && (!Opens(r) && st.actors == [] ==> s.actors == [])
    ensures forall k :: 0 <= k < |s.actors| ==> ActorRecords(rs, s.openedAt, s.actors[k], k)
  {
    var r := rs[|rs| - 1];
    forall k | 0 <= k < |s.actors|
      ensures ActorRecords(rs, s.openedAt, s.actors[k], k)
    {
      if k == |st.actors| {
        ActorRecordsNew(rs, s.openedAt);
      } else if Opens(r) || k + 1 < |st.actors| {
        ActorRecordsKept(rs, st.openedAt, s.openedAt, st.actors[k], k);
      } else {
        ActorRecordsGrow(rs, st.openedAt, st.actors[k]);
      }
    }
  }

  /** What `analyzeMotokoCode` records. The imports are the matched imports
      of all lines, in line order. Actors open exactly on the lines whose
      actor expression matches, and actor `k` holds the declarations of its
      own part of the text (`ActorRecords`); declarations before the first
      actor are recorded nowhere. */
  lemma {:induction false} ScanRecords(rs: seq<Reading>)
    ensures var st := ScanReadings(rs);
      && st.imports == Gathered(rs, 1, ImportOf)
      && st.openedAt == OpenedLines(rs)
      && forall k :: 0 <= k < |st.actors| ==> ActorRecords(rs, st.openedAt, st.actors[k], k)
    decreases |rs|
  {
    if |rs| > 0 {
      var m := |rs|;
      var p, r := rs[..m - 1], rs[m - 1];
      ScanRecords(p);
      var st := ScanReadings(p);
      StepRecords(st, m, r);
      assert ScanReadings(rs) == Step(st, m, r);
      ActorsStep(rs, st, Step(st, m, r));
    }
  }
}
