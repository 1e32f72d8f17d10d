/** `FunctionParser`: the signature extractor behind the test buttons. For
    one of three languages it reads every line of a source text, trimmed,
    with one regular expression, and records each declaration it finds. */
module FunctionParser {
  import opened Wrappers
  import opened Text
  import opened Patterns
  import opened Parameters
  import Analyzer

  datatype Language = Motoko | Rust | JavaScript

  /** The `language` field of a record. */
  function Tag(l: Language): string {
    match l
    case Motoko => "motoko"
    case Rust => "rust"
    case JavaScript => "javascript"
  }

  /** `{ name, params, returnType, line, language }`. */
  datatype Record = Record(name: string, params: seq<Param>, returnType: string, line: nat, language: string)

  type Signature = Analyzer.Signature

  /** `pub async fn\s+(\w+)\s*\(([^)]*)\)\s*->\s*([^{]+)`, parameters through
      `parseRustParameters`, the return type trimmed. */
  function FoundRust(t: string): Option<Signature> {
    match RustSignatureMatch(t)
    case Some((_, m)) =>
      Some(Analyzer.Signature(
        Captured(t, m.head.name),
        ParseParameters(Captured(t, m.head.params), RustDefault),
        Trim(Captured(t, m.rest.ret))))
    case None => None
  }

  /** `export function\s+(\w+)\s*\(([^)]*)\)`, parameters through
      `parseJavaScriptParameters`, the return type always `any`. */
  function FoundJavaScript(t: string): Option<Signature> {
    match JavaScriptSignatureMatch(t)
    case Some((_, h)) =>
      Some(Analyzer.Signature(
        Captured(t, h.name),
        ParseJavaScriptParameters(Captured(t, h.params)),
        JavaScriptType))
    case None => None
  }

  /** The declaration on the trimmed line `t`, if the language's expression
      matches it. The Motoko expression and parameter splitter are those of
      the compiler simulation, without its enclosing-actor condition. */
  function Found(l: Language, t: string): Option<Signature> {
    match l
    case Motoko => Analyzer.FoundSignature(t)
    case Rust => FoundRust(t)
    case JavaScript => FoundJavaScript(t)
  }

  /** What each line holds, in order. */
  function Findings(l: Language, lines: seq<string>): (fs: seq<Option<Signature>>)
    ensures |fs| == |lines|
    ensures forall k :: 0 <= k < |lines| ==> fs[k] == Found(l, Trim(lines[k]))
  {
    seq(|lines|, k requires 0 <= k < |lines| => Found(l, Trim(lines[k])))
  }

  function RecordOf(g: Signature, n: nat, tag: string): Record {
    Record(g.name, g.params, g.returnType, n, tag)
  }

  function SignatureOf(r: Record): Signature {
    Analyzer.Signature(r.name, r.params, r.returnType)
  }

  /** The record line `n` contributes, if any. */
  function Added(f: Option<Signature>, n: nat, tag: string): seq<Record> {
    if f.Some? then [RecordOf(f.value, n, tag)] else []
  }

  /** The loop: line `k + 1` contributes a record when `fs[k]` holds a
      declaration, and nothing otherwise. */
  function Collect(fs: seq<Option<Signature>>, tag: string): (r: seq<Record>)
    ensures |r| <= |fs|
  {
    if |fs| == 0 then []
    else
      var m := |fs| - 1;
      Collect(fs[..m], tag) + Added(fs[m], m + 1, tag)
  }

  /** `parseMotokoFunctions`, `parseRustFunctions` and
      `parseJavaScriptFunctions`. */
  function Extract(l: Language, code: string): seq<Record> {
    Collect(Findings(l, Split(code, '\n')), Tag(l))
  }

  /** `language.toLowerCase()` against the three supported names. */
  function LanguageNamed(name: string): (r: Option<Language>)
    ensures r.Some? <==> Lower(name) in {"motoko", "rust", "javascript"}
    ensures r.Some? ==> Tag(r.value) == Lower(name)
  {
    var n := Lower(name);
    if n == "motoko" then Some(Motoko)
    else if n == "rust" then Some(Rust)
    else if n == "javascript" then Some(JavaScript)
    else None
  }

  /** `parseFunctions(code, language)`: nothing for a non-string or empty
      text or an unsupported language; otherwise the records extracted by
      that language's parser. */
  function ParseFunctions(code: Value, language: string): (r: seq<Record>)
    ensures code.NonString? || code.text == [] || LanguageNamed(language).None? ==> r == []
    ensures code.Str? && code.text != [] && LanguageNamed(language).Some? ==>
      r == Extract(LanguageNamed(language).value, code.text)
  {
    if code.NonString? || code.text == [] then []
    else
      match LanguageNamed(language)
      case Some(l) => Extract(l, code.text)
      case None => []
  }

  /** The language name is matched without regard to (ASCII) case. */
  lemma LanguageCaseInsensitive(code: Value, language: string)
    ensures ParseFunctions(code, language) == ParseFunctions(code, Lower(language))
  {
    LowerIdempotent(language);
  }

  // ---------------------------------------------------------------------------
  // The records and the lines

  /** Every record comes from the line it names, carrying that line's
      declaration and the language tag. */
  predicate Sound(r: seq<Record>, fs: seq<Option<Signature>>, tag: string) {
    forall k :: 0 <= k < |r| ==>
      && 1 <= r[k].line <= |fs|
      && fs[r[k].line - 1] == Some(SignatureOf(r[k]))
      && r[k].language == tag
  }

  predicate Increasing(r: seq<Record>) {
    forall a, b :: 0 <= a < b < |r| ==> r[a].line < r[b].line
  }

  /** Every line with a declaration has a record. */
  predicate Complete(r: seq<Record>, fs: seq<Option<Signature>>) {
    forall i :: 0 <= i < |fs| && fs[i].Some? ==> exists k :: 0 <= k < |r| && r[k].line == i + 1
  }

  lemma SoundSnoc(r: seq<Record>, fs: seq<Option<Signature>>, tag: string, f: Option<Signature>)
    requires Sound(r, fs, tag)
    ensures Sound(r + Added(f, |fs| + 1, tag), fs + [f], tag)
  {
    var fs', r' := fs + [f], r + Added(f, |fs| + 1, tag);
    forall k | 0 <= k < |r'|
      ensures 1 <= r'[k].line <= |fs'| && fs'[r'[k].line - 1] == Some(SignatureOf(r'[k]))
    {
      if k < |r| {
        assert r'[k] == r[k];
      }
    }
  }

  lemma IncreasingSnoc(r: seq<Record>, fs: seq<Option<Signature>>, tag: string, f: Option<Signature>)
    requires Sound(r, fs, tag) && Increasing(r)
    ensures Increasing(r + Added(f, |fs| + 1, tag))
  {
  }

  lemma CompleteSnoc(r: seq<Record>, fs: seq<Option<Signature>>, tag: string, f: Option<Signature>)
    requires Complete(r, fs)
    ensures Complete(r + Added(f, |fs| + 1, tag), fs + [f])
  {
    var fs', r' := fs + [f], r + Added(f, |fs| + 1, tag);
    forall i | 0 <= i < |fs'| && fs'[i].Some? ensures exists k :: 0 <= k < |r'| && r'[k].line == i + 1 {
      if i < |fs| {
        var k :| 0 <= k < |r| && r[k].line == i + 1;
        assert r'[k] == r[k];
      } else {
        assert r'[|r|].line == i + 1;
      }
    }
  }

  predicate Collected(r: seq<Record>, fs: seq<Option<Signature>>, tag: string) {
    Sound(r, fs, tag) && Increasing(r) && Complete(r, fs)
  }

  lemma {:induction false} CollectFaithful(fs: seq<Option<Signature>>, tag: string)
    ensures Collected(Collect(fs, tag), fs, tag)
    decreases |fs|
  {
    if |fs| > 0 {
      var m := |fs| - 1;
      var r := Collect(fs[..m], tag);
      CollectFaithful(fs[..m], tag);
      SoundSnoc(r, fs[..m], tag, fs[m]);
      IncreasingSnoc(r, fs[..m], tag, fs[m]);
      CompleteSnoc(r, fs[..m], tag, fs[m]);
      assert fs[..m] + [fs[m]] == fs;
      assert Collect(fs, tag) == r + Added(fs[m], m + 1, tag);
    }
  }

  /** Line `i + 1` has a record exactly when its trimmed text holds a
      declaration, then exactly one, with that declaration and the language
      tag; records come in strictly increasing line order, so at most one
      per line, and lines without a declaration are passed over. */
  lemma LineRecords(l: Language, code: string, i: nat)
    requires i < |Split(code, '\n')|
    ensures var lines, r := Split(code, '\n'), Extract(l, code);
      && ((exists k :: 0 <= k < |r| && r[k].line == i + 1) <==> Found(l, Trim(lines[i])).Some?)
      && (forall k :: 0 <= k < |r| && r[k].line == i + 1 ==>
            Found(l, Trim(lines[i])) == Some(SignatureOf(r[k])) && r[k].language == Tag(l))
      && (forall a, b :: 0 <= a < b < |r| ==> r[a].line < r[b].line)
  {
    var lines := Split(code, '\n');
    var fs := Findings(l, lines);
    CollectFaithful(fs, Tag(l));
    CollectedLine(Collect(fs, Tag(l)), fs, Tag(l), i);
  }

  /** What `Collected` says about one line. */
  lemma CollectedLine(r: seq<Record>, fs: seq<Option<Signature>>, tag: string, i: nat)
    requires Collected(r, fs, tag) && i < |fs|
    ensures (exists k :: 0 <= k < |r| && r[k].line == i + 1) <==> fs[i].Some?
    ensures forall k :: 0 <= k < |r| && r[k].line == i + 1 ==>
              fs[i] == Some(SignatureOf(r[k])) && r[k].language == tag
  {
  }

  // ---------------------------------------------------------------------------
  // What each language's records hold

  /** A Motoko record: the return type trimmed, and a parameter without a
      colon typed `Text`. No enclosing actor is needed. */
  lemma MotokoFound(t: string)
    ensures var f := Found(Motoko, t);
      && (f.Some? <==> MotokoSignatureMatch(t).Some?)
      && (f.Some? ==> IsTrimmed(f.value.returnType))
      && (f.Some? ==> forall k :: 0 <= k < |f.value.params| ==> IsTrimmed(f.value.params[k].name))
  {
  }

  /** A Rust record needs `pub async fn` and `->` on the line: a function
      that is not async, or has no `->`, gives nothing. */
  lemma RustFound(t: string)
    ensures var f := Found(Rust, t);
      && (f.Some? ==> Contains(t, "pub async fn") && Contains(t, "->"))
      && (f.Some? ==> IsTrimmed(f.value.returnType))
  {
    match RustSignatureMatch(t)
    case Some((q, m)) =>
      assert OccursAt(t, "pub async fn", q);
      assert OccursAt(t, "->", m.rest.arrowAt);
    case None =>
  }

  /** A JavaScript record: return type `any`, and every parameter the whole
      trimmed piece, typed `any`. */
  lemma JavaScriptFound(t: string)
    ensures var f := Found(JavaScript, t);
      && (f.Some? <==> JavaScriptSignatureMatch(t).Some?)
      && (f.Some? ==> f.value.returnType == JavaScriptType)
      && (f.Some? ==> forall k :: 0 <= k < |f.value.params| ==>
            f.value.params[k].typ == JavaScriptType && IsTrimmed(f.value.params[k].name))
  {
  }

  // ---------------------------------------------------------------------------
  // generateTestArgs

  const TextArg := "Test Input"
  const NumberArg := "42"
  const BoolArg := "true"
  const PrincipalArg := "Principal"
  const OtherArg := "Test Value"

  /** The example value for a parameter type, looked up on the lower-cased
      type name. */
  function TestArg(typ: string): (a: string)
    ensures a == TextArg <==> Lower(typ) == "text" || Lower(typ) == "string"
    ensures a == NumberArg <==> Lower(typ) == "nat" || Lower(typ) == "int"
    ensures a == BoolArg <==> Lower(typ) == "bool"
    ensures a == PrincipalArg <==> Lower(typ) == "principal"
    ensures a == OtherArg <==> Lower(typ) !in {"text", "string", "nat", "int", "bool", "principal"}
  {
    var t := Lower(typ);
    if t == "text" || t == "string" then TextArg
    else if t == "nat" || t == "int" then NumberArg
    else if t == "bool" then BoolArg
    else if t == "principal" then PrincipalArg
    else OtherArg
  }

  /** `generateTestArgs(functionInfo)`: one example per parameter, in order. */
  function TestArgs(r: Record): (args: seq<string>)
    ensures |args| == |r.params|
    ensures forall k :: 0 <= k < |args| ==> args[k] == TestArg(r.params[k].typ)
  {
    seq(|r.params|, k requires 0 <= k < |r.params| => TestArg(r.params[k].typ))
  }

  /** The lookup ignores (ASCII) case. */
  lemma TestArgCaseInsensitive(typ: string)
    ensures TestArg(typ) == TestArg(Lower(typ))
  {
    LowerIdempotent(typ);
  }
}
