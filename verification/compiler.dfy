/** `advancedCompilation`: the compiler simulation's entry point, which
    analyses the text and, when the analysis reports no error, derives the
    payload and the service description from it. */
module Compiler {
  import opened Wrappers
  import opened Bytes
  import opened Text
  import opened Analyzer
  import opened Artifacts

  /** `{ success, output, errors, warnings, wasm, candid }`; `null` is `None`. */
  datatype Compiled = Compiled(
    success: bool,
    output: string,
    errors: seq<string>,
    warnings: seq<string>,
    wasm: Option<seq<byte>>,
    candid: Option<string>)

  const InvalidOutput := "Invalid code: expected string"
  const NotAString := "Code must be a string"
  const FailedOutput := "Compilation failed with errors"
  const SucceededOutput := "Motoko compilation successful! (Advanced simulation with real parsing)"

  /** `advancedCompilation(code)`; `noise` stands for `Math.random`. */
  function AdvancedCompilation(code: Value, noise: nat -> byte): (r: Compiled)
    ensures code.NonString? ==> !r.success && r.errors == [NotAString] && r.warnings == []
    ensures r.success <==> code.Str? && Analyze(code.text).errors == []
    ensures r.success ==> r.errors == [] && r.wasm.Some? && r.candid.Some?
    ensures !r.success ==> r.wasm.None? && r.candid.None? && r.errors != []
    ensures code.Str? ==> r.warnings == Analyze(code.text).warnings
    ensures code.Str? && !r.success ==> r.errors == Analyze(code.text).errors
  {
    match code
    case NonString => Compiled(false, InvalidOutput, [NotAString], [], None, None)
    case Str(text) =>
      var a := Analyze(text);
      if |a.errors| > 0 then Compiled(false, FailedOutput, a.errors, a.warnings, None, None)
      else Compiled(true, SucceededOutput, [], a.warnings, Some(WasmImage(a, noise)), Some(Candid(a)))
  }

  /** A string compiles exactly when its braces balance and no line has a
      diagnostic; warnings play no part. */
  lemma SuccessIffClean(code: string, noise: nat -> byte)
    ensures AdvancedCompilation(Str(code), noise).success
        <==> Count(code, '{') == Count(code, '}') && ScanLines(Split(code, '\n')).errors == []
  {
    BraceTotal(code);
    AnalyzeErrors(code);
  }

  /** On success the payload has the size the analysis dictates and opens
      with the module preamble, and the service description is the one
      rendered from the analysis. */
  lemma SuccessArtifacts(code: string, noise: nat -> byte)
    requires AdvancedCompilation(Str(code), noise).success
    ensures var r, a := AdvancedCompilation(Str(code), noise), Analyze(code);
      && |r.wasm.value| == BaseSize + ActorSize * |a.actors| + FunctionSize * FunctionCount(a.actors) + ImportSize * |a.imports|
      && r.wasm.value[..|Preamble|] == Preamble
      && r.candid.value == Candid(a)
  {
  }
}
