/** The two artefacts the compiler simulation derives from an analysis:
    the WebAssembly payload (`generateWasmFromAnalysis`) and the Candid
    service description (`generateCandidFromAnalysis`). */
module Artifacts {
  import opened Bytes
  import opened Text
  import opened Parameters
  import opened Analyzer

  // ---------------------------------------------------------------------------
  // The payload

  const BaseSize: nat := 1000
  const ActorSize: nat := 200
  const FunctionSize: nat := 150
  const ImportSize: nat := 100

  /** The bytes of structured data written for each actor and each function. */
  const ActorBlock: nat := 20
  const FunctionBlock: nat := 50

  /** The module preamble of section 5.5 of the WebAssembly Core
      Specification: the magic `\0asm`, then version 1 as a little-endian
      32-bit word. */
  const Preamble: seq<byte> := [0x00, 0x61, 0x73, 0x6d, 0x01, 0x00, 0x00, 0x00]

  /** The number of functions over all actors, summed left to right as the
      source's `reduce` does. */
  function FunctionCount(actors: seq<Actor>): nat {
    if |actors| == 0 then 0
    else FunctionCount(actors[..|actors| - 1]) + |actors[|actors| - 1].functions|
  }

  function WasmSize(a: Analysis): nat {
    BaseSize + ActorSize * |a.actors| + FunctionSize * FunctionCount(a.actors) + ImportSize * |a.imports|
  }

  /** Where the structured part ends: after the preamble, one block per
      actor and one per function. */
  function StructuredEnd(actors: seq<Actor>): nat {
    |Preamble| + ActorBlock * |actors| + FunctionBlock * FunctionCount(actors)
  }

  lemma {:induction false} FunctionCountPrefix(actors: seq<Actor>, i: nat)
    requires i <= |actors|
    ensures FunctionCount(actors[..i]) <= FunctionCount(actors)
    decreases |actors|
  {
    if i < |actors| {
      var m := |actors| - 1;
      FunctionCountPrefix(actors[..m], i);
      assert actors[..m][..i] == actors[..i];
    } else {
      assert actors[..i] == actors;
    }
  }

  /** The structured part fits: every byte written for an actor or a
      function lies inside the array, so none of those writes is dropped. */
  lemma StructuredFits(a: Analysis, i: nat)
    requires i <= |a.actors|
    ensures StructuredEnd(a.actors[..i]) <= StructuredEnd(a.actors) <= WasmSize(a)
  {
    FunctionCountPrefix(a.actors, i);
  }

  lemma StructuredNext(actors: seq<Actor>, i: nat)
    requires i < |actors|
    ensures StructuredEnd(actors[..i + 1])
         == StructuredEnd(actors[..i]) + ActorBlock + FunctionBlock * |actors[i].functions|
  {
    assert actors[..i + 1][..i] == actors[..i];
  }

  /** The payload in closed form: the preamble, then the draws in order. */
  function WasmImage(a: Analysis, noise: nat -> byte): (w: seq<byte>)
    ensures |w| == WasmSize(a)
  {
    Preamble + seq(WasmSize(a) - |Preamble|, k requires 0 <= k => noise(k))
  }

  /** Holds the preamble, then draw `k` at position `k + 8` up to `upto`. */
  predicate FilledTo(wasm: seq<byte>, upto: nat, noise: nat -> byte) {
    && |Preamble| <= upto <= |wasm|
    && wasm[..|Preamble|] == Preamble
    && forall k :: |Preamble| <= k < upto ==> wasm[k] == noise(k - |Preamble|)
  }

  /** One `for (let i = 0; i < size; i++) wasm[offset + i] = …` loop, taking
      draws `draws`, `draws + 1`, … */
  method WriteBlock(wasm: seq<byte>, offset: nat, size: nat, draws: nat, noise: nat -> byte)
    returns (w: seq<byte>, draws': nat)
    requires FilledTo(wasm, offset, noise) && offset + size <= |wasm| && draws + |Preamble| == offset
    ensures |w| == |wasm| && FilledTo(w, offset + size, noise) && draws' == draws + size
  {
    w, draws' := wasm, draws;
    for i := 0 to size
      invariant |w| == |wasm| && FilledTo(w, offset + i, noise) && draws' + |Preamble| == offset + i
    {
      w := w[offset + i := noise(draws')];
      draws' := draws' + 1;
    }
  }

  /** `generateWasmFromAnalysis`. `Math.random` is the parameter `noise`: the
      `k`-th draw is `noise(k)`. The array is filled front to back, so each
      byte after the preamble is written exactly once, by the draw of its
      own position, and no write falls outside the array. */
  method GenerateWasm(a: Analysis, noise: nat -> byte) returns (wasm: seq<byte>)
    ensures |wasm| == WasmSize(a)
    ensures wasm[..|Preamble|] == Preamble
    ensures forall k :: |Preamble| <= k < |wasm| ==> wasm[k] == noise(k - |Preamble|)
    ensures wasm == WasmImage(a, noise)
  {
    var total := WasmSize(a);
    wasm := Preamble + seq(total - |Preamble|, _ => 0);
    var offset: nat := |Preamble|;
    var draws: nat := 0;
    StructuredFits(a, 0);
    for ai := 0 to |a.actors|
      invariant |wasm| == total && FilledTo(wasm, offset, noise)
      invariant offset == StructuredEnd(a.actors[..ai]) && draws + |Preamble| == offset
    {
      var fs := a.actors[ai].functions;
      var next := StructuredEnd(a.actors[..ai + 1]);
      StructuredNext(a.actors, ai);
      StructuredFits(a, ai + 1);
      wasm, draws := WriteBlock(wasm, offset, ActorBlock, draws, noise);
      offset := offset + ActorBlock;
      for fi := 0 to |fs|
        invariant |wasm| == total && FilledTo(wasm, offset, noise) && draws + |Preamble| == offset
        invariant offset + FunctionBlock * (|fs| - fi) == next
      {
        wasm, draws := WriteBlock(wasm, offset, FunctionBlock, draws, noise);
        offset := offset + FunctionBlock;
      }
    }
    assert a.actors[..|a.actors|] == a.actors;
    wasm, draws := WriteBlock(wasm, offset, total - offset, draws, noise);
    assert forall k :: 0 <= k < total ==> wasm[k] == WasmImage(a, noise)[k];
  }

  // ---------------------------------------------------------------------------
  // The Candid service description

  const EmptyService := "service : {}"
  const ServiceOpen := "service : {"
  const ServiceClose := "}"

  /** `  ${func.name}: (${params}) -> (${func.returnType})`. */
  function CandidLine(f: Function): string {
    "  " + f.name + ": (" + RenderParams(f.params) + ") -> (" + f.returnType + ")"
  }

  function FunctionLines(fs: seq<Function>): (r: seq<string>)
    ensures |r| == |fs|
    ensures forall j :: 0 <= j < |fs| ==> r[j] == CandidLine(fs[j])
  {
    seq(|fs|, j requires 0 <= j < |fs| => CandidLine(fs[j]))
  }

  /** One line per function, in actor order and then function order. */
  function CandidLines(actors: seq<Actor>): (r: seq<string>)
    ensures |r| == FunctionCount(actors)
  {
    if |actors| == 0 then []
    else CandidLines(actors[..|actors| - 1]) + FunctionLines(actors[|actors| - 1].functions)
  }

  /** The service line of function `j` of actor `k` comes after the lines
      of the earlier actors' functions and the actor's own earlier ones:
      actor order, then function order. */
  lemma {:induction false} CandidLinesAt(actors: seq<Actor>, k: nat, j: nat)
    requires k < |actors| && j < |actors[k].functions|
    ensures FunctionCount(actors[..k]) + j < |CandidLines(actors)|
    ensures CandidLines(actors)[FunctionCount(actors[..k]) + j] == CandidLine(actors[k].functions[j])
    decreases |actors|
  {
    var m := |actors| - 1;
    if k < m {
      assert actors[..m][..k] == actors[..k];
      CandidLinesAt(actors[..m], k, j);
    } else {
      assert actors[..m] == actors[..k];
    }
  }

  /** `generateCandidFromAnalysis`. */
  function Candid(a: Analysis): (c: string)
    ensures |a.actors| == 0 <==> c == EmptyService
  {
    if |a.actors| == 0 then EmptyService
    else ServiceOpen + "\n" + Join(CandidLines(a.actors), "\n") + "\n" + ServiceClose
  }

  /** A function whose name, return type and parameters hold no line break. */
  predicate OneLine(f: Function) {
    && '\n' !in f.name && '\n' !in f.returnType
    && forall p :: p in f.params ==> '\n' !in p.name && '\n' !in p.typ
  }

  predicate AllOneLine(actors: seq<Actor>) {
    forall k, j :: 0 <= k < |actors| && 0 <= j < |actors[k].functions| ==> OneLine(actors[k].functions[j])
  }

  lemma CandidLineIsOneLine(f: Function)
    requires OneLine(f)
    ensures '\n' !in CandidLine(f)
  {
    var rs := RenderedParams(f.params);
    forall k | 0 <= k < |rs| ensures '\n' !in rs[k] {
      assert f.params[k] in f.params;
    }
    JoinWithout(rs, ", ", '\n');
  }

  lemma {:induction false} CandidLinesAreOneLine(actors: seq<Actor>)
    requires AllOneLine(actors)
    ensures forall k :: 0 <= k < |CandidLines(actors)| ==> '\n' !in CandidLines(actors)[k]
    decreases |actors|
  {
    if |actors| > 0 {
      var m := |actors| - 1;
      assert AllOneLine(actors[..m]);
      CandidLinesAreOneLine(actors[..m]);
      var fs := actors[m].functions;
      forall j | 0 <= j < |fs| ensures '\n' !in CandidLine(fs[j]) {
        CandidLineIsOneLine(fs[j]);
      }
    }
  }

  /** Read line by line, the service description is the opening line, one
      line per function (an empty line when there are none), and the closing
      brace. */
  lemma CandidByLine(a: Analysis)
    requires |a.actors| > 0 && AllOneLine(a.actors)
    ensures var lines := CandidLines(a.actors);
      Split(Candid(a), '\n') == [ServiceOpen] + (if lines == [] then [""] else lines) + [ServiceClose]
  {
    var lines := CandidLines(a.actors);
    var body := if lines == [] then [""] else lines;
    var parts := [ServiceOpen] + body + [ServiceClose];
    assert Join(body, "\n") == Join(lines, "\n");
    JoinSnoc(body, "\n", ServiceClose);
    assert ([ServiceOpen] + body + [ServiceClose])[1..] == body + [ServiceClose];
    assert Join(parts, "\n") == Candid(a);
    CandidLinesAreOneLine(a.actors);
    assert '\n' !in ServiceOpen && '\n' !in ServiceClose;
    SplitJoin(parts, '\n');
  }
}
