# ICPad core, modelled in Dafny

ICPad is an IDE for Internet Computer canisters. This project models the parts of it that are pure logic:

- **The Motoko "compiler" simulation of the frontend** (`motokoCompiler.js`). This covers:
  - the line scanner `analyzeMotokoCode`, with its brace counter, current-actor tracking and line diagnostics;
  - the parameter splitter `parseParameters`;
  - the WebAssembly payload builder, as size and module preamble;
  - the Candid service renderer;
  - the entry point `advancedCompilation`.
- **The function-signature extractor** (`functionParser.js`). This covers:
  - the dispatcher `parseFunctions`;
  - the Motoko, Rust and JavaScript line extractors and their parameter splitters;
  - the example-argument table `generateTestArgs`.
- **The marketplace canister** (`ICPad_marketplace/src/lib.rs`). Its template store is a `BTreeMap<String, Template>`, with create, get, list, search, categories, languages, rate, download, update, statistics and sample initialisation.
- **The user canister** (`ICPad_user/src/lib.rs`). Its registry is a `BTreeMap<Principal, User>`, with register, get and list.

## Layout

| file | module | what it holds |
|---|---|---|
| `wrappers.dfy` | `Wrappers`, `Bytes` | `Option`, a JavaScript value that may not be a string, bytes and their order |
| `text.dfy` | `Text` | JavaScript and Rust string operations: `trim`, `split`, `join`, `includes`, `lastIndexOf`, the `/x/g` match count, ASCII lower-casing and decimal rendering |
| `patterns.dfy` | `Patterns` | hand-written matchers for each regular expression the analysers use |
| `parameters.dfy` | `Parameters` | the parameter-list splitters and the Candid parameter rendering |
| `analyzer.dfy` | `Analyzer` | `analyzeMotokoCode` |
| `artifacts.dfy` | `Artifacts` | the WebAssembly payload and the Candid service text |
| `compiler.dfy` | `Compiler` | `advancedCompilation` |
| `function_parser.dfy` | `FunctionParser` | `parseFunctions`, the three extractors, `generateTestArgs` |
| `ordered.dfy` | `Ordered` | the key order of the two `BTreeMap`s and listing a map's values in key order |
| `marketplace.dfy` | `Marketplace` | the template store |
| `users.dfy` | `Users` | the user registry |

Each regular expression has three parts in `Patterns`:

- a declarative `...Shape` predicate, which is the language of the expression;
- an `...At` matcher, proved to return a shape whenever one exists, and the decomposition a backtracking engine prefers;
- a `...Match` function, which is `String.prototype.match`: the leftmost index at which the expression matches.

The canisters' clock (`ic_cdk::api::time()`) is a `time` parameter of every update. The random filler bytes of the payload come from a `noise` parameter.

## Model

| member | source | states |
|---|---|---|
| Text.Trim | src/ICPad_frontend/src/utils/motokoCompiler.js:80 | The trimmed line has no white space at either end, and it is empty exactly when the line is blank. |
| Text.TrimUnique | src/ICPad_frontend/src/utils/motokoCompiler.js:80 | Trimming removes exactly the blank padding around a trimmed middle. |
| Text.Split | src/ICPad_frontend/src/utils/motokoCompiler.js:74 | `split('\n')` gives at least one piece, and no piece contains the separator. |
| Text.JoinSplit | src/ICPad_frontend/src/utils/motokoCompiler.js:74 | Joining the pieces of a split with the separator gives the text back. |
| Text.SplitJoin | src/ICPad_frontend/src/utils/motokoCompiler.js:246 | Splitting a join of separator-free pieces gives the pieces back. |
| Text.Count | src/ICPad_frontend/src/utils/motokoCompiler.js:83-84 | The `(line.match(/\{/g) \|\| []).length` count is at most the length, and zero exactly when the character is absent. |
| Text.Contains | src/ICPad_frontend/src/utils/motokoCompiler.js:103 | `includes` holds exactly when the pattern occurs at some index. |
| Text.LastIndexOf | src/ICPad_frontend/src/utils/motokoCompiler.js:174 | The result is the position of the last colon, with no colon after it; it is -1 (`None`) exactly when there is no colon. |
| Text.Lower | src/ICPad_frontend/src/utils/functionParser.js:8 | Lower-casing keeps the length and lowers each ASCII letter in place. |
| Text.LowerIdempotent | src/ICPad_frontend/src/utils/functionParser.js:8 | Lower-casing twice is lower-casing once. |
| Text.NatToString | src/ICPad_marketplace/src/lib.rs:42 | `{}` renders a number as digits only, with no leading zero except for `0` itself. |
| Text.DecimalRoundTrip | src/ICPad_marketplace/src/lib.rs:42 | Reading the decimal rendering back gives the number. |
| Patterns.FirstMatch | src/ICPad_frontend/src/utils/motokoCompiler.js:91 | A non-global `match` gives the leftmost index where the expression matches, and nothing only when no index matches. |
| Patterns.ImportAt | src/ICPad_frontend/src/utils/motokoCompiler.js:91 | `import\s+(\w+)\s+"([^"]+)"` has at most one decomposition at an index, and the matcher returns exactly it. |
| Patterns.ImportMatch | src/ICPad_frontend/src/utils/motokoCompiler.js:91 | The import match is the leftmost index with a decomposition, with its groups; there is none exactly when no index has one. |
| Patterns.ActorAt | src/ICPad_frontend/src/utils/motokoCompiler.js:104 | `actor\s+(\w+)` captures the whole word after the white space: every decomposition starts there and ends no later. |
| Patterns.ActorMatch | src/ICPad_frontend/src/utils/motokoCompiler.js:104 | The actor match is leftmost, and its name is a maximal word: the character after it is not a word character. |
| Patterns.HeadAt | src/ICPad_frontend/src/utils/motokoCompiler.js:119 | The declaration head `kw\s+(\w+)\s*\(([^)]*)\)` has at most one decomposition, and the matcher returns it. |
| Patterns.MotokoReturnAt | src/ICPad_frontend/src/utils/motokoCompiler.js:119 | The tail `\s*:\s*async\s+([^;{]+)` is matched whenever it can match at all. |
| Patterns.MotokoReturnPreferred | src/ICPad_frontend/src/utils/motokoCompiler.js:119 | Against any other decomposition, the matched return type starts no later and, from the same start, ends no earlier: it is greedy. |
| Patterns.MotokoSignatureComplete | src/ICPad_frontend/src/utils/motokoCompiler.js:119 | The Motoko declaration matcher fails at an index only when no decomposition exists there. |
| Patterns.MotokoSignatureMatch | src/ICPad_frontend/src/utils/motokoCompiler.js:119 | The Motoko declaration match is the leftmost index with a decomposition, and none exists when it fails. |
| Patterns.RustReturnAt | src/ICPad_frontend/src/utils/functionParser.js:54 | The tail `\s*->\s*([^{]+)` is matched whenever it can match at all. |
| Patterns.RustReturnPreferred | src/ICPad_frontend/src/utils/functionParser.js:54 | The matched Rust return type is the greedy one among all decompositions. |
| Patterns.RustSignatureComplete | src/ICPad_frontend/src/utils/functionParser.js:54 | The Rust declaration matcher fails at an index only when no decomposition exists there. |
| Patterns.RustSignatureMatch | src/ICPad_frontend/src/utils/functionParser.js:54 | The Rust declaration match is leftmost, and none exists when it fails. |
| Patterns.JavaScriptSignatureMatch | src/ICPad_frontend/src/utils/functionParser.js:80 | `export function\s+(\w+)\s*\(([^)]*)\)` matches at the leftmost index with a decomposition, and none exists when it fails. |
| Patterns.VarAt | src/ICPad_frontend/src/utils/motokoCompiler.js:137 | `var\s+(\w+)\s*=\s*([^;]+);` is matched whenever it can match. All decompositions agree on the name, the `=` and the value's end, and the matcher's value starts no earlier than any other (greedy `\s*`). |
| Patterns.VarValueEnd | src/ICPad_frontend/src/utils/motokoCompiler.js:137 | The captured value ends at the first `;` after the `=`. |
| Patterns.VarMatch | src/ICPad_frontend/src/utils/motokoCompiler.js:137 | The variable match is leftmost, and none exists when it fails. |
| Parameters.ParamOf | src/ICPad_frontend/src/utils/motokoCompiler.js:172-184 | One piece gives a trimmed name. Without a colon it is `(trim(piece), default)`. With a colon the type is trimmed and colon-free. |
| Parameters.ParamOfSplitsAtLastColon | src/ICPad_frontend/src/utils/motokoCompiler.js:173-183 | A piece `a:b` whose `b` has no colon gives name `trim(a)` and type `trim(b)`, whatever colons `a` holds. |
| Parameters.ParseParameters | src/ICPad_frontend/src/utils/motokoCompiler.js:169-185 | A blank string gives `[]`. Otherwise there is one parameter per comma-separated piece (commas + 1), each with a trimmed, comma-free name. |
| Parameters.ParseParametersPiece | src/ICPad_frontend/src/utils/motokoCompiler.js:169-185 | The `k`-th parameter is the `k`-th piece split at its last colon. |
| Parameters.ParseParametersDefault | src/ICPad_frontend/src/utils/motokoCompiler.js:176-178 | A piece with no colon gives the trimmed piece and the default type (`Text` here, `String` for Rust). |
| Parameters.RenderedParams | src/ICPad_frontend/src/utils/motokoCompiler.js:241 | Each parameter is written as `name: type`, in order. |
| Parameters.ParseRenderParams | src/ICPad_frontend/src/utils/motokoCompiler.js:169-185 | Parsing a rendered list of readable parameters gives the parameters back, whatever the default type. |
| Parameters.ParseParametersNormal | src/ICPad_frontend/src/utils/motokoCompiler.js:169-185 | Parsing, rendering and parsing again gives the first parse. |
| Parameters.ParseJavaScriptParameters | src/ICPad_frontend/src/utils/functionParser.js:134-144 | A blank string gives `[]`. Otherwise there is one parameter per piece, whose name is the trimmed piece and whose type is `any`. |
| Parameters.ParseJoinedNames | src/ICPad_frontend/src/utils/functionParser.js:134-144 | Non-empty trimmed names joined with `, ` parse back to the same names, typed `any`. |
| Analyzer.ReadFaithful | src/ICPad_frontend/src/utils/motokoCompiler.js:79-145 | The reading of a line records the raw line's brace balance and the trimmed line's skip test, guards and matches. |
| Analyzer.ImportStep | src/ICPad_frontend/src/utils/motokoCompiler.js:90-100 | An `import ` line that matches appends its `{name, path}` to the imports. One that does not match adds exactly one import error instead. Nothing else changes. |
| Analyzer.ActorStep | src/ICPad_frontend/src/utils/motokoCompiler.js:103-115 | A line whose actor expression matches appends a new actor with that name, no functions and no variables, and it becomes `currentActor`. An `actor ` line without a name adds one actor error and leaves the actors alone. The imports never change. |
| Analyzer.AddFunction | src/ICPad_frontend/src/utils/motokoCompiler.js:124-129 | The function is appended to the current actor only; the other actors are unchanged. |
| Analyzer.AddVariable | src/ICPad_frontend/src/utils/motokoCompiler.js:139-143 | The variable is appended to the current actor's variables only. Its name and functions and the other actors are unchanged. |
| Analyzer.FunctionStep | src/ICPad_frontend/src/utils/motokoCompiler.js:118-133 | With an actor open, a matching `public func ` line appends `{name, params, returnType, line}` to the current actor only. It adds a function error exactly when the declaration does not match. Otherwise the actors and imports are unchanged. |
| Analyzer.VarStep | src/ICPad_frontend/src/utils/motokoCompiler.js:136-145 | With an actor open, a matching `var ` line appends `{name, value, line}` to the current actor's variables only. It never adds an error, and otherwise nothing changes. |
| Analyzer.Step | src/ICPad_frontend/src/utils/motokoCompiler.js:78-146 | The loop body adds the raw line's brace balance before the skip test, and keeps `currentActor` at the last actor. |
| Analyzer.ScanReadings | src/ICPad_frontend/src/utils/motokoCompiler.js:106-111 | After any number of lines, `currentActor` is null before the first actor and the last actor pushed afterwards. |
| Analyzer.ErrorMessage | src/ICPad_frontend/src/utils/motokoCompiler.js:98 | A line diagnostic is a non-empty text starting with `L` (`Line …`), so it never equals the brace message. |
| Analyzer.Warnings | src/ICPad_frontend/src/utils/motokoCompiler.js:153-158 | There are no warnings exactly when every actor has a function, and at most one warning per actor. |
| Analyzer.WarningsPerActor | src/ICPad_frontend/src/utils/motokoCompiler.js:153-158 | One more actor adds its own warning when it has no functions, and nothing else: warnings come in discovery order. |
| Analyzer.BraceLevelCounts | src/ICPad_frontend/src/utils/motokoCompiler.js:82-87 | The final brace counter is the number of `{` minus the number of `}` over all lines, blank and `//` lines included. |
| Analyzer.BraceTotal | src/ICPad_frontend/src/utils/motokoCompiler.js:75-84 | The final brace counter is the brace balance of the whole text. |
| Analyzer.UnmatchedBracesReported | src/ICPad_frontend/src/utils/motokoCompiler.js:148-151 | "Unmatched braces in code" appears once, as the last error, exactly when the text's `{` and `}` counts differ; otherwise it is absent. |
| Analyzer.StepErrors | src/ICPad_frontend/src/utils/motokoCompiler.js:87-133 | Each line adds exactly its own diagnostics, and none for a skipped line. |
| Analyzer.ErrorsSorted | src/ICPad_frontend/src/utils/motokoCompiler.js:87-133 | Errors are ordered by 1-based line, then import before actor before function within a line, and each names a line of the text. |
| Analyzer.ErrorsOfLine | src/ICPad_frontend/src/utils/motokoCompiler.js:78-146 | The errors naming a line are that line's own diagnostics, given whether an actor was open before it. |
| Analyzer.LineErrors | src/ICPad_frontend/src/utils/motokoCompiler.js:87-145 | These hold for each line. Import and actor errors occur exactly when the non-skipped trimmed line passes the guard but its expression does not match. A function error also needs an actor open before or on the line. |
| Analyzer.FunctionsPlaced | src/ICPad_frontend/src/utils/motokoCompiler.js:103-133 | Actors open on increasing lines. Each actor's functions lie between its own opening line and the next actor's, in increasing line order. |
| Analyzer.OpenedLines | src/ICPad_frontend/src/utils/motokoCompiler.js:103-115 | The lines on which actors open are exactly the non-skipped lines whose actor expression matches, in increasing order. |
| Analyzer.StepRecords | src/ICPad_frontend/src/utils/motokoCompiler.js:87-145 | One line appends its matched import, if any. If it opens an actor, that actor holds the line's own function and variable. Otherwise the last actor, if any, takes them, and with no actor they are dropped. |
| Analyzer.ScanRecords | src/ICPad_frontend/src/utils/motokoCompiler.js:87-145 | Over the whole text, the imports are all matched imports in line order. Actors open exactly on the matching lines. Each actor is named by its opening line's match and holds exactly the functions and variables, with their line numbers, declared from that line up to the next actor's. |
| Artifacts.WasmImage | src/ICPad_frontend/src/utils/motokoCompiler.js:187-202 | The payload is `1000 + 200·actors + 150·functions + 100·imports` bytes long. |
| Artifacts.WriteBlock | src/ICPad_frontend/src/utils/motokoCompiler.js:210-212 | One fill loop writes the next draws at the next positions and keeps the payload's length. |
| Artifacts.StructuredFits | src/ICPad_frontend/src/utils/motokoCompiler.js:205-222 | The structured part `8 + 20·actors + 50·functions` never passes the payload's length. |
| Artifacts.GenerateWasm | src/ICPad_frontend/src/utils/motokoCompiler.js:187-229 | The payload has the computed length and starts with `00 61 73 6d 01 00 00 00`. Every later byte is written once, with the draw of its own position. |
| Artifacts.FunctionLines | src/ICPad_frontend/src/utils/motokoCompiler.js:240-243 | An actor contributes one line `  name: (params) -> (ret)` per function, in order. |
| Artifacts.CandidLines | src/ICPad_frontend/src/utils/motokoCompiler.js:239-244 | There is one service line per function over all actors. |
| Artifacts.CandidLinesAt | src/ICPad_frontend/src/utils/motokoCompiler.js:238-244 | Function `j` of actor `k` is rendered `  name: (params) -> (ret)` at position (functions of actors before `k`) + `j`: the lines follow actor order, then function order. |
| Artifacts.Candid | src/ICPad_frontend/src/utils/motokoCompiler.js:232-247 | The text is exactly `service : {}` when there are no actors. |
| Artifacts.CandidByLine | src/ICPad_frontend/src/utils/motokoCompiler.js:232-247 | With at least one actor, the service text split into lines is the opening line, then the function lines (one empty line when there are none), then `}`. |
| Compiler.AdvancedCompilation | src/ICPad_frontend/src/utils/motokoCompiler.js:22-65 | A non-string gives failure with errors exactly `["Code must be a string"]`. Success holds exactly for a string whose analysis has no error, and then there are no errors and both artefacts exist. Failure has no artefacts. Warnings and errors pass through from the analysis. |
| Compiler.SuccessIffClean | src/ICPad_frontend/src/utils/motokoCompiler.js:38-49 | A string compiles exactly when its braces balance and no line has a diagnostic. Warnings play no part. |
| Compiler.SuccessArtifacts | src/ICPad_frontend/src/utils/motokoCompiler.js:51-64 | On success, the payload has the analysis-determined size and the module preamble, and the service text is rendered from the analysis. |
| FunctionParser.LanguageNamed | src/ICPad_frontend/src/utils/functionParser.js:8-17 | A language is recognised exactly when its lower-cased name is `motoko`, `rust` or `javascript`, and its tag is that name. |
| FunctionParser.ParseFunctions | src/ICPad_frontend/src/utils/functionParser.js:3-18 | Non-string or empty code, or an unknown language, gives `[]`. Non-empty string code in a supported language (any letter case) gives exactly that language's extractor's records. |
| FunctionParser.LanguageCaseInsensitive | src/ICPad_frontend/src/utils/functionParser.js:8 | The language name is matched regardless of case. |
| FunctionParser.CollectFaithful | src/ICPad_frontend/src/utils/functionParser.js:24-43 | The records are sound (each carries its line's declaration and tag), strictly increasing in line, and complete (every declaring line has one). |
| FunctionParser.LineRecords | src/ICPad_frontend/src/utils/functionParser.js:20-96 | A line has a record exactly when its trimmed text holds a declaration, and that record carries the declaration and the language tag. Lines strictly increase, so there is at most one record per line. |
| FunctionParser.MotokoFound | src/ICPad_frontend/src/utils/functionParser.js:20-44 | A Motoko record exists exactly when the expression matches, with no actor needed. The return type and parameter names are trimmed. |
| FunctionParser.RustFound | src/ICPad_frontend/src/utils/functionParser.js:46-70 | A Rust record needs `pub async fn` and `->` on the line. Its return type is trimmed. |
| FunctionParser.JavaScriptFound | src/ICPad_frontend/src/utils/functionParser.js:72-96 | A JavaScript record has return type `any`, and every parameter is a trimmed piece typed `any`. |
| FunctionParser.TestArg | src/ICPad_frontend/src/utils/functionParser.js:147-164 | Each example value is given exactly for its lower-cased type names: `Test Input` for text/string, `42` for nat/int, `true` for bool, `Principal` for principal, `Test Value` for anything else. |
| FunctionParser.TestArgs | src/ICPad_frontend/src/utils/functionParser.js:147-164 | There is one example per parameter, in order. |
| FunctionParser.TestArgCaseInsensitive | src/ICPad_frontend/src/utils/functionParser.js:149 | The type lookup ignores case. |
| Ordered.LexStrict | src/ICPad_marketplace/src/lib.rs:30 | Lexicographic order over a strict total element order is a strict total order. |
| Ordered.StringOrder | src/ICPad_marketplace/src/lib.rs:30 | The order of `String` keys is a strict total order. |
| Ordered.BytesOrder | src/ICPad_user/src/lib.rs:16 | The order of principal keys is a strict total order. |
| Ordered.SortedKeys | src/ICPad_marketplace/src/lib.rs:68 | The keys in iteration order: exactly the set's keys, strictly increasing. |
| Ordered.SortedKeysUnique | src/ICPad_marketplace/src/lib.rs:68 | Any strictly increasing enumeration of a key set is the iteration order. |
| Ordered.Values | src/ICPad_marketplace/src/lib.rs:68 | `values()` gives one value per key, the `i`-th under the `i`-th key, and exactly the map's values. |
| Marketplace.TemplateId | src/ICPad_marketplace/src/lib.rs:42 | The id is `tpl_` followed by decimal digits. |
| Marketplace.TemplateIdInjective | src/ICPad_marketplace/src/lib.rs:42 | Different times give different ids. |
| Marketplace.CreateTemplate | src/ICPad_marketplace/src/lib.rs:33-64 | The returned id is `tpl_<time>`. It holds the given fields, no downloads, no rating and both timestamps `time`. Every other template is unchanged and the store stays consistent. |
| Marketplace.GetTemplate | src/ICPad_marketplace/src/lib.rs:71-74 | The result is `Some` exactly for a stored id, holding that template. |
| Marketplace.SortedIds | src/ICPad_marketplace/src/lib.rs:68 | The ids are in ascending order: exactly the given ids, each once. |
| Marketplace.ListTemplates | src/ICPad_marketplace/src/lib.rs:66-69 | Every stored template is listed, one entry per id, in strictly ascending id order for a consistent store. |
| Marketplace.ListedAt | src/ICPad_marketplace/src/lib.rs:66-69 | The `i`-th listed template is the one under the `i`-th smallest id. |
| Marketplace.ListingUnique | src/ICPad_marketplace/src/lib.rs:66-69 | The listing is the only id-increasing sequence of the stored templates. |
| Marketplace.GetIsListed | src/ICPad_marketplace/src/lib.rs:66-74 | `get_template(id)` gives `t` exactly when `t` is listed with that id. |
| Marketplace.Select | src/ICPad_marketplace/src/lib.rs:80-104 | The filter keeps exactly the accepted templates of the listing, in their order. |
| Marketplace.SelectIncreasing | src/ICPad_marketplace/src/lib.rs:80-104 | Filtering keeps the id order. |
| Marketplace.SearchTemplates | src/ICPad_marketplace/src/lib.rs:76-106 | A template is found exactly when it is stored and matches both conditions. The query condition: the query is empty, or the lower-cased name, description or code contains it. The filter condition: every given filter holds. Results are in ascending id order. |
| Marketplace.EmptySearchListsAll | src/ICPad_marketplace/src/lib.rs:84 | An empty query without filters returns the whole listing. |
| Marketplace.Matching | src/ICPad_marketplace/src/lib.rs:82-101 | The part of the store that matches. |
| Marketplace.SearchIsListOfMatching | src/ICPad_marketplace/src/lib.rs:76-106 | A search result is the listing of the matching part of the store: an ordered sub-listing of `list_templates`. |
| Marketplace.Distinct | src/ICPad_marketplace/src/lib.rs:108-128 | The distinct values of a field over the stored templates: each value some template has, each once. |
| Marketplace.GetCategories | src/ICPad_marketplace/src/lib.rs:108-117 | The result holds exactly the stored templates' categories, without duplicates. |
| Marketplace.GetLanguages | src/ICPad_marketplace/src/lib.rs:119-128 | The result holds exactly the stored templates' languages, without duplicates. |
| Marketplace.Rated | src/ICPad_marketplace/src/lib.rs:140-144 | The first vote becomes the rating. A later one gives a rating between the old one and the vote. From a valid rating the result stays in 1..5. |
| Marketplace.RateTemplate | src/ICPad_marketplace/src/lib.rs:130-150 | The call succeeds exactly for a vote in 1..5 on a stored id. A refused call changes nothing. Otherwise the new rating is `Rated(old rating, vote)`, only that template's rating and update time change, and the store stays consistent. |
| Marketplace.RatingOutOfRangeRefused | src/ICPad_marketplace/src/lib.rs:131-134 | A vote outside 1..5 returns false with the store as it was. |
| Marketplace.DownloadTemplate | src/ICPad_marketplace/src/lib.rs:152-163 | A stored id gets one more download and update time `time`, and nothing else changes. An unknown id returns false and changes nothing. |
| Marketplace.UpdateTemplate | src/ICPad_marketplace/src/lib.rs:165-197 | Each given field is replaced and each missing one kept, with the update time set. Id, author, downloads, rating and creation time never change. An unknown id returns false and changes nothing. |
| Marketplace.UpdateIdempotent | src/ICPad_marketplace/src/lib.rs:165-197 | Applying the same patch twice is applying it once, at the later time. |
| Marketplace.AsU32 | src/ICPad_marketplace/src/lib.rs:203 | `as u32` keeps the low 32 bits: the value itself when it fits. |
| Marketplace.TemplateStats | src/ICPad_marketplace/src/lib.rs:199-211 | The count is the number of templates as a `u32` (`AsU32`: its low 32 bits, the number itself when it fits). The download total is the sum of the listed templates' downloads; it fits a `u32`, is 0 for an empty store and is at least each template's downloads. |
| Marketplace.DownloadSumInsert | src/ICPad_marketplace/src/lib.rs:204 | Storing a template under a new id adds exactly its downloads to the sum, so the total counts every stored template once. |
| Marketplace.CreateKeepsDownloads | src/ICPad_marketplace/src/lib.rs:33-64 | Creating a template under a new id adds one template and leaves the download total unchanged. |
| Marketplace.OneMoreDownload | src/ICPad_marketplace/src/lib.rs:204 | Two stores that differ by one download of one template have download totals that differ by one. |
| Marketplace.DownloadCounted | src/ICPad_marketplace/src/lib.rs:204 | A download raises the statistics' download total by exactly one, and it leaves the template count unchanged. |
| Marketplace.InitializeSampleTemplates | src/ICPad_marketplace/src/lib.rs:214-383 | The call returns true and stores or overwrites the three samples under their ids, with their fixed fields and time `time`. Every other template is unchanged and the store stays consistent. |
| Marketplace.InitializeIdempotent | src/ICPad_marketplace/src/lib.rs:375-380 | Initialising twice is initialising once, at the later time. |
| Marketplace.CreatedIsNotSample | src/ICPad_marketplace/src/lib.rs:42 | A created id is never a sample id, so creating never overwrites a sample. |
| Users.RegisterUser | src/ICPad_user/src/lib.rs:20-33 | The call always returns true. It stores the new record under the principal, replacing any earlier one, and every other user is unchanged. |
| Users.GetUser | src/ICPad_user/src/lib.rs:36-39 | The result is `Some` exactly for a registered principal, holding its record, whose id is that principal. |
| Users.RegisterOverwrites | src/ICPad_user/src/lib.rs:29-31 | Registering a principal again gives the same registry as registering only the second time. |
| Users.ListUsers | src/ICPad_user/src/lib.rs:42-45 | Every registered user is listed once, in strictly ascending principal order. |
| Users.ListGrows | src/ICPad_user/src/lib.rs:20-45 | Registering a new principal lists one more user, and re-registering keeps the count. |

## Left out

- Loading and logging: `loadCompiler`, its `compilerLoaded` flag and the `console.log` calls have no effect on the results and are not modelled. `compile` only awaits and forwards to `advancedCompilation`.
- Payload filler bytes: the random payload bytes (`Math.random`) are the `noise` parameter. Only their positions are stated, not their values.
- Regular-expression semantics:
  - `\w` is ASCII `[A-Za-z0-9_]`, as for an expression without the `u` flag.
  - `\s` and `trim` use the ECMAScript white-space and line-terminator set.
  - JavaScript strings are modelled as sequences of code points, not UTF-16 units.
- Text.Lower: lower-casing (`toLowerCase`, `to_lowercase`) is ASCII only. Other letters are left as they are, so case-insensitive matches outside ASCII are not modelled.
- FunctionParser.ParseFunctions: `language` is typed as a string. In the source, `language.toLowerCase()` throws a `TypeError` when the language is not a string (for example `undefined`); that failure is not modelled.
- Analyzer.FunctionsPlaced: states only where the recorded functions lie. That every matching declaration is recorded, with its line, is stated by Analyzer.ScanRecords.
- Patterns.MotokoSignatureMatch and Patterns.RustSignatureMatch: the preference of the backtracking engine is proved for each greedy return-type tail. It is not proved for a whole declaration against every alternative.
- Artifacts.CandidByLine: requires that names, types and return types hold no line break. The extractors cannot produce one, because they read single lines, but this is not proved.
- Ratings:
  - `rating` (an `f32`) is an exact real. Rounding, NaN and infinities are not modelled.
  - The average rating of `get_template_stats` is left out, as floating point.
  - `min_rating` compares reals.
- Marketplace.DownloadTemplate: the `u32` counter must be below its maximum (a precondition). The canister's `+= 1` would wrap or trap there.
- Marketplace.TemplateStats: the download total must fit a `u32` (a precondition). The source's `sum()` would wrap or trap otherwise. The count's `as u32` truncation is modelled.
- Marketplace.GetCategories and Marketplace.GetLanguages: these collect into a `HashSet`, whose iteration order is unspecified. The model lists the values in ascending order and states membership and distinctness, not the order.
- Time:
  - `ic_cdk::api::time()` is a parameter.
  - `create_template` reads the clock twice, for the id and for the timestamps. The model uses one value, as the clock does not move within one message.
- Marketplace.InitializeSampleTemplates: the samples' source code is a parameter.
- Principals: `Principal` is its raw bytes, ordered lexicographically; this is taken to be `Principal`'s `Ord`.
- Users.RegisterUser: `joined_at` is the `time` parameter.
- Not modelled:
  - `src/ICPad_backend/src/lib.rs` (HTTP outcalls, timers, unresolved merge markers);
  - `src/ICPad_frontend_rust/src/lib.rs` (serves a fixed file);
  - the RPC wrappers, the worker script and the React views.
