# gen-html: a verified model of the `html!` template compiler

gen-html builds HTML from a `maud`-like template syntax. A procedural macro,
`html!`, turns a template into a render function. This project models the
macro's pipeline and the small value types of the builder crate.

- **Parser.** A token tree is parsed into a template of nodes: elements,
  blocks, expressions, `if`, `match` and `for`.
- **Validation.** Each element is checked against a table of tags. Its
  attributes are normalised and grouped by key, and each key used more than
  once is reported.
- **Generator.** The generator walks the tree and collects the parts of the
  function body. Literal text joins the static part before it. Expressions,
  compile errors and control flow become dynamic statements.
- **Escaping.** Two HTML escapers are modelled: the one the macro runs on
  string literals, and the one the runtime runs on rendered values.
- **Builder crate values.** The `rel` value lists, the `id` and `class`
  checks and the class list, and the sorted attribute map of the document
  head.

The model follows the source's own form:

- The parser threads (result, rest) over a token sequence. The top-level loop
  over nodes is a method.
- The generator is a class. Its `parts` field is a sequence the `push_*`
  methods update.
- The escapers are loops into a buffer or into a `Formatter` sink.
- `Attrs` is a class over a key-sorted sequence of entries.

Each method is proved against a specification function. The properties are
proved about those functions:

- **Round trips.** Printing any well-formed tree and parsing it back gives
  the same tree. Escaping is undone by unescaping. Every diagnostic message
  parses back to its kind. Every `rel` list splits back into its values.
- **Generator correctness.** Compiling a valid template and running the
  generated statements against any host writes the HTML the template
  denotes. A `Host` gives the value of an expression, the outcome of a
  condition, pattern binding and loop items. A condition either fails or
  gives the environment its branch runs in, which for `if let` holds the
  names the pattern binds.
- **Compile errors.** The generated code contains no compile error exactly
  when the template is valid.
- **Static folding.** Literal-only markup compiles to one write.
- **Documentation examples.** The examples in the crate's documentation
  produce the HTML they claim.

`gen-html-proc/src/error.rs` defines `Error` as a single span and kind. But
`ast.rs` and `generate.rs` call an aggregate API on it: `Error::empty`,
`push`, `is_empty` and `AttributeSpecifiedMoreThenOnce`. The model therefore
takes the message texts from `error.rs`, and models the aggregate those
callers use as a sequence of diagnostics that only grows.

## Model

| member | source | states |
|---|---|---|
| Escaping.EscapeAllFour | gen-html-proc/src/escape.rs:6-9 | `&`, `<`, `>` and `"` become `&amp;`, `&lt;`, `&gt;` and `&quot;` |
| Escaping.EscapeSafe | gen-html-proc/src/escape.rs:10 | a string with none of the four special characters is returned unchanged |
| Escaping.EscapeConcat | gen-html-proc/src/escape.rs:4-12 | escaping works character by character: escape(a + b) = escape(a) + escape(b) |
| Escaping.EscapeSnoc | gen-html-proc/src/escape.rs:4-12 | escaping one more character appends that character's replacement |
| Escaping.EscapeAt | gen-html-proc/src/escape.rs:4-12 | the escape of the character at i sits between the escapes of the prefix and the suffix, so the input order is kept |
| Escaping.EscapeNoMarkup | gen-html-proc/src/escape.rs:6-10 | the output never contains `<`, `>` or `"` |
| Escaping.EscapeLength | gen-html-proc/src/escape.rs:6-10 | the output is at least as long as the input, with equality exactly when no character is special |
| Escaping.UnescapeStep | gen-html-proc/src/escape.rs:6-10 | each replacement is decoded back to its one character |
| Escaping.UnescapeEscape | gen-html-proc/src/escape.rs:4-12 | unescaping undoes escaping for every string |
| Escaping.EscapeInjective | gen-html-proc/src/escape.rs:4-12 | different strings escape differently |
| Escaping.EscapeBracketed | gen-html/src/render.rs:56-57 | `<` + plain text + `>` renders as `&lt;` + text + `&gt;` |
| ProcEscape.EscapeHtml | gen-html-proc/src/escape.rs:1-15 | the buffer the loop builds is the escape of the input |
| RuntimeEscape.Escape | gen-html/src/escape.rs:4-18 | the sink gets the escape of the input appended, and earlier content is kept |
| RuntimeEscape.WriteEscapedChar | gen-html/src/escape.rs:8-14 | one character appends its entity when it is one of `&<>"`, and itself otherwise |
| RuntimeEscape.Escaped.Fmt | gen-html/src/escape.rs:37-41 | Display of `Escaped` appends the escape of the shown text |
| RuntimeEscape.Escaped.RenderTo | gen-html/src/escape.rs:43-47 | Render of `Escaped` appends the same text as Display |
| RuntimeEscape.Escaped.ToString | gen-html/src/escape.rs:37-41 | `to_string` is the escape of the shown text |
| RuntimeEscape.EscapedDocExample | gen-html/src/escape.rs:32 | `Escaped("&<>\"")` displays as `&amp;&lt;&gt;&quot;` |
| RuntimeEscape.EscapersAgree | gen-html/src/escape.rs:4-18 | the compile-time escaper and the run-time escaper produce the same text for every input, and unescaping it gives the input back |
| Fmt.Formatter.WriteStr | gen-html/src/escape.rs:9-12 | writing a string appends it to the sink |
| Fmt.Formatter.WriteChar | gen-html/src/escape.rs:13 | writing a character appends it to the sink |
| Tokens.TakeUntil | gen-html-proc/src/parse.rs:110 | an opaque host expression is the longest run before its stop token; the run and the rest concatenate back to the input |
| Tokens.TakeUntilExact | gen-html-proc/src/parse.rs:110 | a run without stop tokens, followed by a stop or by nothing, is split off exactly |
| Diagnostics.InvalidTagRoundTrip | gen-html-proc/src/error.rs:37 | "\`t\` is not a valid HTML tag" parses back to `InvalidTag(t)` |
| Diagnostics.SelfClosingRoundTrip | gen-html-proc/src/error.rs:38 | "\`t\` must be used like a self closing tag" parses back to `SelfClosing(t)` |
| Diagnostics.NotSelfClosingRoundTrip | gen-html-proc/src/error.rs:39-41 | "\`t\` cannot be used like a self closing tag" parses back to `NotSelfClosing(t)` |
| Diagnostics.InvalidAttributeRoundTrip | gen-html-proc/src/error.rs:42 | "\`n\` is not a valid attribute" parses back to `InvalidAttributeName(n)` |
| Diagnostics.MessageRoundTrip | gen-html-proc/src/error.rs:34-45 | every kind's message parses back to the kind |
| Diagnostics.MessageInjective | gen-html-proc/src/error.rs:34-45 | different kinds have different messages |
| Diagnostics.ToTokens | gen-html-proc/src/error.rs:16-25 | one `compile_error!` at the error's span, carrying a message that parses back to the kind |
| Diagnostics.Error.Push | gen-html-proc/src/ast.rs:60 | pushing keeps the diagnostics held so far and appends the new ones after them |
| Diagnostics.Empty | gen-html-proc/src/ast.rs:46 | the empty aggregate is empty |
| Diagnostics.Single | gen-html-proc/src/ast.rs:38-41 | an aggregate of one diagnostic is non-empty and holds it |
| Diagnostics.PushKeeps | gen-html-proc/src/ast.rs:60-63 | pushing never loses a diagnostic; the result is empty exactly when both parts are |
| Ast.EndsWithEagerBrace | gen-html-proc/src/ast.rs:21-26 | false exactly for an expression node, true for every other kind |
| Ast.Validate | gen-html-proc/src/ast.rs:36-43 | Ok exactly when the tag is known and its self-closing flag matches the absence of a body; otherwise the error is `InvalidTag`, `SelfClosing` or `NotSelfClosing` as the table says, located at the name |
| Ast.KeyOf | gen-html-proc/src/ast.rs:82-91 | `@` gives `id` and `.` gives `class`, each at the span of its value expression; a named key gives its normalised name at the key's span |
| Ast.TrimRawRemovesPairs | gen-html-proc/src/ast.rs:87 | trimming removes only whole leading `r#` pairs: the input is an even-length run of `r#` followed by the result |
| Ast.NormalizedShape | gen-html-proc/src/ast.rs:88 | a normalised key has no `_` and no leading `r#` |
| Ast.NormalizeIdempotent | gen-html-proc/src/ast.rs:88 | normalising a normalised key changes nothing |
| Ast.ValueOf | gen-html-proc/src/ast.rs:93-99 | `@` and `.` always have a value; a named key has its optional value as written |
| Ast.SpansOfNonEmpty | gen-html-proc/src/ast.rs:48-54 | a key has spans exactly when some attribute has that key |
| Ast.SpansOfTwo | gen-html-proc/src/ast.rs:48-58 | a key has more than one span exactly when it occurs twice among the keys |
| Ast.DuplicateDiagnosticsMembers | gen-html-proc/src/ast.rs:56-61 | each report is a repeated key with all its spans in attribute order, and every repeated key is reported |
| Ast.DuplicateDiagnosticsDistinct | gen-html-proc/src/ast.rs:56-61 | no key is reported twice |
| Ast.AttributesOkIff | gen-html-proc/src/ast.rs:48-65 | the attributes are accepted exactly when all normalised keys are distinct |
| Ast.AttributesOk | gen-html-proc/src/ast.rs:67-71 | when accepted, the result has one (key, value) pair per attribute, in attribute order |
| Ast.AttributesErr | gen-html-proc/src/ast.rs:48-65 | when rejected, each repeated key contributes exactly one report carrying all its spans |
| Ast.Attributes | gen-html-proc/src/ast.rs:45-72 | the method equals the specification of the attribute list |
| Ast.GroupSpans | gen-html-proc/src/ast.rs:48-54 | the grouping loop maps each key to its spans in attribute order, and keys come in first-occurrence order |
| Ast.ReportRepeated | gen-html-proc/src/ast.rs:56-61 | the reporting loop pushes one report per key seen more than once |
| Text.DedupElements | src/attribute/rel.rs:240-254 | dropping repeats keeps exactly the values of the input |
| Text.DedupNoDup | src/attribute/rel.rs:246-248 | the result has no repeats |
| Text.DedupOfNoDup | src/attribute/rel.rs:240-254 | a sequence without repeats is left as it is |
| Text.DedupFirstOccurrenceOrder | src/attribute/rel.rs:240-254 | kept values come in the order of their first occurrences |
| Text.SplitJoin | src/attribute/rel.rs:75-81 | splitting a comma-joined list gives the pieces back when no piece has a comma |
| Parse.HostExpr | gen-html-proc/src/parse.rs:28-31 | a parenthesised expression is a literal exactly when it is one string literal |
| Parse.ParseExprUntil | gen-html-proc/src/parse.rs:110 | parsing an expression succeeds exactly when the run before its stop token is non-empty |
| Parse.ParsePat | gen-html-proc/src/parse.rs:149 | a pattern is a non-empty run that concatenates with the rest back to the input |
| Parse.ParseAttributeValue | gen-html-proc/src/parse.rs:183-196 | a value starts with a string literal or a parenthesised group |
| Parse.ParseAttribute | gen-html-proc/src/parse.rs:71-90 | `@` and `.` need a value; a name needs one only after `:`; anything else fails |
| Parse.ParseAttributes | gen-html-proc/src/parse.rs:50-52 | attributes are read until the next token cannot start one |
| Parse.ElementSyntax | gen-html-proc/src/parse.rs:45-69 | an element starts with a name; after its attributes it needs `;` (no body) or braces (a body), and anything else fails with `expected curly braces or SEMICOLON` |
| Parse.BlockSyntax | gen-html-proc/src/parse.rs:92-105 | a block is exactly one braced group; anything else fails with `expected curly braces` |
| Parse.IfSyntax | gen-html-proc/src/parse.rs:107-111 | an `if` needs the keyword, then a non-empty condition, then a braced block |
| Parse.MatchSyntax | gen-html-proc/src/parse.rs:131-145 | a `match` needs the keyword and a scrutinee followed by one braced group of arms, which it consumes; anything else fails with `expected curly braces` |
| Parse.ForSyntax | gen-html-proc/src/parse.rs:171-181 | a `for` needs the keyword, a pattern, then `in` (otherwise it fails, naming `in`), then a non-empty expression and a braced body |
| Parse.ParseArmComma | gen-html-proc/src/parse.rs:161-165 | the comma after an arm is required exactly when the body does not end with a brace and input remains |
| Parse.ParseTemplate | gen-html-proc/src/parse.rs:8-18 | the loop parses node after node until the input is empty; it succeeds exactly when the node list parses, and any node error aborts with that error |
| Unparse.BareRoundTrip | gen-html-proc/src/parse.rs:110 | a printed expression followed by its stop token parses back |
| Unparse.PatRoundTrip | gen-html-proc/src/parse.rs:149 | a printed pattern parses back |
| Unparse.ValueRoundTrip | gen-html-proc/src/parse.rs:183-196 | a printed attribute value parses back |
| Unparse.AttributeRoundTrip | gen-html-proc/src/parse.rs:71-90 | a printed attribute parses back |
| Unparse.AttributesRoundTrip | gen-html-proc/src/parse.rs:50-52 | a printed attribute list parses back |
| Unparse.NodesRoundTrip | gen-html-proc/src/parse.rs:12-16 | a printed well-formed node list parses back |
| Unparse.NodeRoundTrip | gen-html-proc/src/parse.rs:20-43 | the node dispatch recovers every kind of node |
| Unparse.ElementRoundTrip | gen-html-proc/src/parse.rs:45-69 | an element with `;` or a braced body parses back |
| Unparse.BlockRoundTrip | gen-html-proc/src/parse.rs:92-105 | a braced block parses back |
| Unparse.IfRoundTrip | gen-html-proc/src/parse.rs:107-129 | an `if` parses back, with any else branch that is well formed in the parser's mode, including `else if` chains in the corrected mode |
| Unparse.ElseRoundTrip | gen-html-proc/src/parse.rs:112-121 | no `else` gives no branch, and a printed else branch parses back |
| Unparse.ElseBlockRoundTrip | gen-html-proc/src/parse.rs:116-117 | `else {..}` gives a block branch in both modes |
| Unparse.ElseIfRoundTrip | gen-html-proc/src/parse.rs:113-115 | in the corrected mode `else if ..` gives an if branch |
| Unparse.ElseIfBranchAsWritten | gen-html-proc/src/parse.rs:112-115 | as written, `else if ..` fails with "expected `else`" |
| Unparse.ElseIfRejectedAsWritten | gen-html-proc/src/parse.rs:112-115 | as written, every `if` with an `else if` branch fails to parse |
| Unparse.MatchRoundTrip | gen-html-proc/src/parse.rs:131-145 | a `match` parses back |
| Unparse.ArmsRoundTrip | gen-html-proc/src/parse.rs:139-141 | the arms inside the braces parse back in order |
| Unparse.ArmRoundTrip | gen-html-proc/src/parse.rs:147-169 | an arm with its pattern, guard, body and comma parses back |
| Unparse.GuardRoundTrip | gen-html-proc/src/parse.rs:151-155 | a guard is present exactly after `if` |
| Unparse.ForRoundTrip | gen-html-proc/src/parse.rs:171-181 | `for pat in expr {..}` parses back |
| Unparse.ModesAgree | gen-html-proc/src/parse.rs:112-121 | on trees without `else if`, the code as written and the corrected parser both give the tree back |
| Generate.PushCoalesced | gen-html-proc/src/generate.rs:224-230 | a push keeps adjacent static parts apart, changes no part but the last, and adds at most one part |
| Generate.ApplyCoalesced | gen-html-proc/src/generate.rs:224-230 | no sequence of pushes ever leaves two static parts side by side |
| Generate.FinishPartsAt | gen-html-proc/src/generate.rs:207-216 | the i-th statement comes from the i-th part |
| Generate.FinishPartsConcat | gen-html-proc/src/generate.rs:207-216 | finishing works part by part, in order |
| Generate.Generator.constructor | gen-html-proc/src/generate.rs:196-201 | a new generator has no parts |
| Generate.Generator.PushStr | gen-html-proc/src/generate.rs:224-230 | text joins the last part when it is static, and otherwise starts a new static part |
| Generate.Generator.PushStmt | gen-html-proc/src/generate.rs:245-247 | one dynamic part is appended and earlier parts are unchanged |
| Generate.Generator.PushError | gen-html-proc/src/generate.rs:249-251 | one dynamic compile-error part is appended and earlier parts are unchanged |
| Generate.Generator.PushRenderedExpr | gen-html-proc/src/generate.rs:232-243 | a string literal pushes its escaped text; any other expression appends one render statement |
| Generate.Generator.Finish | gen-html-proc/src/generate.rs:203-222 | one statement per part, in order: a static part becomes a write and a dynamic part passes through |
| Generate.GenerateNodes | gen-html-proc/src/generate.rs:37-41 | the nodes push their events in order |
| Generate.GenerateNode | gen-html-proc/src/generate.rs:43-54 | each node kind pushes its own events |
| Generate.GenerateOpenTag | gen-html-proc/src/generate.rs:58-63 | a validation error is pushed before `<` and the name |
| Generate.GenerateAttribute | gen-html-proc/src/generate.rs:67-76 | an attribute pushes ` key`, then `="value"` only when it has a value |
| Generate.GenerateAttributes | gen-html-proc/src/generate.rs:65-79 | accepted attributes push their text in order; duplicates push one error and no attribute text |
| Generate.GenerateBody | gen-html-proc/src/generate.rs:83-88 | a body pushes its nodes and then `</name>` |
| Generate.GenerateElement | gen-html-proc/src/generate.rs:56-90 | an element pushes its open tag, attributes, `>`, and its body with the close tag only when it has one |
| Generate.GenerateIf | gen-html-proc/src/generate.rs:104-133 | an `if` appends one statement whose branches come from fresh generators |
| Generate.GenerateMatch | gen-html-proc/src/generate.rs:135-167 | a `match` appends one statement with one arm per arm, in order |
| Generate.GenerateFor | gen-html-proc/src/generate.rs:169-188 | a `for` appends one loop statement whose body comes from a fresh generator |
| Generate.FinishNodes | gen-html-proc/src/generate.rs:30-34 | a fresh generator, the nodes' pushes, then finish |
| Generate.FinishNode | gen-html-proc/src/generate.rs:30-34 | the same for one node, as an arm body needs |
| Generate.FinishTemplate | gen-html-proc/src/generate.rs:37-41 | the template compiles as its node list |
| Generate.CompileArms | gen-html-proc/src/generate.rs:143-161 | one generated arm per template arm |
| Semantics.CompileArmsAt | gen-html-proc/src/generate.rs:143-161 | the k-th generated arm compiles the k-th arm |
| Semantics.RenderValue | gen-html/src/render.rs:67-71 | text renders escaped, so it unescapes back and holds no markup; `Raw` renders unchanged |
| Semantics.ExecPush | gen-html-proc/src/generate.rs:224-230 | coalescing a push changes nothing in what the finished code writes: it adds what the push writes |
| Semantics.ExecApply | gen-html-proc/src/generate.rs:203-230 | running the finished parts writes what the pushes write, in order |
| Semantics.CompiledOut | gen-html-proc/src/generate.rs:30-34 | a fresh generator's finished code writes exactly what its pushes write |
| Semantics.RenderedExprOut | gen-html-proc/src/generate.rs:232-243 | folding a literal's escape at compile time writes what rendering the literal would |
| Semantics.AttrsOut | gen-html-proc/src/generate.rs:67-76 | the attribute pushes write the rendered attributes |
| Semantics.CompileNodesCorrect | gen-html-proc/src/generate.rs:37-41 | the code compiled from valid nodes writes the HTML the nodes denote, for every host and environment |
| Semantics.CompileNodeCorrect | gen-html-proc/src/generate.rs:43-54 | the same for one node |
| Semantics.NodesOut | gen-html-proc/src/generate.rs:37-41 | the pushes of valid nodes write the HTML they denote |
| Semantics.NodeOut | gen-html-proc/src/generate.rs:43-54 | the same for one node of each kind |
| Semantics.IfOut | gen-html-proc/src/generate.rs:104-133 | the generated `if` runs the then-branch's code in the environment the condition gives, which holds the bindings of an `if let`, and otherwise the else-branch's code in the original environment |
| Semantics.ElementOut | gen-html-proc/src/generate.rs:56-90 | the pushes of a valid element write its tags, attributes and body |
| Semantics.HeadOut | gen-html-proc/src/generate.rs:58-81 | the open tag of a valid element writes `<name`, its attributes and `>` |
| Semantics.BodyOut | gen-html-proc/src/generate.rs:83-88 | a body writes its nodes and then `</name>` |
| Semantics.ArmsOut | gen-html-proc/src/generate.rs:135-167 | the generated `match` runs the first arm that binds and whose guard holds |
| Semantics.ArmOut | gen-html-proc/src/generate.rs:146-160 | one generated arm keeps its pattern and guard, and runs its body's code |
| Semantics.EachOut | gen-html-proc/src/generate.rs:169-188 | the generated loop writes the body once per item, in order |
| CompileErrors.ErrorsPush | gen-html-proc/src/generate.rs:224-230 | coalescing keeps the compile errors of the finished code: a push adds only its own |
| CompileErrors.ErrorsApply | gen-html-proc/src/generate.rs:203-251 | the finished code carries the errors of the pushes, in order |
| CompileErrors.CompiledErrors | gen-html-proc/src/generate.rs:30-34 | a fresh generator's code carries exactly its pushes' errors |
| CompileErrors.AttrsClean | gen-html-proc/src/generate.rs:67-76 | accepted attributes push no error |
| CompileErrors.CompileNodesClean | gen-html-proc/src/generate.rs:37-41 | the compiled code has no compile error exactly when every node is valid |
| CompileErrors.CompileNodeClean | gen-html-proc/src/generate.rs:43-54 | the same for one node |
| CompileErrors.NodesClean | gen-html-proc/src/generate.rs:37-41 | the pushes of nodes carry no error exactly when the nodes are valid |
| CompileErrors.NodeClean | gen-html-proc/src/generate.rs:43-54 | the same for one node of each kind |
| CompileErrors.IfClean | gen-html-proc/src/generate.rs:104-133 | an `if` carries no error exactly when both branches are valid |
| CompileErrors.MatchClean | gen-html-proc/src/generate.rs:135-167 | a `match` carries no error exactly when every arm is valid |
| CompileErrors.ElementClean | gen-html-proc/src/generate.rs:56-90 | an element carries no error exactly when its tag validates, its keys are distinct and its body is valid |
| CompileErrors.HeadClean | gen-html-proc/src/generate.rs:58-81 | the open tag carries no error exactly when the tag validates and the keys are distinct |
| CompileErrors.BodyClean | gen-html-proc/src/generate.rs:83-88 | a body carries no error exactly when its nodes are valid |
| CompileErrors.ArmsClean | gen-html-proc/src/generate.rs:143-161 | the generated arms carry no error exactly when every arm is valid |
| CompileErrors.ArmClean | gen-html-proc/src/generate.rs:146-160 | the same for one arm |
| StaticText.PushText | gen-html-proc/src/generate.rs:225-226 | text pushed after a static part extends it |
| StaticText.ApplyText | gen-html-proc/src/generate.rs:224-230 | any run of text pushes after a static part joins that one part |
| StaticText.ApplyTextFrom | gen-html-proc/src/generate.rs:224-230 | the same when other parts come before the static part |
| StaticText.ApplyTextAfter | gen-html-proc/src/generate.rs:227-228 | text after a dynamic part, or at the start, starts exactly one new static part |
| StaticText.FoldText | gen-html-proc/src/generate.rs:224-230 | a fresh generator turns any non-empty run of text pushes into a single static part |
| StaticText.AttrsText | gen-html-proc/src/generate.rs:67-76 | attributes with literal values push only text |
| StaticText.NodesText | gen-html-proc/src/generate.rs:37-41 | valid static nodes push only text |
| StaticText.NodeText | gen-html-proc/src/generate.rs:43-54 | the same for one node |
| StaticText.ElementText | gen-html-proc/src/generate.rs:56-90 | a valid static element pushes only text |
| StaticText.StaticFolds | gen-html-proc/src/generate.rs:203-230 | valid static markup compiles to at most one write, whose text is the HTML it denotes |
| DocExamples.HeadingAndParagraph | gen-html/src/lib.rs:75-79 | `h1 {..} p {..}` compiles to the single write `<h1>..</h1><p>..</p>` |
| DocExamples.HeadingAndParagraphHtml | gen-html/src/lib.rs:75-79 | and that is the HTML the template denotes |
| DocExamples.VoidElement | gen-html/src/lib.rs:86-96 | `p { ".." br ; ".." }` compiles to one write of `<p>..<br>..</p>` |
| DocExamples.VoidElementHtml | gen-html/src/lib.rs:86-96 | and denotes that HTML |
| DocExamples.DataCooldownKey | gen-html/src/lib.rs:107-108 | the key `data_cooldown` is written `data-cooldown` |
| DocExamples.RawTypeKey | gen-html/src/lib.rs:122 | the raw key `r#type` is written `type` |
| DocExamples.DashedKey | gen-html-proc/src/ast.rs:88 | `a_b` with plain `a` and `b` normalises to `a-b` |
| DocExamples.PlainKey | gen-html-proc/src/ast.rs:88 | a key without `_` that does not start with `r` is written as it is |
| DocExamples.AttributeExample | gen-html/src/lib.rs:105-113 | `img src: ..; button data_cooldown: .. onclick: .. {..}` compiles to one write of the documented HTML |
| DocExamples.AttributeExampleHtml | gen-html/src/lib.rs:105-113 | and denotes that HTML |
| DocExamples.AttributeExampleValid | gen-html/src/lib.rs:105-113 | that template is valid and static for a table that knows the two tags |
| DocExamples.EmptyAttribute | gen-html/src/lib.rs:120-124 | `input r#type: .. checked ;` compiles to one write of `<input type=".." checked>` |
| DocExamples.CheckboxHtml | gen-html/src/lib.rs:120-124 | and denotes that HTML |
| DocExamples.SamePairsSameCode | gen-html-proc/src/generate.rs:65-79 | elements whose attributes give the same (key, value) pairs compile to the same code |
| DocExamples.IdClassShorthand | gen-html/src/lib.rs:133-140 | `@x .y` compiles exactly like `id: x class: y` |
| ExpansionExamples.ForLoopExpansion | gen-html/src/lib.rs:33-43 | `for .. { span { (x) } }` compiles to a loop of `write("<span>")`, a render of x and `write("</span>")` |
| ExpansionExamples.ForLoopRuns | gen-html/src/lib.rs:18-25 | with three items it writes `<span>1</span><span>2</span><span>3</span>` |
| ExpansionExamples.ForEvents | gen-html-proc/src/generate.rs:169-188 | a `for` node compiles to one loop statement over its compiled body |
| ExpansionExamples.BareEvents | gen-html-proc/src/generate.rs:62-88 | an element without attributes pushes `<`, its name, `>`, its body, `</`, its name and `>` |
| ExpansionExamples.ElementAroundExpr | gen-html-proc/src/generate.rs:56-100 | an element around a host expression compiles to a write, a render and a write |
| ExpansionExamples.TextStmtText | gen-html-proc/src/generate.rs:224-247 | text, then a statement, then text finish as three statements |
| ExpansionExamples.TextThenExpr | gen-html-proc/src/generate.rs:224-243 | literal text folds into the open tag's write before a rendered expression |
| ExpansionExamples.InsertExpression | gen-html/src/lib.rs:152-155 | `p { "Hello " (name) }` compiles to `write("<p>Hello ")`, a render of name and `write("</p>")` |
| ExpansionExamples.ElseIfRuns | gen-html/src/lib.rs:168-198 | the generated code for the tree of an `if` / `else if` / `else` chain runs the first branch whose condition holds, in the environment that condition gives (the bindings of an `if let`), and otherwise the last branch; only the corrected parser builds this tree (see Findings) |
| ExpansionExamples.ElseIfExample | gen-html/src/lib.rs:173-182 | for that tree with three paragraph branches, when both conditions fail the generated code writes the last paragraph; the tree is reachable only through the corrected parser (see Findings) |
| ExpansionExamples.DoctypeExample | gen-html/src/lib.rs:58-65 | `(DOCTYPE) h1 {..}` writes `<!DOCTYPE html><h1>..</h1>`: `Raw` is not escaped |
| Rel.LinkRelText | src/attribute/rel.rs:85-131 | every link rel displays as a non-empty text without a comma |
| Rel.ParseLinkRelText | src/attribute/rel.rs:85-131 | the displayed text identifies the link rel |
| Rel.AnchorRelText | src/attribute/rel.rs:150-186 | every anchor rel displays as a non-empty text without a comma |
| Rel.ParseAnchorRelText | src/attribute/rel.rs:150-186 | the displayed text identifies the anchor rel |
| Rel.FormRelText | src/attribute/rel.rs:205-227 | every form rel displays as a non-empty text without a comma |
| Rel.ParseFormRelText | src/attribute/rel.rs:205-227 | the displayed text identifies the form rel |
| Rel.LinkAnchorAgree | src/attribute/rel.rs:36-66 | a marker that converts to both a link rel and an anchor rel displays alike in both |
| Rel.LinkFormAgree | src/attribute/rel.rs:36-66 | a marker displays alike as a link rel and a form rel |
| Rel.AnchorFormAgree | src/attribute/rel.rs:36-66 | a marker displays alike as an anchor rel and a form rel |
| Rel.IntoSomewhere | src/attribute/rel.rs:36-66 | every marker converts into at least one of the three enumerations |
| Rel.FromTuple | src/attribute/rel.rs:237-257 | the list keeps the first occurrence of each value, in tuple order, without repeats and without losing a value |
| Rel.FromSmallTuples | src/attribute/rel.rs:231-235 | the empty tuple gives the empty list and one value gives a one-element list |
| Rel.Display | src/attribute/rel.rs:73-83 | the list displays as its texts joined by `,`, with no comma at either end |
| Rel.RenderAttr | src/attribute/rel.rs:290-304 | the attribute text is appended to the sink |
| Rel.AttrTextShape | src/attribute/rel.rs:295-299 | nothing is written exactly for an empty list; otherwise the text starts ` attr="` |
| Rel.ListRoundTrip | src/attribute/rel.rs:73-83 | splitting the display at commas gives back each value when no text has a comma |
| Rel.LinkRelListRoundTrip | src/attribute/rel.rs:73-83 | a displayed link rel list parses back value by value |
| Rel.AnchorRelListRoundTrip | src/attribute/rel.rs:138-148 | a displayed anchor rel list parses back value by value |
| Rel.FormRelListRoundTrip | src/attribute/rel.rs:193-203 | a displayed form rel list parses back value by value |
| Rel.LinkRelExample | src/attribute/rel.rs:93-94 | `(DnsPrefetch, Me, DnsPrefetch)` writes ` rel="dns-prefetch,me"` |
| Attribute.ClassTryFrom | src/attribute.rs:32-42 | a class is accepted exactly when it has no whitespace, and then it wraps the value unchanged |
| Attribute.IdTryNew | src/attribute.rs:66-73 | an id is accepted exactly when it has no whitespace, and then it wraps the value unchanged |
| Attribute.IdNew | src/attribute.rs:62-64 | `Id::new` demands a whitespace-free id and agrees with `try_new` |
| Attribute.IdText | src/attribute.rs:50-52 | an id displays as its inner text, which `try_new` turns back into the id |
| Attribute.ClassList.IsEmpty | src/attribute.rs:10-12 | a class list is empty exactly when its display writes nothing |
| Attribute.ClassList.Fmt | src/attribute.rs:15-19 | each class is written in order, followed by one space |
| Attribute.ClassListFromText | src/attribute.rs:44-48 | a list built from whitespace-free classes displays as text that splits at its spaces into exactly those class names, in order |
| Attribute.ClassesTextSplit | src/attribute.rs:15-19 | splitting the display at spaces gives the class names back, then an empty piece |
| Attrs.AttrNameNew | src/attrs.rs:12-20 | an attribute name must be lowercase ASCII letters and `-` only |
| Attrs.SetterNamesValid | src/attrs.rs:37-58 | the five setters' keys are valid attribute names |
| Attrs.InsertLookup | src/attrs.rs:37-58 | after an insert, its key has the new value and every other key keeps its value |
| Attrs.InsertSortedSorted | src/attrs.rs:27 | the entries stay sorted by key with no key twice |
| Attrs.SortedUnique | src/attrs.rs:27 | two sorted entry lists with the same lookups are equal, so the map is fixed by its contents |
| Attrs.InsertCommutes | src/attrs.rs:37-58 | setting two different keys in either order gives the same map |
| Attrs.InsertReplaces | src/attrs.rs:37-58 | a later set of a key replaces the earlier one |
| Attrs.Attrs.constructor | src/attrs.rs:31-35 | a new map is empty |
| Attrs.Attrs.Insert | src/attrs.rs:37-58 | the map becomes the sorted insert of the key and value |
| Attrs.Attrs.SetLang | src/attrs.rs:37-39 | inserts `lang` |
| Attrs.Attrs.SetClass | src/attrs.rs:41-44 | inserts `class` |
| Attrs.Attrs.SetCharset | src/attrs.rs:46-49 | inserts `charset` |
| Attrs.Attrs.SetName | src/attrs.rs:51-53 | inserts `name` |
| Attrs.Attrs.SetContent | src/attrs.rs:55-58 | inserts `content` |
| Attrs.Attrs.Fmt | src/attrs.rs:61-76 | the entries are written in ascending key order |
| AttrsDisplay.WriteEntries | src/attrs.rs:62-74 | the loop writes every entry, in order |
| AttrsDisplay.WriteEntry | src/attrs.rs:65-72 | an empty value writes ` key`; any other writes ` key="` + encoded value + `"` |
| Attrs.TwoEntriesText | src/attrs.rs:66-71 | two entries with values display as ` k1="v1" k2="v2"`, values encoded |
| Attrs.SetterOrderEntries | src/attrs.rs:27 | setting `lang` and then `charset` stores `charset` first |
| Attrs.SetterOrderExample | src/attrs.rs:61-76 | `lang`, then `charset`, displays as ` charset=".." lang=".."` |
| Attrs.EmptyExample | src/attrs.rs:31-35 | a new map displays as the empty string |

## Left out

- Internals of `syn` and `proc_macro2` are not modelled.
  - Host expressions and patterns are opaque runs of tokens, and they end at a fixed set of stop tokens.
  - Spans are natural numbers, compared only for equality.
  - `quote!` and `parse_quote!` output are `Stmt` values, not tokens.
- Whether a host expression type-checks is not modelled. Its value, the outcome of a condition, pattern binding and loop items are parameters of `Semantics.Host`.
- The tag table is a function parameter: `crate::tags` is not part of this model.
- `html_escape::encode_double_quoted_attribute` is a function parameter of `Attrs.Attrs.Fmt`, because it lives in a foreign crate.
- The output identifier `__f` is not modelled. The same holds for the `render_fn` closure that `Template::expand` wraps around the statements (generate.rs:14-24). Every statement writes to the one sink.
- The `Render` trait's dispatch, `render()`, float formatting and the other impls in `gen-html/src/render.rs` are not modelled. Only the two cases `Semantics.RenderValue` captures are kept: text is escaped, and `Raw` is written unchanged.
- `fmt::Result` errors are not modelled: sinks never fail, so `?` never returns early.
- `gen-html/src/web.rs`, a set of web-framework response adapters, is I/O glue and is not modelled.
- The typed element builders (`src/element.rs`, `src/generate.rs`, `src/gen.rs` and the rest) are not modelled. They are type-level checks through trait bounds.
- `Lang` and the `IntoClass` conversion are not modelled. They are single-field wrappers with no behaviour. `Attrs.Attrs.SetClass` takes the class text directly.
- Ast.AttributesErr: the duplicate reports are stated as a set: membership, one per repeated key, and all its spans. Their order is not stated, because the source iterates a `HashMap` (ast.rs:56), whose order is unspecified. The model itself reports keys in first-occurrence order.
- Unparse.IfRoundTrip: for the code as written, the round trip is proved only for trees without `else if` chains, because the code rejects those (see Findings). The corrected parser mode is proved on all well-formed trees.
- Parse.ParseNode, Parse.ParseArms and Parse.ParseArm: their own contracts state only progress. Which inputs they reject is not stated in them.
- Parse.ParseElement, Parse.ParseBlock, Parse.ParseIf, Parse.ParseMatch and Parse.ParseFor: their own contracts state only progress. Their keyword and punctuation errors are stated by `Parse.ElementSyntax`, `Parse.BlockSyntax`, `Parse.IfSyntax`, `Parse.MatchSyntax` and `Parse.ForSyntax`. Errors that come from nested nodes are not stated. What all the parsers accept and return is stated by the round-trip lemmas of `Unparse`.
- Rel.FromTuple: takes a sequence of any length. The source converts only tuples of 0 to 16 values, the arities `impl_rel_from` is instantiated for (src/attribute/rel.rs:260-284).
- The error text `todo` for an unparsable attribute and syn's own error messages are modelled as plain strings in `SyntaxError`. They are not matched against syn's wording.

## Findings

| source | as written | input that shows it | evidently intended | confidence | as-written member | corrected member |
|---|---|---|---|---|---|---|
| gen-html-proc/src/parse.rs:112-115 | after `else` has been consumed, a peeked `if` leads to a second `<Token![else]>::parse`, which then meets `if` and fails | the documented chain `if age < 18 {..} else if age == 18 {..} else {..}` (gen-html/src/lib.rs:173-182) | `else if ..` parses as an else branch holding the nested `if` | not executed | Unparse.ElseIfRejectedAsWritten | Unparse.IfRoundTrip |
