# A model of `const_format!`

`static_format` is a Rust procedural macro crate. Its one macro,
`const_format!("template {} with {}", arg1, arg2)`, expands at compile time
to `concat!("template ", arg1, " with ", arg2, "",)`. It works in two steps:

- **Parsing.** The first input token must be a string literal: the template.
  The template is cut on every `{}` into segments. After it come
  comma-separated arguments, each an integer, string or boolean literal or
  a macro invocation. An invisible filler argument is appended. The number
  of arguments must then equal the number of segments.
- **Printing.** Segments and arguments are zipped into pairs. Each pair is
  printed as `segment, argument`, and the pairs are joined with commas
  inside a `concat!` call.

This project models both steps on an abstract token stream and proves:

- what the parse accepts and which error it reports otherwise;
- that splitting the template and joining its segments are inverse;
- that classifying an argument and printing it are inverse;
- the exact shape of the generated operand list;
- that the generated `concat!` evaluates to the template with its i-th
  placeholder replaced by the i-th argument.

Modules, one per stage:

- `Syntax`: the input alphabet, the classified arguments and the errors.
- `Template`: the template and its split on `{}`; `Split` models
  `str::split`.
- `Classify`: literal lookahead, expression parse and the macro-only rule.
- `FormatParse`: the argument loop. It is a `method` with a `while` loop,
  proved equal to the recursive specification `ParseFormatSpec`.
- `Assemble`: zip and print, plus what `concat!` makes of the printed
  operands.
- `Expansion`: the whole expansion and its meaning.
- `Diagnostics`: the message texts, and a decimal rendering with its
  inverse.
- `Examples`: the two unit tests of `src/lib.rs` and the first invocation
  of `tests/ui/basic.rs`, replayed on the model.

## Model

| member | source | states |
|---|---|---|
| Template.ParseTemplate | src/lib.rs:115-125 | Succeeds exactly when the first token is a string literal, else the missing-template error; on success, one segment more than the template has placeholders, the segments joined with `{}` give the template back, and no segment contains `{}` |
| Template.Split | src/lib.rs:123 | The split of any template has at least one segment |
| Template.SplitLength | src/lib.rs:123 | A template with k placeholders splits into k + 1 segments |
| Template.SplitJoin | src/lib.rs:123 | Joining the split segments with `{}` gives back the template |
| Template.JoinSplit | src/lib.rs:123 | Splitting a join of placeholder-free segments gives back those segments |
| Template.SplitSegmentsPlaceholderFree | src/lib.rs:123 | No segment produced by the split contains `{}` |
| Template.SplitAfterSegment | src/lib.rs:123 | The split of `a{}b`, with `a` free of `{}`, is `a` followed by the split of `b` |
| Template.SplitHeadIsPrefix | src/lib.rs:123 | The first segment is a prefix of the template |
| Classify.ArgTokens | src/lib.rs:93-101 | An argument prints as no tokens exactly when it is the filler |
| Classify.ParseAcceptedLit | src/lib.rs:42-55 | Yields a literal exactly when the next token is an integer, string or boolean literal, and that literal prints back as the token |
| Classify.ParseExpr | src/lib.rs:83 | An expression starts unless the input is empty or begins with a comma or a token no expression starts with; the expression is a macro exactly when the token is a macro call |
| Classify.ArgFromExpr | src/lib.rs:63-76 | Accepts an expression exactly when it is a macro invocation, otherwise the must-be-literal error |
| Classify.ParseArg | src/lib.rs:78-91 | Succeeds exactly on a literal or a macro call and prints back as that token; otherwise the must-be-literal error for any other expression and the invalid-argument error when no expression starts |
| Classify.Classified | src/lib.rs:78-91 | An accepted token classifies as an argument that prints back as that token, is never the filler, and is a literal exactly when the token is one |
| Classify.ParseArgLooksAtHead | src/lib.rs:78-91 | Classification depends only on the next token |
| Classify.ClassifyThenPrint | src/lib.rs:93-101 | Printing a classified accepted token gives that token, and it is never the filler |
| Classify.PrintThenClassify | src/lib.rs:93-101 | Classifying a printed literal or macro argument gives the argument back |
| FormatParse.ScanArguments | src/lib.rs:137-139 | The loop's arguments never include the filler, it stops only at a token that is not a comma, and its only errors are the two classification errors |
| FormatParse.ParseFormat | src/lib.rs:132-158 | The loop that pushes one argument per comma computes exactly `ParseFormatSpec` |
| FormatParse.MissingTemplateIff | src/lib.rs:117-122 | The parse fails with the missing-template error if and only if there is no leading string literal |
| FormatParse.FillerOnlyAtEnd | src/lib.rs:141 | A successful parse has the filler last and nowhere else, and one argument per segment |
| FormatParse.ArityIff | src/lib.rs:143-150 | With every argument accepted, the parse succeeds if and only if the argument count equals the placeholder count, and otherwise reports those two counts |
| FormatParse.ArgumentErrorFirst | src/lib.rs:138 | A classification error is reported before the arity check |
| FormatParse.ScanAccepted | src/lib.rs:137-139 | Comma-separated accepted arguments are all read, in order, and the loop stops at what follows them |
| FormatParse.ScanFirstRejected | src/lib.rs:137-139 | The first rejected argument's error ends the loop |
| FormatParse.TrailingCommaRejected | src/lib.rs:137-139 | A comma after the last argument is the invalid-argument error |
| FormatParse.InvocationParses | src/lib.rs:132-158 | A template with accepted arguments parses if and only if the counts match; the segments are the split template and the arguments are the classified tokens then the filler; otherwise the arity error with both counts |
| FormatParse.ClassifiedAll | src/lib.rs:137-139 | The arguments the loop collects from accepted tokens print back as those tokens, one for one, and none is the filler |
| FormatParse.InvocationRejected | src/lib.rs:138 | A rejected argument at any position is reported, even when the count is also wrong |
| Assemble.Fragments | src/lib.rs:164 | The zip has one pair per element of the shorter list: segment i, then argument i |
| Assemble.RenderEmit | src/lib.rs:170 | The commas between operands add no text to the `concat!` result |
| Assemble.FragmentsTextInterleave | src/lib.rs:164-170 | The text of the zipped pairs is segment 0, argument 0, segment 1, ..., last segment |
| Assemble.InterleaveSplit | src/lib.rs:123 | Interleaving a template's segments with values is the template with each placeholder replaced by the next value |
| Assemble.EmitShape | src/lib.rs:166-170 | A fragment list ending in the filler prints as each fragment's token followed by a comma |
| Assemble.FragmentsShape | src/lib.rs:164 | Zipping arguments that end in the filler gives 2S fragments with the filler last and nowhere else |
| Assemble.FormatTokensShape | src/lib.rs:160-172 | The operand list has 2(2S-1) tokens: segment i at 4i, argument i at 4i+2, a comma at every odd position |
| Expansion.OutputShape | src/lib.rs:160-172 | For every successful parse, `FormatTokens` (the operand list `Format::tokens` builds) has 2(2S-1) tokens for S segments: segment i at 4i, argument i at 4i+2, a comma at every odd position, and the filler prints nothing |
| Expansion.FormatShape | src/lib.rs:160-172 | The operand list shape for any format whose arguments end in the filler and hold it nowhere else |
| Expansion.ExpansionSubstitutes | src/lib.rs:160-172 | With one accepted argument per placeholder, the expansion succeeds, reads the whole input, and its `concat!` text is the template with each placeholder replaced by the next argument's text |
| Expansion.ExpansionArityError | src/lib.rs:143-150 | Any other argument count is the arity error naming the placeholder count and the argument count |
| Expansion.SubstituteJoin | src/lib.rs:123 | A template written as segments joined by `{}` has one placeholder per gap, and substituting into it interleaves the values with the segments |
| Expansion.InvocationOfJoin | src/lib.rs:132-158 | Such a template parses to exactly those segments |
| Expansion.ExpansionOfJoin | src/lib.rs:160-172 | The expansion of such a template interleaves the segments with the argument texts |
| Diagnostics.Decimal | src/lib.rs:146-149 | Counts print as non-empty digit strings with no leading zero |
| Diagnostics.DecimalRoundTrip | src/lib.rs:146-149 | Reading back a printed count gives the count |
| Diagnostics.MessageInjective | src/lib.rs:63-150 | `Message` (the diagnostic text of each error) is injective: different errors never print the same message: the missing-template, invalid-argument, must-be-literal and arity texts differ, and arity texts differ whenever their counts do |
| Diagnostics.ArityMessageDeterminesCounts | src/lib.rs:146-149 | Two arity messages with the same text report the same expected and found counts |
| Examples.ExampleBasicFormat | src/lib.rs:202-211 | `"hello {} world {}", "Rust", "Macro"` prints as `"hello ", "Rust", " world ", "Macro", "",` |
| Examples.ExampleFormatWithMacro | src/lib.rs:213-224 | The three-argument test prints the macro call unevaluated between its segments, with a trailing comma |
| Examples.ExampleMacroArgument | tests/ui/basic.rs:8-9 | `"hello world with macro {}", some_macro!(5)` evaluates to `"hello world with macro 5"` |
| Examples.ExampleAdjacentPlaceholders | tests/ui/basic.rs:11-15 | Adjacent placeholders `{}{}` leave an empty segment between them, and the values `2`, `3` render side by side as `23` |
| Examples.ExampleMissingTemplate | src/lib.rs:117-122 | An integer first is the missing-template error |

## Left out

- The `syn` and `quote` machinery: token streams, cursors, lookahead
  objects, spans and `to_string`. Input is an abstract `Token` sequence and
  output an abstract token list. Spans are not modelled, so errors carry no
  position.
- String-literal escapes and raw strings: `LitStr` carries the decoded
  value only.
- The Rust expression grammar: an expression that does not start with an
  accepted literal is a single `MacroCall` or `OtherExpr` token that stands
  for the whole expression. A literal followed by more tokens (`5 + 1`) is
  modelled as the literal and the tokens after it.
- Evaluation by `concat!`: it is a parameter `eval` that gives the text of
  every operand other than a string literal.
- Rejection of tokens left after the argument loop. `parse_macro_input!`
  does that outside the core; the model returns those tokens in
  `Parsed.rest`.
- The `const_format` entry point (src/lib.rs:191-195): it only chains the
  parse and the printing, and turns a parse error into a compile error.
- The capacity hint of `Vec::with_capacity` (src/lib.rs:135), which has no
  effect on the result.
- The compile-fail fixtures named in tests/try_build_test.rs. Their files
  are not part of this model.
- The seven-placeholder invocation of tests/ui/basic.rs:11-15 is not
  replayed as a concrete lemma. `Expansion.ExpansionSubstitutes` covers it
  for all templates and accepted arguments.
  `Examples.ExampleAdjacentPlaceholders` replays its `{}{}` ending.
- `usize` width: the counts in the arity message are unbounded naturals.
  Both are at least one less than a vector length, so neither underflows.

Where the behaviour might be read differently from the code, the model follows
the code:

- The first argument that fails to classify ends the parse, even when the
  count is also wrong (`InvocationRejected`).
- Classification happens inside the loop, one argument per comma, with the
  `?` on line 138.
- A trailing comma after the last argument is rejected
  (`TrailingCommaRejected`).
