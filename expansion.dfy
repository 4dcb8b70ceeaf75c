/**
 * The whole expansion, `Format::parse` followed by `Format::tokens`, and
 * what it means: the generated `concat!` operands spell out the template
 * with every placeholder replaced by its argument, in order.
 */
module Expansion {
  import opened Syntax
  import opened Template
  import opened Classify
  import opened FormatParse
  import opened Assemble

  /** The output of a format with `S` segments: `2 * S` fragments,
      segment i then argument i, the filler last; printed, that is the
      `2 * S - 1` operands `segment 0, argument 0, ..., segment S-1`, each
      followed by a comma, with nothing printed for the filler. */
  ghost predicate OutputShaped(f: Format)
  {
    var s := |f.template|;
    var frags := Fragments(f.template, f.arguments);
    var out := FormatTokens(f);
    && s >= 1
    && |frags| == 2 * s
    && frags[2 * s - 1] == Argument(Filler)
    && |out| == 2 * (2 * s - 1)
    && (forall i :: 0 <= i < 2 * s - 1 ==> out[2 * i + 1] == Comma)
    && (forall i :: 0 <= i < s ==> out[4 * i] == LitStr(f.template[i]))
    && (forall i :: 0 <= i < s - 1 ==> [out[4 * i + 2]] == ArgTokens(f.arguments[i]))
  }

  /** Every successful parse produces output of that shape. */
  lemma OutputShape(input: seq<Token>)
    requires ParseFormatSpec(input).Ok?
    ensures OutputShaped(ParseFormatSpec(input).value.format)
  {
    FillerOnlyAtEnd(input);
    FormatShape(ParseFormatSpec(input).value.format);
  }

  /** The shape of the output for any format whose arguments end in the
      filler and hold it nowhere else. */
  lemma FormatShape(f: Format)
    requires |f.template| == |f.arguments| >= 1
    requires f.arguments[|f.arguments| - 1] == Filler
    requires forall i :: 0 <= i < |f.arguments| - 1 ==> f.arguments[i] != Filler
    ensures OutputShaped(f)
  {
    FragmentsShape(f.template, f.arguments);
    FormatTokensShape(f.template, f.arguments);
  }

  /** One argument per placeholder, each a literal or a macro call: the
      expansion succeeds, reads the whole input, and the generated
      `concat!` evaluates to the template with the i-th placeholder
      replaced by the i-th argument's text. */
  lemma ExpansionSubstitutes(template: string, args: seq<Token>, eval: Token -> string)
    requires forall i :: 0 <= i < |args| ==> Accepted(args[i])
    requires |args| == Occurrences(template)
    ensures var r := ParseFormatSpec(Invocation(template, args, []));
      && r.Ok? && r.value.rest == []
      && Render(FormatTokens(r.value.format), eval) == Substitute(template, OperandTexts(args, eval))
  {
    InvocationParses(template, args, []);
    var f := ParseFormatSpec(Invocation(template, args, [])).value.format;
    RenderEmit(Fragments(f.template, f.arguments), eval);
    SplitLength(template);
    FragmentsTextInterleave(f.template, f.arguments, args, eval);
    InterleaveSplit(template, OperandTexts(args, eval));
  }

  /** Any other argument count is an arity error naming the placeholder
      count and the argument count. */
  lemma ExpansionArityError(template: string, args: seq<Token>, tail: seq<Token>)
    requires forall i :: 0 <= i < |args| ==> Accepted(args[i])
    requires |tail| == 0 || !tail[0].Comma?
    requires |args| != Occurrences(template)
    ensures ParseFormatSpec(Invocation(template, args, tail)) == Err(WrongArity(Occurrences(template), |args|))
  {
    InvocationParses(template, args, tail);
  }

  /** Evaluating a template built from placeholder-free segments. */
  lemma {:induction false} SubstituteJoin(segments: seq<string>, values: seq<string>)
    requires |segments| == |values| + 1
    requires forall i :: 0 <= i < |segments| ==> PlaceholderFree(segments[i])
    ensures Occurrences(Join(segments)) == |values|
    ensures Substitute(Join(segments), values) == Interleave(segments, values)
  {
    JoinSplit(segments);
    SplitLength(Join(segments));
    InterleaveSplit(Join(segments), values);
  }

  /** A well-formed invocation whose template is written as its segments
      joined by placeholders parses to exactly those segments. */
  lemma InvocationOfJoin(segments: seq<string>, args: seq<Token>)
    requires |segments| == |args| + 1
    requires forall i :: 0 <= i < |segments| ==> PlaceholderFree(segments[i])
    requires forall i :: 0 <= i < |args| ==> Accepted(args[i])
    ensures ParseFormatSpec(Invocation(Join(segments), args, []))
         == Ok(Parsed(Format(segments, ClassifiedAll(args) + [Filler]), []))
  {
    JoinSplit(segments);
    SplitLength(Join(segments));
    InvocationParses(Join(segments), args, []);
  }

  /** The expansion of a template written as placeholder-free segments
      joined by placeholders, with one accepted argument per placeholder. */
  lemma ExpansionOfJoin(segments: seq<string>, args: seq<Token>, eval: Token -> string)
    requires |segments| == |args| + 1
    requires forall i :: 0 <= i < |segments| ==> PlaceholderFree(segments[i])
    requires forall i :: 0 <= i < |args| ==> Accepted(args[i])
    ensures var r := ParseFormatSpec(Invocation(Join(segments), args, []));
      && r.Ok?
      && Render(FormatTokens(r.value.format), eval) == Interleave(segments, OperandTexts(args, eval))
  {
    SubstituteJoin(segments, OperandTexts(args, eval));
    ExpansionSubstitutes(Join(segments), args, eval);
  }
}
