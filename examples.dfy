/**
 * The crate's own examples, replayed on the model: the two unit tests in
 * src/lib.rs and the compile-and-run example in tests/ui/basic.rs.
 */
module Examples {
  import opened Syntax
  import opened Template
  import opened Classify
  import opened FormatParse
  import opened Assemble
  import opened Expansion

  // ---------------------------------------------------------------------
  // Printing helpers

  /** A segment followed by a single-token argument prints as four tokens. */
  lemma EmitPair(s: string, a: Arg, t: Token, rest: seq<Fragment>)
    requires ArgTokens(a) == [t] && |rest| >= 1
    ensures Emit([Segment(s), Argument(a)] + rest) == [LitStr(s), Comma, t, Comma] + Emit(rest)
  {
    EmitCons(Segment(s), [Argument(a)] + rest);
    EmitCons(Argument(a), rest);
    PairCons(Segment(s), Argument(a), rest);
    FourTokens(LitStr(s), t, Emit(rest));
  }

  /** Regrouping steps kept apart from the printing terms above: stated
      inline, next to the `Emit` terms, they make the solver search far
      longer. */
  lemma PairCons(x: Fragment, y: Fragment, rest: seq<Fragment>)
    ensures [x, y] + rest == [x] + ([y] + rest)
  {
  }

  lemma FourTokens(x: Token, y: Token, tail: seq<Token>)
    ensures [x] + [Comma] + ([y] + [Comma] + tail) == [x, Comma, y, Comma] + tail
  {
  }

  lemma GroupThree(x0: Token, y0: Token, x1: Token, y1: Token, x2: Token, y2: Token, last: seq<Token>)
    requires |last| == 2
    ensures [x0, Comma, y0, Comma] + ([x1, Comma, y1, Comma] + ([x2, Comma, y2, Comma] + last))
         == [x0, Comma, y0, Comma, x1, Comma, y1, Comma, x2, Comma, y2, Comma, last[0], last[1]]
  {
  }

  /** The last segment, followed by the filler, prints as itself and a comma. */
  lemma EmitLast(s: string)
    ensures Emit([Segment(s), Argument(Filler)]) == [LitStr(s), Comma]
  {
    EmitCons(Segment(s), [Argument(Filler)]);
    assert [Segment(s), Argument(Filler)] == [Segment(s)] + [Argument(Filler)];
  }

  lemma FragmentsLast(s: string)
    ensures Fragments([s], [Filler]) == [Segment(s), Argument(Filler)]
  {
  }

  lemma CommaTwo(x: Token, y: Token)
    ensures CommaSeparated([x, y], []) == [Comma, x, Comma, y]
  {
    CommaSeparatedCons([x, y], []);
    CommaSeparatedCons([y], []);
    assert [x, y][1..] == [y];
  }

  lemma CommaThree(x: Token, y: Token, z: Token)
    ensures CommaSeparated([x, y, z], []) == [Comma, x, Comma, y, Comma, z]
  {
    CommaSeparatedCons([x, y, z], []);
    CommaTwo(y, z);
    assert [x, y, z][1..] == [y, z];
  }

  lemma ClassifiedTwo(x: Token, y: Token)
    requires Accepted(x) && Accepted(y)
    ensures ClassifiedAll([x, y]) + [Filler] == [Classified(x), Classified(y), Filler]
  {
  }

  lemma ClassifiedThree(x: Token, y: Token, z: Token)
    requires Accepted(x) && Accepted(y) && Accepted(z)
    ensures ClassifiedAll([x, y, z]) + [Filler] == [Classified(x), Classified(y), Classified(z), Filler]
  {
  }

  // ---------------------------------------------------------------------
  // `"hello {} world {}", "Rust", "Macro"`

  lemma BasicTemplate()
    ensures Join(["hello ", " world ", ""]) == "hello {} world {}"
  {
    var segments := ["hello ", " world ", ""];
    assert Join(segments[2..]) == "";
    assert Join(segments[1..]) == " world " + Placeholder + "";
  }

  lemma BasicInput()
    ensures Invocation(Join(["hello ", " world ", ""]), [LitStr("Rust"), LitStr("Macro")], [])
         == [LitStr("hello {} world {}"), Comma, LitStr("Rust"), Comma, LitStr("Macro")]
  {
    BasicTemplate();
    CommaTwo(LitStr("Rust"), LitStr("Macro"));
  }

  lemma BasicSegmentsFree()
    ensures forall i :: 0 <= i < 3 ==> PlaceholderFree(["hello ", " world ", ""][i])
  {
    assert PlaceholderFree("hello ") && PlaceholderFree(" world ") && PlaceholderFree("");
  }

  lemma BasicParse()
    ensures ParseFormatSpec(Invocation(Join(["hello ", " world ", ""]), [LitStr("Rust"), LitStr("Macro")], []))
         == Ok(Parsed(Format(["hello ", " world ", ""], [Literal(Str("Rust")), Literal(Str("Macro")), Filler]), []))
  {
    BasicSegmentsFree();
    InvocationOfJoin(["hello ", " world ", ""], [LitStr("Rust"), LitStr("Macro")]);
    ClassifiedTwo(LitStr("Rust"), LitStr("Macro"));
  }

  lemma BasicFragments()
    ensures Fragments(["hello ", " world ", ""], [Literal(Str("Rust")), Literal(Str("Macro")), Filler])
         == [Segment("hello "), Argument(Literal(Str("Rust")))]
            + ([Segment(" world "), Argument(Literal(Str("Macro")))] + [Segment(""), Argument(Filler)])
  {
    var rust, macro := Literal(Str("Rust")), Literal(Str("Macro"));
    FragmentsLast("");
    FragmentsCons(" world ", macro, [""], [Filler]);
    FragmentsCons("hello ", rust, [" world ", ""], [macro, Filler]);
    assert ["hello ", " world ", ""] == ["hello "] + ([" world "] + [""]);
    assert [rust, macro, Filler] == [rust] + ([macro] + [Filler]);
  }

  lemma BasicTokens()
    ensures Emit(Fragments(["hello ", " world ", ""], [Literal(Str("Rust")), Literal(Str("Macro")), Filler]))
         == [LitStr("hello "), Comma, LitStr("Rust"), Comma, LitStr(" world "), Comma,
             LitStr("Macro"), Comma, LitStr(""), Comma]
  {
    var rust, macro := Literal(Str("Rust")), Literal(Str("Macro"));
    var last := [Segment(""), Argument(Filler)];
    BasicFragments();
    EmitLast("");
    EmitPair(" world ", macro, LitStr("Macro"), last);
    EmitPair("hello ", rust, LitStr("Rust"), [Segment(" world "), Argument(macro)] + last);
    assert [LitStr("hello "), Comma, LitStr("Rust"), Comma]
           + ([LitStr(" world "), Comma, LitStr("Macro"), Comma] + [LitStr(""), Comma])
        == [LitStr("hello "), Comma, LitStr("Rust"), Comma, LitStr(" world "), Comma,
            LitStr("Macro"), Comma, LitStr(""), Comma];
  }

  /** The unit test `test_basic_format`: the generated operands are
      `"hello ", "Rust", " world ", "Macro", "",`. */
  lemma ExampleBasicFormat()
    ensures var r := ParseFormatSpec([LitStr("hello {} world {}"), Comma, LitStr("Rust"), Comma, LitStr("Macro")]);
      && r.Ok? && r.value.rest == []
      && FormatTokens(r.value.format)
         == [LitStr("hello "), Comma, LitStr("Rust"), Comma, LitStr(" world "), Comma,
             LitStr("Macro"), Comma, LitStr(""), Comma]
  {
    BasicInput();
    BasicParse();
    BasicTokens();
  }

  // ---------------------------------------------------------------------
  // `"hello {} world {}, {} hello", "Rust", "Macro", a_macro!()`

  lemma JoinFour(a: string, b: string, c: string, d: string)
    ensures Join([a, b, c, d]) == a + Placeholder + (b + Placeholder + (c + Placeholder + d))
  {
    JoinCons(c, [d]);
    JoinCons(b, [c, d]);
    JoinCons(a, [b, c, d]);
    assert [c] + [d] == [c, d];
    assert [b] + [c, d] == [b, c, d];
    assert [a] + [b, c, d] == [a, b, c, d];
  }

  lemma WithMacroTemplate()
    ensures Join(["hello ", " world ", ", ", " hello"]) == "hello {} world {}, {} hello"
  {
    JoinFour("hello ", " world ", ", ", " hello");
    assert ", " + Placeholder + " hello" == ", {} hello";
    assert " world " + Placeholder + ", {} hello" == " world {}, {} hello";
    assert "hello " + Placeholder + " world {}, {} hello" == "hello {} world {}, {} hello";
  }

  lemma WithMacroInput()
    ensures Invocation(Join(["hello ", " world ", ", ", " hello"]),
                       [LitStr("Rust"), LitStr("Macro"), MacroCall("a_macro!()")], [])
         == [LitStr("hello {} world {}, {} hello"), Comma, LitStr("Rust"), Comma, LitStr("Macro"),
             Comma, MacroCall("a_macro!()")]
  {
    WithMacroTemplate();
    CommaThree(LitStr("Rust"), LitStr("Macro"), MacroCall("a_macro!()"));
  }

  lemma WithMacroSegmentsFree()
    ensures forall i :: 0 <= i < 4 ==> PlaceholderFree(["hello ", " world ", ", ", " hello"][i])
  {
    assert PlaceholderFree("hello ") && PlaceholderFree(" world ") && PlaceholderFree(", ") && PlaceholderFree(" hello");
  }

  lemma WithMacroParse()
    ensures ParseFormatSpec(Invocation(Join(["hello ", " world ", ", ", " hello"]),
                                       [LitStr("Rust"), LitStr("Macro"), MacroCall("a_macro!()")], []))
         == Ok(Parsed(Format(["hello ", " world ", ", ", " hello"],
                             [Literal(Str("Rust")), Literal(Str("Macro")), Nested(Macro("a_macro!()")), Filler]), []))
  {
    WithMacroSegmentsFree();
    InvocationOfJoin(["hello ", " world ", ", ", " hello"], [LitStr("Rust"), LitStr("Macro"), MacroCall("a_macro!()")]);
    ClassifiedThree(LitStr("Rust"), LitStr("Macro"), MacroCall("a_macro!()"));
  }

  lemma WithMacroParsed()
    ensures ParseFormatSpec([LitStr("hello {} world {}, {} hello"), Comma, LitStr("Rust"), Comma,
                             LitStr("Macro"), Comma, MacroCall("a_macro!()")])
         == Ok(Parsed(Format(["hello ", " world ", ", ", " hello"],
                             [Literal(Str("Rust")), Literal(Str("Macro")), Nested(Macro("a_macro!()")), Filler]), []))
  {
    WithMacroInput();
    WithMacroParse();
  }

  lemma WithMacroFragments()
    ensures Fragments(["hello ", " world ", ", ", " hello"],
                      [Literal(Str("Rust")), Literal(Str("Macro")), Nested(Macro("a_macro!()")), Filler])
         == [Segment("hello "), Argument(Literal(Str("Rust")))]
            + ([Segment(" world "), Argument(Literal(Str("Macro")))]
            + ([Segment(", "), Argument(Nested(Macro("a_macro!()")))] + [Segment(" hello"), Argument(Filler)]))
  {
    var rust, macro, call := Literal(Str("Rust")), Literal(Str("Macro")), Nested(Macro("a_macro!()"));
    FragmentsLast(" hello");
    FragmentsCons(", ", call, [" hello"], [Filler]);
    FragmentsCons(" world ", macro, [", ", " hello"], [call, Filler]);
    FragmentsCons("hello ", rust, [" world ", ", ", " hello"], [macro, call, Filler]);
    assert ["hello ", " world ", ", ", " hello"] == ["hello "] + ([" world "] + ([", "] + [" hello"]));
    assert [rust, macro, call, Filler] == [rust] + ([macro] + ([call] + [Filler]));
  }

  lemma WithMacroTokens()
    ensures FormatTokens(Format(["hello ", " world ", ", ", " hello"],
                                [Literal(Str("Rust")), Literal(Str("Macro")), Nested(Macro("a_macro!()")), Filler]))
         == [LitStr("hello "), Comma, LitStr("Rust"), Comma, LitStr(" world "), Comma, LitStr("Macro"), Comma,
             LitStr(", "), Comma, MacroCall("a_macro!()"), Comma, LitStr(" hello"), Comma]
  {
    var rust, macro, call := Literal(Str("Rust")), Literal(Str("Macro")), Nested(Macro("a_macro!()"));
    var last := [Segment(" hello"), Argument(Filler)];
    WithMacroFragments();
    EmitLast(" hello");
    EmitPair(", ", call, MacroCall("a_macro!()"), last);
    EmitPair(" world ", macro, LitStr("Macro"), [Segment(", "), Argument(call)] + last);
    EmitPair("hello ", rust, LitStr("Rust"),
             [Segment(" world "), Argument(macro)] + ([Segment(", "), Argument(call)] + last));
    GroupThree(LitStr("hello "), LitStr("Rust"), LitStr(" world "), LitStr("Macro"),
               LitStr(", "), MacroCall("a_macro!()"), [LitStr(" hello"), Comma]);
  }

  /** The unit test `test_basic_format_with_macro`: the macro call is
      re-emitted unevaluated between the segments around it. */
  lemma ExampleFormatWithMacro()
    ensures var r := ParseFormatSpec([LitStr("hello {} world {}, {} hello"), Comma, LitStr("Rust"), Comma,
                                      LitStr("Macro"), Comma, MacroCall("a_macro!()")]);
      && r.Ok? && r.value.rest == []
      && FormatTokens(r.value.format)
         == [LitStr("hello "), Comma, LitStr("Rust"), Comma, LitStr(" world "), Comma, LitStr("Macro"), Comma,
             LitStr(", "), Comma, MacroCall("a_macro!()"), Comma, LitStr(" hello"), Comma]
  {
    WithMacroParsed();
    WithMacroTokens();
  }

  // ---------------------------------------------------------------------
  // tests/ui/basic.rs, with `some_macro!(x)` expanding to `x`

  /** What the compiler makes of each operand in that file. */
  function BasicEval(t: Token): string
  {
    match t
    case MacroCall(repr) =>
      if repr == "some_macro!(5)" then "5" else if repr == "some_macro!('.')" then "." else ""
    case LitInt(repr) => repr
    case LitBool(flag) => if flag then "true" else "false"
    case _ => ""
  }

  lemma MacroArgumentTemplate()
    ensures Join(["hello world with macro ", ""]) == "hello world with macro {}"
  {
    assert Join(["hello world with macro ", ""][1..]) == "";
  }

  lemma MacroArgumentText()
    ensures Interleave(["hello world with macro ", ""], OperandTexts([MacroCall("some_macro!(5)")], BasicEval))
         == "hello world with macro 5"
  {
    assert OperandTexts([MacroCall("some_macro!(5)")], BasicEval) == ["5"];
  }

  /** `const_format!("hello world with macro {}", some_macro!(5))` is
      `"hello world with macro 5"`. */
  lemma ExampleMacroArgument()
    ensures var r := ParseFormatSpec(Invocation("hello world with macro {}", [MacroCall("some_macro!(5)")], []));
      && r.Ok?
      && Render(FormatTokens(r.value.format), BasicEval) == "hello world with macro 5"
  {
    var segments := ["hello world with macro ", ""];
    MacroArgumentTemplate();
    assert PlaceholderFree("hello world with macro ") && PlaceholderFree("");
    ExpansionOfJoin(segments, [MacroCall("some_macro!(5)")], BasicEval);
    MacroArgumentText();
  }

  /** Adjacent placeholders, as at the end of the second template in that
      file, leave an empty segment between them, and the expansion places
      the two values side by side. */
  lemma ExampleAdjacentPlaceholders()
    ensures Split("{}{}") == ["", "", ""]
    ensures var r := ParseFormatSpec(Invocation("{}{}", [LitInt("2"), LitInt("3")], []));
      && r.Ok?
      && Render(FormatTokens(r.value.format), BasicEval) == "23"
  {
    AdjacentTemplate();
    ExpansionOfJoin(["", "", ""], [LitInt("2"), LitInt("3")], BasicEval);
    AdjacentText();
  }

  lemma AdjacentText()
    ensures Interleave(["", "", ""], OperandTexts([LitInt("2"), LitInt("3")], BasicEval)) == "23"
  {
    assert OperandTexts([LitInt("2"), LitInt("3")], BasicEval) == ["2", "3"];
    assert Interleave(["", ""], ["3"]) == "3";
  }

  lemma AdjacentTemplate()
    ensures Join(["", "", ""]) == "{}{}"
    ensures Split("{}{}") == ["", "", ""]
    ensures forall i :: 0 <= i < 3 ==> PlaceholderFree(["", "", ""][i])
  {
    assert PlaceholderFree("");
    JoinCons("", [""]);
    JoinCons("", ["", ""]);
    assert ["", "", ""] == [""] + ["", ""];
    JoinSplit(["", "", ""]);
  }

  // ---------------------------------------------------------------------
  // Rejected invocations

  /** An integer first: there is no template. */
  lemma ExampleMissingTemplate()
    ensures ParseFormatSpec([LitInt("5"), Comma, LitStr("x")]) == Err(MissingTemplate)
  {
    MissingTemplateIff([LitInt("5"), Comma, LitStr("x")]);
  }
}
