/**
 * `Format::parse`: read the template, then, while a comma can be consumed,
 * classify one argument; append the filler; require exactly one argument
 * per placeholder. The first failing stage aborts the whole parse.
 */
module FormatParse {
  import opened Syntax
  import opened Template
  import opened Classify

  /** A parsed invocation: the template's segments and the arguments,
      the filler included. */
  datatype Format = Format(template: seq<string>, arguments: seq<Arg>)

  /** A successful parse, with the tokens the argument loop left unread
      (rejecting those is up to the caller). */
  datatype Parsed = Parsed(format: Format, rest: seq<Token>)

  /** What the argument loop has read: the arguments in encounter order and
      the tokens after the last one. */
  datatype ArgScan = ArgScan(args: seq<Arg>, rest: seq<Token>)

  /** The argument loop as a recursive definition: each comma is followed
      by one argument; the loop ends at the first token that is not a
      comma, and the first classification error ends the parse. */
  function ScanArguments(ts: seq<Token>): (r: Result<ArgScan>)
    ensures r.Ok? ==> forall i :: 0 <= i < |r.value.args| ==> r.value.args[i] != Filler
    ensures r.Ok? ==> |r.value.rest| == 0 || !r.value.rest[0].Comma?
    ensures r.Err? ==> r.error == InvalidArgument || r.error == NotALiteral
    decreases |ts|
  {
    if |ts| > 0 && ts[0].Comma? then
      var arg :- ParseArg(ts[1..]);
      var tail :- ScanArguments(ts[2..]);
      Ok(ArgScan([arg] + tail.args, tail.rest))
    else
      Ok(ArgScan([], ts))
  }

  /** The whole of `Format::parse`, as a function of the input. */
  function ParseFormatSpec(input: seq<Token>): Result<Parsed>
  {
    var template :- ParseTemplate(input);
    var scan :- ScanArguments(input[1..]);
    var arguments := scan.args + [Filler];
    if |arguments| != |template| then
      Err(WrongArity(|template| - 1, |arguments| - 1))
    else
      Ok(Parsed(Format(template, arguments), scan.rest))
  }

  /** Prefix `args` to a successful scan; errors pass through. */
  function Prefixed(args: seq<Arg>, r: Result<ArgScan>): Result<ArgScan>
  {
    if r.Ok? then Ok(ArgScan(args + r.value.args, r.value.rest)) else r
  }

  lemma PrefixedNothing(r: Result<ArgScan>)
    ensures Prefixed([], r) == r
  {
    if r.Ok? {
      assert [] + r.value.args == r.value.args;
    }
  }

  lemma PrefixedTwice(args: seq<Arg>, a: Arg, r: Result<ArgScan>)
    ensures Prefixed(args, Prefixed([a], r)) == Prefixed(args + [a], r)
  {
    if r.Ok? {
      assert args + ([a] + r.value.args) == (args + [a]) + r.value.args;
    }
  }

  /** `Format::parse` as the source runs it: a loop that consumes commas and
      pushes each classified argument onto a growing list. */
  method ParseFormat(input: seq<Token>) returns (r: Result<Parsed>)
    ensures r == ParseFormatSpec(input)
  {
    var template :- ParseTemplate(input);
    var arguments: seq<Arg> := [];
    var pos := 1;
    assert input[1..] == input[pos..];
    PrefixedNothing(ScanArguments(input[1..]));
    while pos < |input| && input[pos].Comma?
      invariant 1 <= pos <= |input|
      invariant ScanArguments(input[1..]) == Prefixed(arguments, ScanArguments(input[pos..]))
      decreases |input| - pos
    {
      ScanStep(input, pos);
      var arg :- ParseArg(input[pos + 1..]);
      PrefixedTwice(arguments, arg, ScanArguments(input[pos + 2..]));
      arguments := arguments + [arg];
      pos := pos + 2;
    }
    ScanStop(input, pos);
    assert arguments + [] == arguments;
    arguments := arguments + [Filler];
    if |arguments| != |template| {
      return Err(WrongArity(|template| - 1, |arguments| - 1));
    }
    return Ok(Parsed(Format(template, arguments), input[pos..]));
  }

  /** One turn of the loop: a comma at `pos` and the argument after it. */
  lemma ScanStep(input: seq<Token>, pos: nat)
    requires pos < |input| && input[pos].Comma?
    ensures ParseArg(input[pos + 1..]).Err? ==>
      ScanArguments(input[pos..]) == Err(ParseArg(input[pos + 1..]).error)
    ensures ParseArg(input[pos + 1..]).Ok? ==>
      && pos + 2 <= |input|
      && ScanArguments(input[pos..]) == Prefixed([ParseArg(input[pos + 1..]).value], ScanArguments(input[pos + 2..]))
  {
    assert input[pos..][1..] == input[pos + 1..];
    if ParseArg(input[pos + 1..]).Ok? {
      assert input[pos..][2..] == input[pos + 2..];
    }
  }

  /** The loop stops at the first token that is not a comma. */
  lemma ScanStop(input: seq<Token>, pos: nat)
    requires pos <= |input|
    requires pos == |input| || !input[pos].Comma?
    ensures ScanArguments(input[pos..]) == Ok(ArgScan([], input[pos..]))
  {
  }

  // ---------------------------------------------------------------------
  // Properties of the parse

  /** Without a string literal first there is no format, and the error is
      the missing-template one; no other input yields that error. */
  lemma MissingTemplateIff(input: seq<Token>)
    ensures ParseFormatSpec(input) == Err(MissingTemplate) <==> (|input| == 0 || !input[0].LitStr?)
  {
  }

  /** A successful parse ends with exactly one filler, and the filler
      occurs nowhere else; there is one argument per segment. */
  lemma FillerOnlyAtEnd(input: seq<Token>)
    requires ParseFormatSpec(input).Ok?
    ensures var args := ParseFormatSpec(input).value.format.arguments;
      && |args| >= 1
      && args[|args| - 1] == Filler
      && forall i :: 0 <= i < |args| - 1 ==> args[i] != Filler
    ensures var f := ParseFormatSpec(input).value.format;
      |f.arguments| == |f.template| == Occurrences(input[0].value) + 1
  {
  }

  /** Once the template and every argument are accepted, the parse
      succeeds exactly when there is one argument per placeholder, and
      otherwise reports the placeholder count and the argument count. */
  lemma {:induction false} ArityIff(input: seq<Token>)
    requires |input| > 0 && input[0].LitStr?
    requires ScanArguments(input[1..]).Ok?
    ensures var n := |ScanArguments(input[1..]).value.args|;
      var k := Occurrences(input[0].value);
      && (ParseFormatSpec(input).Ok? <==> n == k)
      && (n != k ==> ParseFormatSpec(input) == Err(WrongArity(k, n)))
  {
    SplitLength(input[0].value);
  }

  /** A classification error ends the parse with that error, before the
      arity is looked at. */
  lemma ArgumentErrorFirst(input: seq<Token>)
    requires |input| > 0 && input[0].LitStr?
    requires ScanArguments(input[1..]).Err?
    ensures ParseFormatSpec(input) == Err(ScanArguments(input[1..]).error)
  {
  }

  // ---------------------------------------------------------------------
  // Well-formed invocations: a template followed by `, arg` pairs

  /** `, a0, a1, ...`, each argument preceded by a comma, followed by
      whatever comes after the last one. */
  function CommaSeparated(args: seq<Token>, tail: seq<Token>): (ts: seq<Token>)
    ensures |ts| == 2 * |args| + |tail|
  {
    if |args| == 0 then tail else [Comma, args[0]] + CommaSeparated(args[1..], tail)
  }

  /** The input `template, a0, a1, ...` followed by whatever comes after. */
  function Invocation(template: string, args: seq<Token>, tail: seq<Token>): seq<Token>
  {
    [LitStr(template)] + CommaSeparated(args, tail)
  }

  lemma InvocationRest(template: string, args: seq<Token>, tail: seq<Token>)
    ensures Invocation(template, args, tail)[1..] == CommaSeparated(args, tail)
    ensures Invocation(template, args, tail)[0] == LitStr(template)
  {
    var rest := CommaSeparated(args, tail);
    assert ([LitStr(template)] + rest)[1..] == rest;
  }

  /** The input after the first `, arg` pair. */
  lemma CommaSeparatedCons(args: seq<Token>, tail: seq<Token>)
    requires |args| > 0
    ensures var ts := CommaSeparated(args, tail);
      && ts[0] == Comma && ts[1..][0] == args[0]
      && ts[2..] == CommaSeparated(args[1..], tail)
  {
    var rest := CommaSeparated(args[1..], tail);
    assert ([Comma, args[0]] + rest)[2..] == rest;
  }

  /** Every argument accepted and no comma after the last one: the loop
      reads all of them in order and stops at the tail. */
  lemma {:induction false} ScanAccepted(args: seq<Token>, tail: seq<Token>)
    requires forall i :: 0 <= i < |args| ==> Accepted(args[i])
    requires |tail| == 0 || !tail[0].Comma?
    ensures ScanArguments(CommaSeparated(args, tail)) == Ok(ArgScan(ClassifiedAll(args), tail))
    decreases |args|
  {
    if |args| > 0 {
      var ts := CommaSeparated(args, tail);
      CommaSeparatedCons(args, tail);
      ParseArgLooksAtHead(ts[1..]);
      ScanAccepted(args[1..], tail);
      ClassifiedAllCons(args);
    }
  }

  lemma ClassifiedAllCons(args: seq<Token>)
    requires |args| > 0
    requires forall i :: 0 <= i < |args| ==> Accepted(args[i])
    ensures ClassifiedAll(args) == [Classified(args[0])] + ClassifiedAll(args[1..])
  {
  }

  /** The first rejected argument decides the outcome, whatever follows it. */
  lemma {:induction false} ScanFirstRejected(args: seq<Token>, j: nat, tail: seq<Token>)
    requires j < |args|
    requires forall i :: 0 <= i < j ==> Accepted(args[i])
    requires !Accepted(args[j])
    ensures ScanArguments(CommaSeparated(args, tail)) == Err(ParseArg([args[j]]).error)
    decreases j
  {
    var ts := CommaSeparated(args, tail);
    CommaSeparatedCons(args, tail);
    ParseArgLooksAtHead(ts[1..]);
    if j > 0 {
      ScanFirstRejected(args[1..], j - 1, tail);
    }
  }

  /** A trailing comma after the last argument is rejected: the classifier
      finds nothing after it. */
  lemma {:induction false} TrailingCommaRejected(args: seq<Token>)
    requires forall i :: 0 <= i < |args| ==> Accepted(args[i])
    ensures ScanArguments(CommaSeparated(args, [Comma])) == Err(InvalidArgument)
    decreases |args|
  {
    var ts := CommaSeparated(args, [Comma]);
    if |args| > 0 {
      CommaSeparatedCons(args, [Comma]);
      ParseArgLooksAtHead(ts[1..]);
      TrailingCommaRejected(args[1..]);
    } else {
      assert ts[1..] == [];
    }
  }

  /** A well-formed invocation parses exactly when the argument count
      matches the placeholder count; the arguments are then the classified
      tokens in order, followed by the filler. */
  lemma InvocationParses(template: string, args: seq<Token>, tail: seq<Token>)
    requires forall i :: 0 <= i < |args| ==> Accepted(args[i])
    requires |tail| == 0 || !tail[0].Comma?
    ensures var r := ParseFormatSpec(Invocation(template, args, tail));
      && (r.Ok? <==> |args| == Occurrences(template))
      && (r.Ok? ==> r.value.format.template == Split(template) && r.value.rest == tail)
      && (r.Ok? ==> r.value.format.arguments == ClassifiedAll(args) + [Filler])
      && (!r.Ok? ==> r == Err(WrongArity(Occurrences(template), |args|)))
  {
    var input := Invocation(template, args, tail);
    InvocationRest(template, args, tail);
    ScanAccepted(args, tail);
    ArityIff(input);
  }

  /** A rejected argument anywhere is reported even when the argument
      count is also wrong. */
  lemma InvocationRejected(template: string, args: seq<Token>, j: nat, tail: seq<Token>)
    requires j < |args|
    requires forall i :: 0 <= i < j ==> Accepted(args[i])
    requires !Accepted(args[j])
    ensures ParseFormatSpec(Invocation(template, args, tail)) == Err(ParseArg([args[j]]).error)
    ensures args[j].OtherExpr? ==> ParseFormatSpec(Invocation(template, args, tail)) == Err(NotALiteral)
    ensures !args[j].OtherExpr? ==> ParseFormatSpec(Invocation(template, args, tail)) == Err(InvalidArgument)
  {
    InvocationRest(template, args, tail);
    ScanFirstRejected(args, j, tail);
  }

  /** The classified form of each of a list of accepted tokens: each prints
      back as its token and none is the filler. */
  function ClassifiedAll(args: seq<Token>): (r: seq<Arg>)
    requires forall i :: 0 <= i < |args| ==> Accepted(args[i])
    ensures |r| == |args|
    ensures forall i :: 0 <= i < |args| ==> ArgTokens(r[i]) == [args[i]] && r[i] != Filler
  {
    seq(|args|, i requires 0 <= i < |args| => Classified(args[i]))
  }
}
