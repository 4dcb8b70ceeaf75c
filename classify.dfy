/**
 * The argument classifier: an argument is an integer, string or boolean
 * literal (tried in that order), or else an expression that must be a
 * macro invocation. Each stage also has its printing side (`to_tokens`),
 * and classification followed by printing gives back the argument's
 * token unchanged.
 */
module Classify {
  import opened Syntax

  predicate IsLiteralToken(t: Token) { t.LitInt? || t.LitStr? || t.LitBool? }

  /** Tokens the classifier accepts as an argument. */
  predicate Accepted(t: Token) { IsLiteralToken(t) || t.MacroCall? }

  /** The tokens an accepted literal prints as (`AcceptedLit::to_tokens`). */
  function LitToken(l: Lit): Token
  {
    match l
    case Int(repr) => LitInt(repr)
    case Str(value) => LitStr(value)
    case Bool(flag) => LitBool(flag)
  }

  /** The tokens an argument prints as (`ArgType::to_tokens`): the filler
      prints nothing. */
  function ArgTokens(a: Arg): (ts: seq<Token>)
    ensures a.Filler? <==> |ts| == 0
  {
    match a
    case Literal(l) => [LitToken(l)]
    case Nested(e) => (match e case Macro(repr) => [MacroCall(repr)] case NonMacro(t) => [t])
    case Filler => []
  }

  /** `AcceptedLit::parse`: peek for an integer, then a string, then a
      boolean literal; nothing is consumed when none is there. */
  function ParseAcceptedLit(ts: seq<Token>): (r: Option<Lit>)
    ensures r.Some? <==> |ts| > 0 && IsLiteralToken(ts[0])
    ensures r.Some? ==> LitToken(r.value) == ts[0]
  {
    if |ts| == 0 then None
    else if ts[0].LitInt? then Some(Int(ts[0].repr))
    else if ts[0].LitStr? then Some(Str(ts[0].value))
    else if ts[0].LitBool? then Some(Bool(ts[0].flag))
    else None
  }

  /** `input.parse::<Expr>()`, reduced to what the classifier observes:
      whether an expression starts here and whether it is a macro call. */
  function ParseExpr(ts: seq<Token>): (r: Option<Expr>)
    ensures r.Some? <==> |ts| > 0 && !ts[0].Comma? && !ts[0].NoExpr?
    ensures r.Some? && r.value.Macro? <==> |ts| > 0 && ts[0].MacroCall?
  {
    if |ts| == 0 then None
    else match ts[0]
      case Comma => None
      case NoExpr(_) => None
      case MacroCall(repr) => Some(Macro(repr))
      case _ => Some(NonMacro(ts[0]))
  }

  /** `ArgType::try_from`: an expression is accepted only when it is a
      macro invocation. */
  function ArgFromExpr(e: Expr): (r: Result<Arg>)
    ensures r.Ok? <==> e.Macro?
    ensures r.Ok? ==> r.value == Nested(e)
    ensures r.Err? ==> r.error == NotALiteral
  {
    if e.Macro? then Ok(Nested(e)) else Err(NotALiteral)
  }

  /** `ArgType::parse`: a literal if one comes next, otherwise an
      expression that must be a macro invocation. Two distinct errors:
      no expression at all, or an expression that is not a macro. */
  function ParseArg(ts: seq<Token>): (r: Result<Arg>)
    ensures r.Ok? <==> |ts| > 0 && Accepted(ts[0])
    ensures r.Ok? ==> ArgTokens(r.value) == [ts[0]]
    ensures r.Ok? ==> (r.value.Literal? <==> IsLiteralToken(ts[0]))
    ensures r.Err? ==> (r.error == NotALiteral <==> |ts| > 0 && ts[0].OtherExpr?)
    ensures r.Err? ==> (r.error == InvalidArgument <==> (|ts| == 0 || ts[0].Comma? || ts[0].NoExpr?))
  {
    match ParseAcceptedLit(ts)
    case Some(lit) => Ok(Literal(lit))
    case None =>
      match ParseExpr(ts)
      case None => Err(InvalidArgument)
      case Some(e) => ArgFromExpr(e)
  }

  /** The argument an accepted token classifies as: it prints back as that
      token, is never the filler, and is a literal exactly when the token is. */
  function Classified(t: Token): (a: Arg)
    requires Accepted(t)
    ensures ArgTokens(a) == [t] && a != Filler
    ensures a.Literal? <==> IsLiteralToken(t)
  {
    ParseArg([t]).value
  }

  /** Classification looks at the next token only, so whatever follows it
      cannot change the outcome. */
  lemma ParseArgLooksAtHead(ts: seq<Token>)
    requires |ts| > 0
    ensures ParseArg(ts) == ParseArg([ts[0]])
  {
  }

  /** Classification and printing are inverse on accepted tokens, and an
      accepted argument is never the filler. */
  lemma ClassifyThenPrint(t: Token)
    requires Accepted(t)
    ensures ArgTokens(Classified(t)) == [t]
    ensures Classified(t) != Filler
  {
  }

  /** Conversely, printing a non-filler literal or macro argument and
      classifying the printed token gives the argument back. */
  lemma PrintThenClassify(a: Arg)
    requires a.Literal? || (a.Nested? && a.expr.Macro?)
    ensures |ArgTokens(a)| == 1 && ParseArg(ArgTokens(a)) == Ok(a)
  {
  }
}
