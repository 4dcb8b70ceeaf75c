/**
 * The vocabulary shared by every stage of the `const_format!` expander:
 * the input alphabet the macro reads, the classified argument forms, the
 * errors it reports and the result type that carries them.
 */
module Syntax {

  /** One unit of the macro's input stream.
      Literal units and `Comma` are single lexical tokens; `LitInt` keeps
      its source text, which may carry a minus sign or a suffix. `MacroCall`
      and `OtherExpr` stand for a whole expression that does not begin with
      an integer, string or boolean literal (`a_macro!()`, `'c'`, `1.5`,
      `x + 1`), as the expression parser would consume it. `NoExpr` is a
      token at which no expression can begin (`;`, `=>`). */
  datatype Token =
    | LitStr(value: string)
    | LitInt(repr: string)
    | LitBool(flag: bool)
    | Comma
    | MacroCall(repr: string)
    | OtherExpr(repr: string)
    | NoExpr(repr: string)

  /** The accepted literal forms, kept as written (not evaluated). */
  datatype Lit = Int(repr: string) | Str(value: string) | Bool(flag: bool)

  /** A parsed expression: only the distinction "macro invocation or not"
      matters to the expander. */
  datatype Expr = Macro(repr: string) | NonMacro(source: Token)

  /** A classified argument. `Filler` is the zero-width sentinel appended
      after the user's arguments. */
  datatype Arg = Literal(lit: Lit) | Nested(expr: Expr) | Filler

  /** The diagnostics the expander can raise. */
  datatype Error =
    | MissingTemplate
    | InvalidArgument
    | NotALiteral
    | WrongArity(expected: nat, found: nat)

  datatype Option<+T> = None | Some(value: T)

  datatype Result<+T> = Ok(value: T) | Err(error: Error) {
    predicate IsFailure() { Err? }

    function PropagateFailure<U>(): Result<U>
      requires Err?
    {
      Err(error)
    }

    function Extract(): T
      requires Ok?
    {
      value
    }
  }
}
