/**
 * The text of each diagnostic. The arity diagnostic prints two counts in
 * decimal, so this module also holds the decimal rendering of a natural
 * number together with its inverse.
 */
module Diagnostics {
  import opened Syntax

  /** Suffix that every argument diagnostic carries. */
  const Anecdote: string := " (Same constraints as `concat!`)"

  predicate IsDigit(c: char) { '0' <= c <= '9' }

  predicate AllDigits(s: string) { forall i :: 0 <= i < |s| ==> IsDigit(s[i]) }

  function DigitChar(d: nat): (c: char)
    requires d < 10
    ensures IsDigit(c) && c as int - '0' as int == d
  {
    ('0' as int + d) as char
  }

  /** Decimal rendering of `n`, as Rust's `Display` for `usize` prints it. */
  function Decimal(n: nat): (s: string)
    ensures |s| >= 1 && AllDigits(s)
    ensures |s| > 1 ==> s[0] != '0'
  {
    if n < 10 then [DigitChar(n)] else Decimal(n / 10) + [DigitChar(n % 10)]
  }

  /** Value of a string of decimal digits. */
  function DecimalValue(s: string): nat
    requires AllDigits(s)
  {
    if |s| == 0 then 0
    else 10 * DecimalValue(s[..|s| - 1]) + (s[|s| - 1] as int - '0' as int)
  }

  lemma {:induction false} DecimalRoundTrip(n: nat)
    ensures DecimalValue(Decimal(n)) == n
  {
    var s := Decimal(n);
    if n >= 10 {
      DecimalRoundTrip(n / 10);
      assert s[..|s| - 1] == Decimal(n / 10);
    }
  }

  lemma DecimalInjective(m: nat, n: nat)
    requires Decimal(m) == Decimal(n)
    ensures m == n
  {
    DecimalRoundTrip(m);
    DecimalRoundTrip(n);
  }

  /** The message the user sees for each error. */
  function Message(e: Error): string
  {
    match e
    case MissingTemplate => MissingTemplateText
    case InvalidArgument => InvalidArgumentText + Anecdote
    case NotALiteral => NotALiteralText + Anecdote
    case WrongArity(expected, found) =>
      ArityPrefix + (Decimal(expected) + AritySeparator + Decimal(found))
  }

  const MissingTemplateText: string :=
    "Requires at least one argument. " + ("Please provide the necessary format " + "string and arguments.")
  const InvalidArgumentText: string := "Invalid argument, must be a literal " + "or macro invocation."
  const NotALiteralText: string := "All arguments must be or " + "expand into literals."
  const ArityPrefix: string := "Wrong number of arguments, expected: "
  const AritySeparator: string := " but found "

  /** Number of leading decimal digits of `s`. */
  function LeadingDigits(s: string): (n: nat)
    ensures n <= |s|
  {
    if |s| > 0 && IsDigit(s[0]) then 1 + LeadingDigits(s[1..]) else 0
  }

  lemma {:induction false} LeadingDigitsOfPrefix(a: string, t: string)
    requires AllDigits(a)
    requires |t| > 0 && !IsDigit(t[0])
    ensures LeadingDigits(a + t) == |a|
  {
    if |a| > 0 {
      assert (a + t)[1..] == a[1..] + t;
      LeadingDigitsOfPrefix(a[1..], t);
    } else {
      assert a + t == t;
    }
  }

  /** A digit string followed by a separator that begins with a non-digit
      can be split back unambiguously. */
  lemma SplitAtSeparator(a: string, b: string, sep: string, c: string, d: string)
    requires AllDigits(a) && AllDigits(c)
    requires |sep| > 0 && !IsDigit(sep[0])
    requires a + sep + b == c + sep + d
    ensures a == c && b == d
  {
    var lhs := a + sep + b;
    assert lhs == a + (sep + b) == c + (sep + d);
    LeadingDigitsOfPrefix(a, sep + b);
    LeadingDigitsOfPrefix(c, sep + d);
    assert a == lhs[..|a|] == c;
    assert b == lhs[|a| + |sep|..] == d;
  }

  /** Two arity diagnostics with the same text report the same counts:
      the expected and found numbers can be read back from the message. */
  lemma ArityMessageDeterminesCounts(e1: nat, f1: nat, e2: nat, f2: nat)
    requires Message(WrongArity(e1, f1)) == Message(WrongArity(e2, f2))
    ensures e1 == e2 && f1 == f2
  {
    DropCommonPrefix(ArityPrefix, Decimal(e1) + AritySeparator + Decimal(f1), Decimal(e2) + AritySeparator + Decimal(f2));
    SplitAtSeparator(Decimal(e1), Decimal(f1), AritySeparator, Decimal(e2), Decimal(f2));
    DecimalInjective(e1, e2);
    DecimalInjective(f1, f2);
  }

  lemma DropCommonPrefix(p: string, x: string, y: string)
    requires p + x == p + y
    ensures x == y
  {
    assert x == (p + x)[|p|..];
    assert y == (p + y)[|p|..];
  }

  /** The diagnostics are told apart by their text: different errors never
      print the same message. */
  lemma MessageInjective(e1: Error, e2: Error)
    requires Message(e1) == Message(e2)
    ensures e1 == e2
  {
    MessageInitial(e1);
    MessageInitial(e2);
    if e1.WrongArity? && e2.WrongArity? {
      ArityMessageDeterminesCounts(e1.expected, e1.found, e2.expected, e2.found);
    }
  }

  /** Each kind of diagnostic begins with its own letter. */
  lemma MessageInitial(e: Error)
    ensures |Message(e)| > 0
    ensures Message(e)[0] == Initial(e)
  {
    match e
    case MissingTemplate =>
      TextInitials();
    case InvalidArgument =>
      TextInitials();
      FirstOfConcat(InvalidArgumentText, Anecdote);
    case NotALiteral =>
      TextInitials();
      FirstOfConcat(NotALiteralText, Anecdote);
    case WrongArity(expected, found) =>
      TextInitials();
      FirstOfConcat(ArityPrefix, Decimal(expected) + AritySeparator + Decimal(found));
  }

  function Initial(e: Error): char
  {
    match e
    case MissingTemplate => 'R'
    case InvalidArgument => 'I'
    case NotALiteral => 'A'
    case WrongArity(_, _) => 'W'
  }

  lemma TextInitials()
    ensures |MissingTemplateText| > 0 && MissingTemplateText[0] == 'R'
    ensures |InvalidArgumentText| > 0 && InvalidArgumentText[0] == 'I'
    ensures |NotALiteralText| > 0 && NotALiteralText[0] == 'A'
    ensures |ArityPrefix| > 0 && ArityPrefix[0] == 'W'
  {
    FirstOfConcat("Requires at least one argument. ", "Please provide the necessary format " + "string and arguments.");
    FirstOfConcat("Invalid argument, must be a literal ", "or macro invocation.");
    FirstOfConcat("All arguments must be or ", "expand into literals.");
  }

  lemma FirstOfConcat(a: string, b: string)
    requires |a| > 0
    ensures |a + b| > 0 && (a + b)[0] == a[0]
  {
  }
}
