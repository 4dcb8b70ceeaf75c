/**
 * `Format::tokens`: zip the segments with the arguments, print each pair
 * as `segment, argument`, and join the pairs with commas into the operand
 * list of `concat!`. The filler prints nothing, so the list ends with the
 * last segment and a trailing comma.
 */
module Assemble {
  import opened Syntax
  import opened Template
  import opened Classify
  import opened FormatParse

  /** One element of the zipped sequence: a segment or an argument. */
  datatype Fragment = Segment(text: string) | Argument(arg: Arg)

  function Min(a: nat, b: nat): nat { if a <= b then a else b }

  /** `slots.into_iter().zip(arguments)`, flattened: segment i, then
      argument i, for as many pairs as the shorter list has. */
  function Fragments(segments: seq<string>, args: seq<Arg>): (r: seq<Fragment>)
    ensures |r| == 2 * Min(|segments|, |args|)
    ensures forall i :: 0 <= i < Min(|segments|, |args|) ==>
      r[2 * i] == Segment(segments[i]) && r[2 * i + 1] == Argument(args[i])
  {
    if |segments| == 0 || |args| == 0 then []
    else [Segment(segments[0]), Argument(args[0])] + Fragments(segments[1..], args[1..])
  }

  /** A segment prints as a string literal with its text as value. */
  function FragmentTokens(f: Fragment): seq<Token>
  {
    match f
    case Segment(text) => [LitStr(text)]
    case Argument(a) => ArgTokens(a)
  }

  /** The printed fragments with a comma between consecutive ones: the comma
      inside each pair comes from `quote! { #start, #arg }` and the comma
      between pairs from the `#(#tokens),*` repetition. */
  function Emit(frags: seq<Fragment>): seq<Token>
  {
    if |frags| == 0 then []
    else if |frags| == 1 then FragmentTokens(frags[0])
    else FragmentTokens(frags[0]) + [Comma] + Emit(frags[1..])
  }

  /** The operand list of the generated `concat!`. */
  function FormatTokens(f: Format): seq<Token>
  {
    Emit(Fragments(f.template, f.arguments))
  }

  // ---------------------------------------------------------------------
  // What `concat!` makes of the operand list

  /** The text `concat!` produces for one token: a string literal gives its
      value; any other operand (integer, boolean, macro call) is evaluated
      by the compiler, which `eval` stands for; separators give nothing. */
  function OperandText(t: Token, eval: Token -> string): string
  {
    if t.Comma? then "" else if t.LitStr? then t.value else eval(t)
  }

  function Render(ts: seq<Token>, eval: Token -> string): string
  {
    if |ts| == 0 then "" else OperandText(ts[0], eval) + Render(ts[1..], eval)
  }

  /** The texts of a list of argument tokens. */
  function OperandTexts(ts: seq<Token>, eval: Token -> string): seq<string>
  {
    seq(|ts|, i requires 0 <= i < |ts| => OperandText(ts[i], eval))
  }

  /** The reference meaning of a format: the template with its i-th
      placeholder, counted from the left, replaced by `values[i]`. */
  function Substitute(s: string, values: seq<string>): string
    requires |values| == Occurrences(s)
    decreases |s|
  {
    if |s| < 2 then s
    else if PlaceholderAt(s, 0) then
      OccurrencesAfterPlaceholder(s);
      values[0] + Substitute(s[2..], values[1..])
    else [s[0]] + Substitute(s[1..], values)
  }

  /** `segments[0] + values[0] + segments[1] + ... + segments[k]`. */
  function Interleave(segments: seq<string>, values: seq<string>): string
    requires |segments| == |values| + 1
  {
    if |values| == 0 then segments[0]
    else segments[0] + values[0] + Interleave(segments[1..], values[1..])
  }

  /** The text of each fragment in turn. */
  function FragmentsText(frags: seq<Fragment>, eval: Token -> string): string
  {
    if |frags| == 0 then ""
    else Render(FragmentTokens(frags[0]), eval) + FragmentsText(frags[1..], eval)
  }

  // ---------------------------------------------------------------------
  // Lemmas

  lemma FragmentsCons(segment: string, arg: Arg, segments: seq<string>, args: seq<Arg>)
    ensures Fragments([segment] + segments, [arg] + args)
         == [Segment(segment), Argument(arg)] + Fragments(segments, args)
  {
    assert ([segment] + segments)[1..] == segments;
    assert ([arg] + args)[1..] == args;
  }

  lemma EmitCons(f: Fragment, frags: seq<Fragment>)
    requires |frags| >= 1
    ensures Emit([f] + frags) == FragmentTokens(f) + [Comma] + Emit(frags)
  {
    assert ([f] + frags)[1..] == frags;
  }

  lemma {:induction false} RenderAppend(a: seq<Token>, b: seq<Token>, eval: Token -> string)
    ensures Render(a + b, eval) == Render(a, eval) + Render(b, eval)
    decreases |a|
  {
    if |a| > 0 {
      assert (a + b)[1..] == a[1..] + b;
      RenderAppend(a[1..], b, eval);
    } else {
      assert a + b == b;
    }
  }

  /** The separating commas add no text. */
  lemma {:induction false} RenderEmit(frags: seq<Fragment>, eval: Token -> string)
    ensures Render(Emit(frags), eval) == FragmentsText(frags, eval)
    decreases |frags|
  {
    if |frags| == 1 {
      assert FragmentsText(frags[1..], eval) == "";
    } else if |frags| > 1 {
      var head := FragmentTokens(frags[0]);
      RenderAppend(head + [Comma], Emit(frags[1..]), eval);
      RenderAppend(head, [Comma], eval);
      assert Render([Comma], eval) == "";
      RenderEmit(frags[1..], eval);
    }
  }

  lemma FragmentsTextPair(text: string, a: Arg, tail: seq<Fragment>, eval: Token -> string)
    ensures FragmentsText([Segment(text), Argument(a)] + tail, eval)
         == text + Render(ArgTokens(a), eval) + FragmentsText(tail, eval)
  {
    var frags := [Segment(text), Argument(a)] + tail;
    assert frags[1..] == [Argument(a)] + tail;
    assert frags[1..][1..] == tail;
    assert Render([LitStr(text)], eval) == text;
  }

  lemma {:induction false} FragmentsTextInterleave(segments: seq<string>, args: seq<Arg>, ts: seq<Token>, eval: Token -> string)
    requires |segments| == |args| == |ts| + 1
    requires args[|args| - 1] == Filler
    requires forall i :: 0 <= i < |ts| ==> ArgTokens(args[i]) == [ts[i]]
    ensures FragmentsText(Fragments(segments, args), eval) == Interleave(segments, OperandTexts(ts, eval))
    decreases |ts|
  {
    var tail := Fragments(segments[1..], args[1..]);
    FragmentsTextPair(segments[0], args[0], tail, eval);
    if |ts| == 0 {
      assert ArgTokens(args[0]) == [];
      assert tail == [];
    } else {
      FragmentsTextInterleave(segments[1..], args[1..], ts[1..], eval);
      OperandTextsTail(ts, eval);
    }
  }

  lemma OperandTextsTail(ts: seq<Token>, eval: Token -> string)
    requires |ts| > 0
    ensures Render([ts[0]], eval) == OperandTexts(ts, eval)[0]
    ensures OperandTexts(ts, eval)[1..] == OperandTexts(ts[1..], eval)
  {
  }

  /** Interleaving the segments of a template with values is the template
      with its placeholders replaced by those values. */
  lemma {:induction false} InterleaveSplit(s: string, values: seq<string>)
    requires |values| == Occurrences(s)
    ensures |Split(s)| == |values| + 1 && Interleave(Split(s), values) == Substitute(s, values)
    decreases |s|
  {
    SplitLength(s);
    if |s| < 2 {
    } else if PlaceholderAt(s, 0) {
      OccurrencesAfterPlaceholder(s);
      SplitLength(s[2..]);
      InterleaveSplit(s[2..], values[1..]);
      InterleaveCons("", Split(s[2..]), values);
    } else {
      SplitLength(s[1..]);
      InterleaveSplit(s[1..], values);
      InterleavePrepend(s[0], Split(s[1..]), values);
    }
  }

  lemma InterleaveCons(segment: string, segments: seq<string>, values: seq<string>)
    requires |segments| == |values| >= 1
    ensures Interleave([segment] + segments, values) == segment + values[0] + Interleave(segments, values[1..])
  {
    assert ([segment] + segments)[1..] == segments;
  }

  /** A character in front of the first segment ends up in front of the
      interleaving. */
  lemma InterleavePrepend(c: char, segments: seq<string>, values: seq<string>)
    requires |segments| == |values| + 1
    ensures Interleave([[c] + segments[0]] + segments[1..], values) == [c] + Interleave(segments, values)
  {
    var head := [c] + segments[0];
    if |values| > 0 {
      assert ([head] + segments[1..])[1..] == segments[1..];
      var rest := Interleave(segments[1..], values[1..]);
      assert head + values[0] + rest == [c] + (segments[0] + values[0] + rest);
    }
  }

  /** The printed form of a fragment list whose last element is the filler
      and whose other elements are not: each remaining fragment is one
      token, and every one of them is followed by a comma. */
  lemma {:induction false} EmitShape(frags: seq<Fragment>)
    requires |frags| >= 1 && frags[|frags| - 1] == Argument(Filler)
    requires forall i :: 0 <= i < |frags| - 1 ==> frags[i] != Argument(Filler)
    ensures |Emit(frags)| == 2 * (|frags| - 1)
    ensures forall i :: 0 <= i < |frags| - 1 ==>
      FragmentTokens(frags[i]) == [Emit(frags)[2 * i]] && Emit(frags)[2 * i + 1] == Comma
    decreases |frags|
  {
    if |frags| > 1 {
      var head := FragmentTokens(frags[0]);
      assert |head| == 1 by {
        if frags[0].Argument? {
          assert frags[0].arg != Filler;
        }
      }
      EmitShape(frags[1..]);
      var e := Emit(frags);
      assert e == head + [Comma] + Emit(frags[1..]);
      forall i | 0 <= i < |frags| - 1
        ensures FragmentTokens(frags[i]) == [e[2 * i]] && e[2 * i + 1] == Comma
      {
        if i > 0 {
          assert frags[i] == frags[1..][i - 1];
          assert e[2 * i] == Emit(frags[1..])[2 * (i - 1)];
          assert e[2 * i + 1] == Emit(frags[1..])[2 * (i - 1) + 1];
        }
      }
    }
  }

  /** Segments are never the filler, so the zip holds the filler only
      where the arguments do. */
  lemma {:induction false} FragmentsFillerLast(segments: seq<string>, args: seq<Arg>)
    requires |segments| == |args| >= 1
    requires forall i :: 0 <= i < |args| - 1 ==> args[i] != Filler
    ensures forall i :: 0 <= i < 2 * |args| - 1 ==> Fragments(segments, args)[i] != Argument(Filler)
    decreases |args|
  {
    var tail := Fragments(segments[1..], args[1..]);
    assert Fragments(segments, args) == [Segment(segments[0]), Argument(args[0])] + tail;
    if |args| > 1 {
      FragmentsFillerLast(segments[1..], args[1..]);
      forall i | 2 <= i < 2 * |args| - 1
        ensures Fragments(segments, args)[i] != Argument(Filler)
      {
        assert Fragments(segments, args)[i] == tail[i - 2];
      }
    }
  }

  /** Zipping segments with arguments that end in the filler, and hold it
      nowhere else, gives a list that ends in the filler and holds it
      nowhere else. */
  lemma FragmentsShape(segments: seq<string>, args: seq<Arg>)
    requires |segments| == |args| >= 1
    requires args[|args| - 1] == Filler
    requires forall i :: 0 <= i < |args| - 1 ==> args[i] != Filler
    ensures var frags := Fragments(segments, args);
      && |frags| == 2 * |segments|
      && frags[|frags| - 1] == Argument(Filler)
      && forall i :: 0 <= i < |frags| - 1 ==> frags[i] != Argument(Filler)
  {
    var s := |segments|;
    assert Min(|segments|, |args|) == s;
    assert Fragments(segments, args)[2 * (s - 1) + 1] == Argument(Filler);
    FragmentsFillerLast(segments, args);
  }

  /** Printing such a zip: segment i sits at position 4i, argument i at
      4i + 2, every odd position holds a comma, and the filler prints
      nothing, so the list ends with the last segment and a comma. */
  lemma FormatTokensShape(segments: seq<string>, args: seq<Arg>)
    requires |segments| == |args| >= 1
    requires args[|args| - 1] == Filler
    requires forall i :: 0 <= i < |args| - 1 ==> args[i] != Filler
    ensures var s := |segments|;
      var out := Emit(Fragments(segments, args));
      && |out| == 2 * (2 * s - 1)
      && (forall i :: 0 <= i < 2 * s - 1 ==> out[2 * i + 1] == Comma)
      && (forall i :: 0 <= i < s ==> out[4 * i] == LitStr(segments[i]))
      && (forall i :: 0 <= i < s - 1 ==> [out[4 * i + 2]] == ArgTokens(args[i]))
  {
    var frags := Fragments(segments, args);
    FragmentsShape(segments, args);
    EmitShape(frags);
    OperandPositions(segments, args, frags, Emit(frags));
  }

  /** Where segment i and argument i land in the printed list, given where
      the zip puts them and that every printed fragment but the last is a
      single token followed by a comma. */
  lemma OperandPositions(segments: seq<string>, args: seq<Arg>, frags: seq<Fragment>, out: seq<Token>)
    requires |segments| == |args| >= 1 && |frags| == 2 * |segments|
    requires forall i :: 0 <= i < |segments| ==>
      frags[2 * i] == Segment(segments[i]) && frags[2 * i + 1] == Argument(args[i])
    requires |out| == 2 * (|frags| - 1)
    requires forall j :: 0 <= j < |frags| - 1 ==> FragmentTokens(frags[j]) == [out[2 * j]] && out[2 * j + 1] == Comma
    ensures forall j :: 0 <= j < |frags| - 1 ==> out[2 * j + 1] == Comma
    ensures forall i :: 0 <= i < |segments| ==> out[4 * i] == LitStr(segments[i])
    ensures forall i :: 0 <= i < |segments| - 1 ==> [out[4 * i + 2]] == ArgTokens(args[i])
  {
    forall i | 0 <= i < |segments|
      ensures out[4 * i] == LitStr(segments[i])
    {
      var j := 2 * i;
      assert FragmentTokens(frags[j]) == [out[2 * j]];
    }
    forall i | 0 <= i < |segments| - 1
      ensures [out[4 * i + 2]] == ArgTokens(args[i])
    {
      var j := 2 * i + 1;
      assert FragmentTokens(frags[j]) == [out[2 * j]];
    }
  }

}
