/**
 * The template stage: the first input token must be a string literal, and
 * its value is cut on every occurrence of the two-character placeholder
 * `{}`. Cutting follows Rust's `str::split` with a string pattern: matches
 * are found left to right without overlap, empty pieces are kept at both
 * ends and between adjacent placeholders, and there is no escape for a
 * literal `{}`.
 */
module Template {
  import opened Syntax

  const Placeholder: string := "{}"

  /** `s` has a placeholder starting at position `i`. */
  predicate PlaceholderAt(s: string, i: int) {
    0 <= i && i + 1 < |s| && s[i] == '{' && s[i + 1] == '}'
  }

  predicate PlaceholderFree(s: string) {
    forall i :: 0 <= i < |s| ==> !PlaceholderAt(s, i)
  }

  /** Number of positions at which a placeholder starts. `{}` cannot
      overlap itself, so this is also the number of non-overlapping
      placeholders. */
  function Occurrences(s: string): nat
  {
    if |s| < 2 then 0
    else (if PlaceholderAt(s, 0) then 1 else 0) + Occurrences(s[1..])
  }

  /** `s.split("{}")`. */
  function Split(s: string): (r: seq<string>)
    ensures |r| >= 1
    decreases |s|
  {
    if |s| < 2 then [s]
    else if PlaceholderAt(s, 0) then [""] + Split(s[2..])
    else
      var rest := Split(s[1..]);
      [[s[0]] + rest[0]] + rest[1..]
  }

  /** `segments.join("{}")`. */
  function Join(segments: seq<string>): string
  {
    if |segments| == 0 then ""
    else if |segments| == 1 then segments[0]
    else segments[0] + Placeholder + Join(segments[1..])
  }

  /** `Template::parse`: the template is the first token, which must be a
      string literal; its value is split into segments. */
  function ParseTemplate(input: seq<Token>): (r: Result<seq<string>>)
    ensures r.Ok? <==> |input| > 0 && input[0].LitStr?
    ensures r.Err? ==> r.error == MissingTemplate
    ensures r.Ok? ==> |r.value| == Occurrences(input[0].value) + 1
    ensures r.Ok? ==> Join(r.value) == input[0].value
    ensures r.Ok? ==> forall i :: 0 <= i < |r.value| ==> PlaceholderFree(r.value[i])
  {
    if |input| > 0 && input[0].LitStr? then
      var s := input[0].value;
      SplitLength(s);
      SplitJoin(s);
      SplitSegmentsPlaceholderFree(s);
      Ok(Split(s))
    else
      Err(MissingTemplate)
  }

  // ---------------------------------------------------------------------
  // Properties of Split and Join

  lemma JoinCons(x: string, rest: seq<string>)
    requires |rest| >= 1
    ensures Join([x] + rest) == x + Placeholder + Join(rest)
  {
    assert ([x] + rest)[1..] == rest;
  }

  /** A placeholder right at the front is not counted again one position on. */
  lemma OccurrencesAfterPlaceholder(s: string)
    requires PlaceholderAt(s, 0)
    ensures Occurrences(s) == 1 + Occurrences(s[2..])
  {
    assert s[1..][1..] == s[2..];
    assert !PlaceholderAt(s[1..], 0);
  }

  /** A template with `k` placeholders is cut into `k + 1` segments. */
  lemma {:induction false} SplitLength(s: string)
    ensures |Split(s)| == Occurrences(s) + 1
    decreases |s|
  {
    if |s| < 2 {
    } else if PlaceholderAt(s, 0) {
      SplitLength(s[2..]);
      OccurrencesAfterPlaceholder(s);
    } else {
      SplitLength(s[1..]);
    }
  }

  /** Joining the segments with `{}` gives back the template. */
  lemma {:induction false} SplitJoin(s: string)
    ensures Join(Split(s)) == s
    decreases |s|
  {
    if |s| < 2 {
    } else if PlaceholderAt(s, 0) {
      SplitJoin(s[2..]);
      JoinCons("", Split(s[2..]));
      PlaceholderPrefix(s);
    } else {
      var rest := Split(s[1..]);
      SplitJoin(s[1..]);
      assert rest == [rest[0]] + rest[1..];
      JoinPrepend(s[0], rest[0], rest[1..]);
      assert s == [s[0]] + s[1..];
    }
  }

  lemma PlaceholderPrefix(s: string)
    requires PlaceholderAt(s, 0)
    ensures s == Placeholder + s[2..]
  {
  }

  /** A character put in front of the first segment ends up in front of
      the joined string. */
  lemma JoinPrepend(c: char, head: string, rest: seq<string>)
    ensures Join([[c] + head] + rest) == [c] + Join([head] + rest)
  {
    if |rest| == 0 {
      assert [[c] + head] + rest == [[c] + head];
      assert [head] + rest == [head];
    } else {
      JoinPrependStep(c, head, rest);
    }
  }

  lemma JoinPrependStep(c: char, head: string, rest: seq<string>)
    requires |rest| >= 1
    ensures Join([[c] + head] + rest) == [c] + Join([head] + rest)
  {
    JoinCons([c] + head, rest);
    JoinCons(head, rest);
    PrependAcrossPlaceholder(c, head, Join(rest));
  }

  lemma PrependAcrossPlaceholder(c: char, head: string, tail: string)
    ensures ([c] + head) + Placeholder + tail == [c] + (head + Placeholder + tail)
  {
  }

  /** The first segment is a prefix of the template. */
  lemma {:induction false} SplitHeadIsPrefix(s: string)
    ensures Split(s)[0] <= s
    decreases |s|
  {
    if |s| >= 2 && !PlaceholderAt(s, 0) {
      SplitHeadIsPrefix(s[1..]);
      assert s == [s[0]] + s[1..];
    }
  }

  /** No segment contains a placeholder. */
  lemma {:induction false} SplitSegmentsPlaceholderFree(s: string)
    ensures forall i :: 0 <= i < |Split(s)| ==> PlaceholderFree(Split(s)[i])
    decreases |s|
  {
    if |s| < 2 {
    } else if PlaceholderAt(s, 0) {
      SplitSegmentsPlaceholderFree(s[2..]);
      assert Split(s)[1..] == Split(s[2..]);
    } else {
      var rest := Split(s[1..]);
      SplitSegmentsPlaceholderFree(s[1..]);
      SplitHeadIsPrefix(s[1..]);
      var head := [s[0]] + rest[0];
      forall i | 0 <= i < |head|
        ensures !PlaceholderAt(head, i)
      {
        if i > 0 {
          assert head[i..] == rest[0][i - 1..];
          assert !PlaceholderAt(rest[0], i - 1);
        } else if |rest[0]| > 0 {
          assert rest[0][0] == s[1];
        }
      }
      assert Split(s)[1..] == rest[1..];
    }
  }

  /** A placeholder-free string is a single segment. */
  lemma {:induction false} SplitPlaceholderFree(a: string)
    requires PlaceholderFree(a)
    ensures Split(a) == [a]
    decreases |a|
  {
    if |a| >= 2 {
      assert !PlaceholderAt(a, 0);
      assert forall i :: 0 <= i < |a| - 1 ==> (PlaceholderAt(a[1..], i) <==> PlaceholderAt(a, i + 1));
      SplitPlaceholderFree(a[1..]);
      assert a == [a[0]] + a[1..];
    }
  }

  /** A placeholder-free segment followed by a placeholder is cut off as
      the first segment. */
  lemma {:induction false} SplitAfterSegment(a: string, b: string)
    requires PlaceholderFree(a)
    ensures Split(a + Placeholder + b) == [a] + Split(b)
    decreases |a|
  {
    var s := a + Placeholder + b;
    if |a| == 0 {
      assert s == Placeholder + b;
      assert s[2..] == b;
    } else {
      var a' := a[1..];
      assert forall i :: 0 <= i < |a'| ==> (PlaceholderAt(a', i) <==> PlaceholderAt(a, i + 1));
      assert !PlaceholderAt(s, 0) by {
        if |a'| > 0 {
          assert s[1] == a[1];
          assert !PlaceholderAt(a, 0);
        } else {
          assert s[1] == '{';
        }
      }
      assert s[1..] == a' + Placeholder + b;
      SplitAfterSegment(a', b);
      assert a == [s[0]] + a';
    }
  }

  /** Splitting undoes joining: a non-empty list of placeholder-free
      segments is recovered from its join. Together with SplitJoin and
      SplitSegmentsPlaceholderFree this pins Split down completely. */
  lemma {:induction false} JoinSplit(segments: seq<string>)
    requires |segments| >= 1
    requires forall i :: 0 <= i < |segments| ==> PlaceholderFree(segments[i])
    ensures Split(Join(segments)) == segments
    decreases |segments|
  {
    if |segments| == 1 {
      SplitPlaceholderFree(segments[0]);
    } else {
      var rest := segments[1..];
      JoinSplit(rest);
      SplitAfterSegment(segments[0], Join(rest));
      assert segments == [segments[0]] + rest;
    }
  }
}
