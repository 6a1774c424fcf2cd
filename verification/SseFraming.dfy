/**
 * Re-framing of the upstream text stream: lines, trimming, the `data: ` prefix, and the
 * reference meaning of a whole stream of text.
 */
module SseFraming {
  import opened Wrappers
  import opened Json

  const DONE_LINE := "data: [DONE]"
  const DATA_PREFIX := "data: "

  /** A JSON text parser: a partial function from text to values. */
  type Parser = string -> Option<Value>

  predicate IsWhitespace(c: char) {
    || '\U{0009}' <= c <= '\U{000D}'
    || c == '\U{0020}' || c == '\U{0085}' || c == '\U{00A0}' || c == '\U{1680}'
    || '\U{2000}' <= c <= '\U{200A}'
    || c == '\U{2028}' || c == '\U{2029}' || c == '\U{202F}' || c == '\U{205F}' || c == '\U{3000}'
  }

  function TrimStart(s: string): string {
    if s != "" && IsWhitespace(s[0]) then TrimStart(s[1..]) else s
  }

  function TrimEnd(s: string): string {
    if s != "" && IsWhitespace(s[|s| - 1]) then TrimEnd(s[..|s| - 1]) else s
  }

  function Trim(s: string): string {
    TrimEnd(TrimStart(s))
  }

  function StripData(line: string): string {
    if DATA_PREFIX <= line then line[|DATA_PREFIX|..] else line
  }

  /** The leftmost blank-line boundary. */
  function FindBoundary(s: string): (pos: Option<nat>)
    ensures pos.Some? ==> pos.value + 1 < |s| && s[pos.value] == s[pos.value + 1] == '\n'
    ensures forall k :: 0 <= k < |s| - 1 && s[k] == s[k + 1] == '\n' ==> pos.Some? && pos.value <= k
  {
    if |s| < 2 then None
    else if s[0] == s[1] == '\n' then Some(0)
    else
      var rest := FindBoundary(s[1..]);
      assert forall k :: 0 < k < |s| - 1 ==> s[k] == s[1..][k - 1] && s[k + 1] == s[1..][k];
      if rest.Some? then Some(rest.value + 1) else None
  }

  function FindNewline(s: string): (pos: Option<nat>)
    ensures pos.Some? ==> pos.value < |s| && s[pos.value] == '\n' && '\n' !in s[..pos.value]
    ensures pos.None? ==> '\n' !in s
  {
    if s == "" then None
    else if s[0] == '\n' then Some(0)
    else
      var rest := FindNewline(s[1..]);
      assert rest.Some? ==> s[..rest.value + 1] == [s[0]] + s[1..][..rest.value];
      assert s == [s[0]] + s[1..];
      if rest.Some? then Some(rest.value + 1) else None
  }

  function StripCarriageReturn(line: string): string {
    if line != "" && line[|line| - 1] == '\r' then line[..|line| - 1] else line
  }

  /** Newline-terminated lines without their terminator, then the unterminated rest, if any. */
  function Lines(text: string): seq<string> {
    if text == "" then []
    else
      match FindNewline(text)
      case None => [text]
      case Some(i) => [StripCarriageReturn(text[..i])] + Lines(text[i + 1..])
  }

  /** What one line contributes: nothing when blank or unparsable, otherwise one value. */
  function LineValues(parse: Parser, line: string): seq<Value> {
    var trimmed := Trim(line);
    if trimmed == "" then []
    else
      match parse(StripData(trimmed))
      case Some(v) => [v]
      case None => []
  }

  function LinesValues(parse: Parser, lines: seq<string>): seq<Value> {
    if lines == [] then []
    else LinesValues(parse, lines[..|lines| - 1]) + LineValues(parse, lines[|lines| - 1])
  }

  /** The values denoted by a whole text, read line by line without any buffering. */
  function Values(parse: Parser, text: string): seq<Value> {
    LinesValues(parse, Lines(text))
  }

  function Concat(chunks: seq<string>): string {
    if chunks == [] then "" else Concat(chunks[..|chunks| - 1]) + chunks[|chunks| - 1]
  }

  lemma FindNewlineUnique(s: string, i: nat)
    requires i < |s| && s[i] == '\n' && '\n' !in s[..i]
    ensures FindNewline(s) == Some(i)
  {
  }

  /** A newline ends a line whatever follows it, so text can be cut just after one. */
  lemma {:induction false} LinesCut(a: string, b: string)
    ensures Lines(a + "\n" + b) == Lines(a + "\n") + Lines(b)
    decreases |a|
  {
    hide FindNewline, StripCarriageReturn;
    var whole, left := a + "\n" + b, a + "\n";
    match FindNewline(a) {
      case None =>
        assert whole[..|a|] == a == left[..|a|];
        FindNewlineUnique(whole, |a|);
        FindNewlineUnique(left, |a|);
        assert whole[|a| + 1..] == b && left[|a| + 1..] == "";
      case Some(i) =>
        assert whole[..i] == a[..i] == left[..i];
        FindNewlineUnique(whole, i);
        FindNewlineUnique(left, i);
        var rest := a[i + 1..];
        assert whole[i + 1..] == rest + "\n" + b && left[i + 1..] == rest + "\n";
        LinesCut(rest, b);
    }
  }

  lemma {:induction false} LinesValuesConcat(parse: Parser, xs: seq<string>, ys: seq<string>)
    ensures LinesValues(parse, xs + ys) == LinesValues(parse, xs) + LinesValues(parse, ys)
    decreases |ys|
  {
    if ys == [] {
      assert xs + ys == xs;
    } else {
      var n := |ys| - 1;
      assert (xs + ys)[..|xs + ys| - 1] == xs + ys[..n];
      LinesValuesConcat(parse, xs, ys[..n]);
    }
  }

  /** Cutting a text after a newline does not change the values it denotes. */
  lemma ValuesCut(parse: Parser, a: string, b: string)
    requires a == "" || a[|a| - 1] == '\n'
    ensures Values(parse, a + b) == Values(parse, a) + Values(parse, b)
  {
    if a == "" {
      assert a + b == b;
    } else {
      var n := |a| - 1;
      assert a == a[..n] + "\n" && a + b == a[..n] + "\n" + b;
      LinesCut(a[..n], b);
      LinesValuesConcat(parse, Lines(a), Lines(b));
    }
  }

  lemma {:induction false} TrimDropsTrailing(s: string, c: char)
    requires IsWhitespace(c)
    ensures Trim(s + [c]) == Trim(s)
    decreases |s|
  {
    if s == "" {
      assert TrimStart([c]) == TrimStart([c][1..]) == "";
    } else if IsWhitespace(s[0]) {
      assert (s + [c])[1..] == s[1..] + [c];
      TrimDropsTrailing(s[1..], c);
    } else {
      assert (s + [c])[..|s|] == s;
    }
  }

  lemma StrippedLineValues(parse: Parser, line: string)
    ensures LineValues(parse, StripCarriageReturn(line)) == LineValues(parse, line)
  {
    if StripCarriageReturn(line) != line {
      var n := |line| - 1;
      assert line == line[..n] + [line[n]];
      TrimDropsTrailing(line[..n], line[n]);
    }
  }

  lemma FirstLineValues(parse: Parser, line: string, rest: seq<string>)
    ensures LinesValues(parse, [line] + rest) == LineValues(parse, line) + LinesValues(parse, rest)
  {
    LinesValuesConcat(parse, [line], rest);
    assert [line][..0] == [];
    assert LinesValues(parse, [line]) == LineValues(parse, line);
  }

  /** A terminator after the last line adds no value. */
  lemma {:induction false} ValuesTerminated(parse: Parser, a: string)
    ensures Values(parse, a + "\n") == Values(parse, a)
    decreases |a|
  {
    var t := a + "\n";
    match FindNewline(a) {
      case None =>
        assert t[..|a|] == a;
        FindNewlineUnique(t, |a|);
        assert t[|a| + 1..] == "";
        assert Lines(t) == [StripCarriageReturn(a)] + [];
        FirstLineValues(parse, StripCarriageReturn(a), []);
        FirstLineValues(parse, a, []);
        StrippedLineValues(parse, a);
        assert [a] + [] == [a];
      case Some(i) =>
        assert t[..i] == a[..i];
        FindNewlineUnique(t, i);
        assert t[i + 1..] == a[i + 1..] + "\n";
        ValuesTerminated(parse, a[i + 1..]);
        FirstLineValues(parse, StripCarriageReturn(a[..i]), Lines(t[i + 1..]));
        FirstLineValues(parse, StripCarriageReturn(a[..i]), Lines(a[i + 1..]));
    }
  }

  /** Taking a text apart at a blank line loses no value and creates none. */
  lemma ValuesAtBoundary(parse: Parser, raw: string, rest: string)
    ensures Values(parse, raw + "\n\n" + rest) == Values(parse, raw) + Values(parse, rest)
  {
    var a := raw + "\n\n";
    assert a == (raw + "\n") + "\n";
    ValuesCut(parse, a, rest);
    ValuesTerminated(parse, raw + "\n");
    ValuesTerminated(parse, raw);
  }
}
