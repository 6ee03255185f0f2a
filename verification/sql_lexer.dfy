/**
 * The ETL executor's SQL lexer. A string stands for its bytes, one character each. The reference form says which
 * bytes lie outside quotes and comments and splits those that belong to words into maximal runs.
 */
module SqlLexer {

  datatype Mode =
    | Plain
    | LineComment
    | BlockComment
    | SingleQuote
    | DoubleQuote
    | Skip(next: Mode)   // the second byte of a two-byte mark

  /** unicode.IsLetter or unicode.IsDigit of a byte read as a rune, or an underscore. */
  predicate IsWord(c: char) {
    || 'a' <= c <= 'z' || 'A' <= c <= 'Z' || '0' <= c <= '9' || c == '_'
    || c == '\U{AA}' || c == '\U{B5}' || c == '\U{BA}'
    || ('\U{C0}' <= c <= '\U{FF}' && c != '\U{D7}' && c != '\U{F7}')
  }

  function LowerChar(c: char): (r: char) {
    if 'A' <= c <= 'Z' then c - 'A' + 'a' else c
  }

  function Lower(s: string): (r: string)
    ensures |r| == |s|
  {
    seq(|s|, i requires 0 <= i < |s| => LowerChar(s[i]))
  }

  function Head(s: string): (c: char) {
    if s == "" then '\0' else s[0]
  }

  /** The mode after reading `c` when `next` follows it. */
  function After(m: Mode, c: char, next: char): (r: Mode) {
    match m
    case Plain =>
      if c == '-' && next == '-' then Skip(LineComment)
      else if c == '/' && next == '*' then Skip(BlockComment)
      else if c == '\'' then SingleQuote
      else if c == '"' then DoubleQuote
      else Plain
    case LineComment => if c == '\n' then Plain else LineComment
    case BlockComment => if c == '*' && next == '/' then Skip(Plain) else BlockComment
    case SingleQuote => if c == '\'' then (if next == '\'' then Skip(SingleQuote) else Plain) else SingleQuote
    case DoubleQuote => if c == '"' then (if next == '"' then Skip(DoubleQuote) else Plain) else DoubleQuote
    case Skip(r) => r
  }

  /** Which bytes are word bytes outside quotes and comments. */
  function Mask(m: Mode, s: string): (mask: seq<bool>)
    ensures |mask| == |s|
    decreases |s|
  {
    if s == "" then [] else [m.Plain? && IsWord(s[0])] + Mask(After(m, s[0], Head(s[1..])), s[1..])
  }

  function End(m: Mode, s: string): (r: Mode)
    decreases |s|
  {
    if s == "" then m else End(After(m, s[0], Head(s[1..])), s[1..])
  }

  function RunLength(mask: seq<bool>): (n: nat)
    ensures n <= |mask| && (forall i | 0 <= i < n :: mask[i]) && (n < |mask| ==> !mask[n])
  {
    if mask == [] || !mask[0] then 0 else 1 + RunLength(mask[1..])
  }

  /** The maximal runs of marked bytes, in lower case. */
  function Runs(s: string, mask: seq<bool>): (tokens: seq<string>)
    requires |s| == |mask|
    decreases |s|
  {
    if s == "" then []
    else if !mask[0] then Runs(s[1..], mask[1..])
    else [Lower(s[..RunLength(mask)])] + Runs(s[RunLength(mask)..], mask[RunLength(mask)..])
  }

  function Tokens(s: string): (tokens: seq<string>) {
    Runs(s, Mask(Plain, s))
  }

  // ---------------------------------------------------------------------------------------------
  // The runs are a segmentation

  datatype Span = Span(from: nat, to: nat)

  function RunEnd(mask: seq<bool>, i: nat): (e: nat)
    requires i <= |mask|
    ensures i <= e <= |mask| && (forall j | i <= j < e :: mask[j]) && (e < |mask| ==> !mask[e])
    decreases |mask| - i
  {
    if i == |mask| || !mask[i] then i else RunEnd(mask, i + 1)
  }

  /** The maximal runs from `at` on, as positions. */
  function Spans(mask: seq<bool>, at: nat): (spans: seq<Span>)
    requires at <= |mask|
    decreases |mask| - at
  {
    if at == |mask| then []
    else if !mask[at] then Spans(mask, at + 1)
    else [Span(at, RunEnd(mask, at))] + Spans(mask, RunEnd(mask, at))
  }

  predicate IsRun(mask: seq<bool>, p: Span) {
    && p.from < p.to <= |mask| && (forall i | p.from <= i < p.to :: mask[i])
    && (p.from == 0 || !mask[p.from - 1]) && (p.to == |mask| || !mask[p.to])
  }

  ghost predicate Covered(spans: seq<Span>, i: int) {
    exists k | 0 <= k < |spans| :: spans[k].from <= i < spans[k].to
  }

  /** Each span is a maximal run, they come in order, and together they cover every marked byte. */
  ghost predicate IsSegmentation(mask: seq<bool>, spans: seq<Span>) {
    && (forall k | 0 <= k < |spans| :: IsRun(mask, spans[k]))
    && (forall j, k | 0 <= j < k < |spans| :: spans[j].to < spans[k].from)
    && (forall i {:trigger Covered(spans, i)} | 0 <= i < |mask| && mask[i] :: Covered(spans, i))
  }

  /** The part of a segmentation that starts at `at`. */
  ghost predicate SegmentsFrom(mask: seq<bool>, spans: seq<Span>, at: nat)
    requires at <= |mask|
  {
    && (forall k | 0 <= k < |spans| :: IsRun(mask, spans[k]) && at <= spans[k].from)
    && (forall j, k | 0 <= j < k < |spans| :: spans[j].to < spans[k].from)
    && (forall i {:trigger Covered(spans, i)} | at <= i < |mask| && mask[i] :: Covered(spans, i))
  }

  lemma PrependSpan(mask: seq<bool>, first: Span, rest: seq<Span>, at: nat)
    requires at <= first.from && IsRun(mask, first) && SegmentsFrom(mask, rest, first.to)
    requires forall i | at <= i < first.from :: !mask[i]
    ensures SegmentsFrom(mask, [first] + rest, at)
  {
    var spans := [first] + rest;
    forall j, k | 0 <= j < k < |spans| ensures spans[j].to < spans[k].from {
      assert spans[k] == rest[k - 1] && IsRun(mask, rest[k - 1]);
      if j > 0 {
        assert spans[j] == rest[j - 1];
      } else if first.to < |mask| {
        assert !mask[first.to] && mask[rest[k - 1].from];
      }
    }
    forall i | at <= i < |mask| && mask[i] ensures Covered(spans, i) {
      if i < first.to {
        assert spans[0].from <= i < spans[0].to;
      } else {
        assert Covered(rest, i);
        var k :| 0 <= k < |rest| && rest[k].from <= i < rest[k].to;
        assert spans[k + 1].from <= i < spans[k + 1].to;
      }
    }
  }

  lemma SkipUnmarked(mask: seq<bool>, spans: seq<Span>, at: nat)
    requires at < |mask| && !mask[at] && SegmentsFrom(mask, spans, at + 1)
    ensures SegmentsFrom(mask, spans, at)
  {
  }

  lemma {:induction false} SpansSegment(mask: seq<bool>, at: nat)
    requires at <= |mask| && (at == 0 || at == |mask| || !mask[at - 1] || !mask[at])
    ensures SegmentsFrom(mask, Spans(mask, at), at)
    decreases |mask| - at
  {
    if at < |mask| {
      if !mask[at] {
        SpansSegment(mask, at + 1);
        SkipUnmarked(mask, Spans(mask, at + 1), at);
      } else {
        var end := RunEnd(mask, at);
        SpansSegment(mask, end);
        PrependSpan(mask, Span(at, end), Spans(mask, end), at);
      }
    }
  }

  function Texts(s: string, spans: seq<Span>): (texts: seq<string>)
    requires forall k | 0 <= k < |spans| :: spans[k].from <= spans[k].to <= |s|
  {
    seq(|spans|, k requires 0 <= k < |spans| => Lower(s[spans[k].from..spans[k].to]))
  }

  lemma FirstText(s: string, first: Span, rest: seq<Span>)
    requires first.from <= first.to <= |s| && forall k | 0 <= k < |rest| :: rest[k].from <= rest[k].to <= |s|
    ensures forall k | 0 <= k < |[first] + rest| :: ([first] + rest)[k].from <= ([first] + rest)[k].to <= |s|
    ensures Texts(s, [first] + rest) == [Lower(s[first.from..first.to])] + Texts(s, rest)
  {
  }

  lemma RunEndIs(s: string, mask: seq<bool>, at: nat)
    requires at < |mask| == |s| && mask[at]
    ensures var end := RunEnd(mask, at);
            at < end && Runs(s[at..], mask[at..]) == [Lower(s[at..end])] + Runs(s[end..], mask[end..])
  {
    var end := RunEnd(mask, at);
    var n := end - at;
    RunLengthIs(mask[at..], n);
    assert s[at..][n..] == s[end..] && mask[at..][n..] == mask[end..];
    FirstToken(s[at..], mask[at..], n, s[at..end]);
  }

  lemma RunsSkip(s: string, mask: seq<bool>, at: nat)
    requires at < |mask| == |s| && !mask[at]
    ensures Runs(s[at..], mask[at..]) == Runs(s[at + 1..], mask[at + 1..])
  {
    assert s[at..][1..] == s[at + 1..] && mask[at..][1..] == mask[at + 1..];
  }

  lemma {:induction false} RunsAreTexts(s: string, mask: seq<bool>, at: nat)
    requires |s| == |mask| && at <= |s|
    ensures var spans := Spans(mask, at);
            && (forall k | 0 <= k < |spans| :: spans[k].from <= spans[k].to <= |s|)
            && Runs(s[at..], mask[at..]) == Texts(s, spans)
    decreases |s| - at
  {
    if at < |s| {
      if !mask[at] {
        RunsSkip(s, mask, at);
        RunsAreTexts(s, mask, at + 1);
      } else {
        var end := RunEnd(mask, at);
        RunEndIs(s, mask, at);
        RunsAreTexts(s, mask, end);
        FirstText(s, Span(at, end), Spans(mask, end));
      }
    }
  }

  ghost predicate CutsInto(s: string, mask: seq<bool>, spans: seq<Span>, tokens: seq<string>) {
    && IsSegmentation(mask, spans)
    && (forall k | 0 <= k < |spans| :: spans[k].from <= spans[k].to <= |s|)
    && tokens == Texts(s, spans)
  }

  lemma RunsCut(s: string, mask: seq<bool>)
    requires |s| == |mask|
    ensures CutsInto(s, mask, Spans(mask, 0), Runs(s, mask))
  {
    assert mask[0..] == mask && s[0..] == s;
    SpansSegment(mask, 0);
    RunsAreTexts(s, mask, 0);
  }

  /** The tokens are the texts of the maximal word runs outside quotes and comments, in order and without gaps. */
  lemma TokensAreTheWordRuns(s: string)
    ensures exists spans :: CutsInto(s, Mask(Plain, s), spans, Tokens(s))
  {
    RunsCut(s, Mask(Plain, s));
    assert CutsInto(s, Mask(Plain, s), Spans(Mask(Plain, s), 0), Tokens(s));
  }

  // ---------------------------------------------------------------------------------------------
  // The loop

  function Flush(buffer: string): (r: seq<string>) {
    if buffer == "" then [] else [Lower(buffer)]
  }

  /** What is left to read at `i` with the word bytes just before it still in the buffer. */
  ghost predicate Pending(s: string, mask: seq<bool>, i: nat, buffer: string, tokens: seq<string>)
    requires |s| == |mask|
  {
    && |buffer| <= i <= |s| && buffer == s[i - |buffer|..i]
    && (forall j | i - |buffer| <= j < i :: mask[j])
    && Runs(s, mask) == tokens + Runs(s[i - |buffer|..], mask[i - |buffer|..])
  }

  lemma PendingWord(s: string, mask: seq<bool>, i: nat, buffer: string, tokens: seq<string>)
    requires |s| == |mask| && Pending(s, mask, i, buffer, tokens)
    requires i < |s| && mask[i]
    ensures Pending(s, mask, i + 1, buffer + [s[i]], tokens)
  {
  }

  lemma RunLengthIs(mask: seq<bool>, n: nat)
    requires n <= |mask| && (forall j | 0 <= j < n :: mask[j]) && (n == |mask| || !mask[n])
    ensures RunLength(mask) == n
  {
  }

  /** Flushing at an unmarked byte, or at the end. */
  lemma PendingFlush(s: string, mask: seq<bool>, i: nat, buffer: string, tokens: seq<string>)
    requires |s| == |mask| && Pending(s, mask, i, buffer, tokens)
    requires i == |s| || !mask[i]
    ensures Pending(s, mask, i, "", tokens + Flush(buffer))
  {
    var n := |buffer|;
    if n > 0 {
      var rest, restMask := s[i - n..], mask[i - n..];
      RunLengthIs(restMask, n);
      assert rest[n..] == s[i..] && restMask[n..] == mask[i..];
      FirstToken(rest, restMask, n, buffer);
    }
  }

  lemma FirstToken(s: string, mask: seq<bool>, n: nat, word: string)
    requires 0 < n == |word| <= |s| == |mask| && RunLength(mask) == n && s[..n] == word
    ensures Runs(s, mask) == [Lower(word)] + Runs(s[n..], mask[n..])
  {
  }

  lemma PendingSkip(s: string, mask: seq<bool>, i: nat, tokens: seq<string>)
    requires |s| == |mask| && Pending(s, mask, i, "", tokens)
    requires i < |s| && !mask[i]
    ensures Pending(s, mask, i + 1, "", tokens)
  {
    assert s[i..][1..] == s[i + 1..] && mask[i..][1..] == mask[i + 1..];
  }

  /** The rest of the mask is the mask of the rest. */
  ghost predicate Reads(s: string, mask: seq<bool>, i: nat, m: Mode) {
    i <= |s| == |mask| && mask[i..] == Mask(m, s[i..])
  }

  lemma ReadOne(s: string, mask: seq<bool>, i: nat, m: Mode)
    requires Reads(s, mask, i, m) && i < |s|
    ensures mask[i] == (m.Plain? && IsWord(s[i]))
    ensures Reads(s, mask, i + 1, After(m, s[i], Head(s[i + 1..])))
  {
    var rest := s[i..];
    assert rest[1..] == s[i + 1..] && rest[0] == s[i];
    assert mask[i] == mask[i..][0] && mask[i + 1..] == mask[i..][1..];
    assert Mask(m, rest)[1..] == Mask(After(m, rest[0], Head(rest[1..])), rest[1..]);
  }

  function Next(s: string, i: nat): (c: char)
    requires i < |s|
  {
    if i + 1 < |s| then s[i + 1] else '\0'
  }

  /** The loop stands at `i` in mode `m` with these tokens behind it and this word open. */
  ghost predicate Stands(s: string, mask: seq<bool>, i: nat, m: Mode, buffer: string, tokens: seq<string>) {
    && Reads(s, mask, i, m) && Pending(s, mask, i, buffer, tokens)
    && !m.Skip? && (!m.Plain? ==> buffer == "")
  }

  lemma OnWord(s: string, mask: seq<bool>, i: nat, buffer: string, tokens: seq<string>)
    requires Stands(s, mask, i, Plain, buffer, tokens) && i < |s| && IsWord(s[i])
    ensures Stands(s, mask, i + 1, Plain, buffer + [s[i]], tokens)
  {
    ReadOne(s, mask, i, Plain);
    PendingWord(s, mask, i, buffer, tokens);
  }

  lemma OnOther(s: string, mask: seq<bool>, i: nat, m: Mode, buffer: string, tokens: seq<string>)
    requires Stands(s, mask, i, m, buffer, tokens) && i < |s| && (m.Plain? ==> !IsWord(s[i]))
    requires !After(m, s[i], Next(s, i)).Skip?
    ensures Stands(s, mask, i + 1, After(m, s[i], Next(s, i)), "", tokens + Flush(buffer))
  {
    ReadOne(s, mask, i, m);
    PendingFlush(s, mask, i, buffer, tokens);
    PendingSkip(s, mask, i, tokens + Flush(buffer));
  }

  lemma OnMark(s: string, mask: seq<bool>, i: nat, m: Mode, buffer: string, tokens: seq<string>)
    requires Stands(s, mask, i, m, buffer, tokens) && i + 1 < |s| && After(m, s[i], Next(s, i)).Skip?
    requires !After(m, s[i], Next(s, i)).next.Skip?
    ensures Stands(s, mask, i + 2, After(m, s[i], Next(s, i)).next, "", tokens + Flush(buffer))
  {
    var skip := After(m, s[i], Next(s, i));
    ReadOne(s, mask, i, m);
    ReadOne(s, mask, i + 1, skip);
    PendingFlush(s, mask, i, buffer, tokens);
    PendingSkip(s, mask, i, tokens + Flush(buffer));
    PendingSkip(s, mask, i + 1, tokens + Flush(buffer));
  }

  lemma AtTheEnd(s: string, mask: seq<bool>, m: Mode, buffer: string, tokens: seq<string>)
    requires Stands(s, mask, |s|, m, buffer, tokens)
    ensures Runs(s, mask) == tokens + Flush(buffer)
  {
    PendingFlush(s, mask, |s|, buffer, tokens);
  }

  lemma AtTheStart(s: string)
    ensures Stands(s, Mask(Plain, s), 0, Plain, "", [])
  {
    assert s[0..] == s && Mask(Plain, s)[0..] == Mask(Plain, s);
  }

  /** The four flags of the loop; at most one is up. */
  datatype Flags = Flags(inSingleQuote: bool, inDoubleQuote: bool, inLineComment: bool, inBlockComment: bool) {
    predicate AtMostOne() {
      && (inLineComment ==> !inBlockComment && !inSingleQuote && !inDoubleQuote)
      && (inBlockComment ==> !inSingleQuote && !inDoubleQuote)
      && (inSingleQuote ==> !inDoubleQuote)
    }

    function Mode(): (m: Mode) {
      if inLineComment then LineComment else if inBlockComment then BlockComment
      else if inSingleQuote then SingleQuote else if inDoubleQuote then DoubleQuote else Plain
    }
  }

  /** The reading of the byte at `i`: a word byte joins the buffer, any other flushes it. */
  predicate Moves(s: string, i: nat, m: Mode, b: string, tokens: seq<string>,
                  j: nat, m': Mode, b': string, tokens': seq<string>)
    requires i < |s|
  {
    var after := After(m, s[i], Next(s, i));
    if m.Plain? && IsWord(s[i]) then j == i + 1 && m'.Plain? && b' == b + [s[i]] && tokens' == tokens
    else
      && b' == "" && tokens' == tokens + Flush(b)
      && (if after.Skip? then j == i + 2 <= |s| && m' == after.next else j == i + 1 && m' == after)
  }

  lemma Advance(s: string, mask: seq<bool>, i: nat, m: Mode, b: string, tokens: seq<string>,
                j: nat, m': Mode, b': string, tokens': seq<string>)
    requires i < |s| && Stands(s, mask, i, m, b, tokens) && Moves(s, i, m, b, tokens, j, m', b', tokens')
    ensures i < j <= |s| && Stands(s, mask, j, m', b', tokens')
  {
    if m.Plain? && IsWord(s[i]) {
      OnWord(s, mask, i, b, tokens);
    } else if After(m, s[i], Next(s, i)).Skip? {
      OnMark(s, mask, i, m, b, tokens);
    } else {
      OnOther(s, mask, i, m, b, tokens);
    }
  }

  /** The body of the lexer's loop, for the byte at `i`: it moves on by two over a two-byte mark. */
  method ReadByte(sql: string, i: nat, flags: Flags, b: string, tokens: seq<string>)
    returns (j: nat, flags': Flags, b': string, tokens': seq<string>)
    requires i < |sql| && flags.AtMostOne() && (flags.Mode().Plain? || b == "")
    ensures flags'.AtMostOne()
    ensures Moves(sql, i, flags.Mode(), b, tokens, j, flags'.Mode(), b', tokens')
  {
    j, flags', b', tokens' := i, flags, b, tokens;
    var ch := sql[i];
    var next := '\0';
    if i + 1 < |sql| {
      next := sql[i + 1];
    }
    if flags.inLineComment {
      if ch == '\n' {
        flags' := flags.(inLineComment := false);
      }
    } else if flags.inBlockComment {
      if ch == '*' && next == '/' {
        flags' := flags.(inBlockComment := false);
        j := j + 1;
      }
    } else if flags.inSingleQuote {
      if ch == '\'' {
        if next == '\'' {
          j := j + 1;
        } else {
          flags' := flags.(inSingleQuote := false);
        }
      }
    } else if flags.inDoubleQuote {
      if ch == '"' {
        if next == '"' {
          j := j + 1;
        } else {
          flags' := flags.(inDoubleQuote := false);
        }
      }
    } else if ch == '-' && next == '-' {
      tokens', b' := tokens + Flush(b), "";
      flags' := flags.(inLineComment := true);
      j := j + 1;
    } else if ch == '/' && next == '*' {
      tokens', b' := tokens + Flush(b), "";
      flags' := flags.(inBlockComment := true);
      j := j + 1;
    } else if ch == '\'' {
      tokens', b' := tokens + Flush(b), "";
      flags' := flags.(inSingleQuote := true);
    } else if ch == '"' {
      tokens', b' := tokens + Flush(b), "";
      flags' := flags.(inDoubleQuote := true);
    } else if IsWord(ch) {
      b' := b + [ch];
    } else {
      tokens', b' := tokens + Flush(b), "";
    }
    j := j + 1;
  }

  /** What holds of the loop's variables whenever the byte at `i` is to be read. */
  ghost predicate InLoop(s: string, i: nat, flags: Flags, b: string, tokens: seq<string>) {
    i <= |s| && flags.AtMostOne() && Stands(s, Mask(Plain, s), i, flags.Mode(), b, tokens)
  }

  lemma LoopStarts(s: string)
    ensures InLoop(s, 0, Flags(false, false, false, false), "", [])
  {
    AtTheStart(s);
  }

  lemma LoopEnds(s: string, flags: Flags, b: string, tokens: seq<string>)
    requires InLoop(s, |s|, flags, b, tokens)
    ensures tokens + Flush(b) == Tokens(s)
  {
    AtTheEnd(s, Mask(Plain, s), flags.Mode(), b, tokens);
  }

  /** One turn of the loop keeps what holds of its variables. */
  method ReadOn(sql: string, i: nat, flags: Flags, b: string, tokens: seq<string>)
    returns (j: nat, flags': Flags, b': string, tokens': seq<string>)
    requires InLoop(sql, i, flags, b, tokens) && i < |sql|
    ensures i < j && InLoop(sql, j, flags', b', tokens')
  {
    j, flags', b', tokens' := ReadByte(sql, i, flags, b, tokens);
    Advance(sql, Mask(Plain, sql), i, flags.Mode(), b, tokens, j, flags'.Mode(), b', tokens');
  }

  /** The lexer's one pass: four flags, a word buffer, and a step of two over a two-byte mark. */
  method SqlTokens(sql: string) returns (tokens: seq<string>)
    ensures tokens == Tokens(sql)
  {
    tokens := [];
    var b := "";
    var flags := Flags(false, false, false, false);
    LoopStarts(sql);
    var i := 0;
    while i < |sql|
      invariant 0 <= i <= |sql| && InLoop(sql, i, flags, b, tokens)
    {
      i, flags, b, tokens := ReadOn(sql, i, flags, b, tokens);
    }
    LoopEnds(sql, flags, b, tokens);
    tokens := tokens + Flush(b);
  }
}
