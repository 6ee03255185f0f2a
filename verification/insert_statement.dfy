/**
 * How the statements the ETL executor builds read through its own lexer: which pieces a piece of SQL splits into,
 * that a quoted identifier adds no word, and that nothing but the extract's words stands between the framing words.
 */
module InsertStatement {
  import opened SqlLexer

  // ---------------------------------------------------------------------------------------------
  // Joining two texts

  lemma {:induction false} RunsJoin(a: string, b: string, ma: seq<bool>, mb: seq<bool>)
    requires |a| == |ma| && |b| == |mb| && (b != "" ==> !mb[0])
    ensures Runs(a + b, ma + mb) == Runs(a, ma) + Runs(b, mb)
    decreases |a|
  {
    if a == "" {
      assert a + b == b && ma + mb == mb;
    } else if !ma[0] {
      assert (a + b)[1..] == a[1..] + b && (ma + mb)[1..] == ma[1..] + mb;
      RunsJoin(a[1..], b, ma[1..], mb);
    } else {
      var n := RunLength(ma);
      RunLengthIs(ma + mb, n);
      assert (a + b)[..n] == a[..n] && (a + b)[n..] == a[n..] + b && (ma + mb)[n..] == ma[n..] + mb;
      RunsJoin(a[n..], b, ma[n..], mb);
    }
  }

  /** A byte that no mark has as its second byte. */
  predicate Inert(c: char) {
    c !in "-*/\'\""
  }

  lemma {:induction false} MaskJoin(m: Mode, x: string, y: string)
    requires Inert(Head(y))
    ensures Mask(m, x + y) == Mask(m, x) + Mask(End(m, x), y)
    ensures End(m, x + y) == End(End(m, x), y)
    decreases |x|
  {
    if x == "" {
      assert x + y == y;
    } else {
      var after := After(m, x[0], Head(x[1..]));
      assert (x + y)[1..] == x[1..] + y;
      assert after == After(m, x[0], Head(x[1..] + y));
      MaskJoin(after, x[1..], y);
    }
  }

  /** Reading never stops between the two bytes of a mark. */
  lemma {:induction false} EndsOnAWholeMark(m: Mode, x: string)
    requires m.Skip? ==> x != "" && !m.next.Skip?
    ensures !End(m, x).Skip?
    decreases |x|
  {
    if x != "" {
      EndsOnAWholeMark(After(m, x[0], Head(x[1..])), x[1..]);
    }
  }

  /** The text closes its quotes and its block comments. */
  predicate EndsOutside(s: string) {
    End(Plain, s).Plain? || End(Plain, s).LineComment?
  }

  lemma NewlineReads(m: Mode, s: string)
    requires m.Plain? || m.LineComment?
    ensures Mask(m, "\n" + s) == [false] + Mask(Plain, s)
    ensures End(m, "\n" + s) == End(Plain, s)
  {
    assert ("\n" + s)[1..] == s;
  }

  /** A text that closes its quotes and block comments can be lexed apart from what follows on the next line. */
  lemma LinesLexApart(head: string, s: string)
    requires EndsOutside(head)
    ensures Tokens(head + "\n" + s) == Tokens(head) + Tokens(s)
    ensures End(Plain, head + "\n" + s) == End(Plain, s)
  {
    var y := "\n" + s;
    assert head + "\n" + s == head + y;
    MaskJoin(Plain, head, y);
    NewlineReads(End(Plain, head), s);
    RunsJoin(head, y, Mask(Plain, head), [false] + Mask(Plain, s));
    assert y[1..] == s && ([false] + Mask(Plain, s))[1..] == Mask(Plain, s);
  }

  lemma SwallowedLine(head: string)
    requires !EndsOutside(head)
    ensures Tokens(head + "\n" + "a") == Tokens(head) && Tokens("a") != []
  {
    EndsOnAWholeMark(Plain, head);
    var m := End(Plain, head);
    var y := "\na";
    assert head + "\n" + "a" == head + y && y[1..] == "a" && y[0] == '\n' && "a"[1..] == "";
    MaskJoin(Plain, head, y);
    assert After(m, '\n', 'a') == m;
    assert Mask(m, "a") == [false];
    assert Mask(m, y) == [false, false];
    RunsJoin(head, y, Mask(Plain, head), [false, false]);
    assert [false, false][1..] == [false];
    assert Runs("a", [false]) == [];
    assert Mask(Plain, "a") == [true];
  }

  /** Exactly the texts that close their quotes and block comments lex apart from every next line. */
  lemma LexesApartIff(head: string)
    ensures EndsOutside(head) <==> forall s :: Tokens(head + "\n" + s) == Tokens(head) + Tokens(s)
  {
    if EndsOutside(head) {
      forall s ensures Tokens(head + "\n" + s) == Tokens(head) + Tokens(s) {
        LinesLexApart(head, s);
      }
    } else {
      SwallowedLine(head);
    }
  }

  // ---------------------------------------------------------------------------------------------
  // The pieces of a statement

  /** In front of `rest`, the piece `x` adds just these words and leaves the lexer where it was. */
  ghost predicate Adds(x: string, words: seq<string>, rest: string) {
    && Tokens(x + rest) == words + Tokens(rest)
    && End(Plain, x + rest) == End(Plain, rest)
  }

  lemma AddsBoth(x: string, xs: seq<string>, y: string, ys: seq<string>, rest: string)
    requires Adds(x, xs, y + rest) && Adds(y, ys, rest)
    ensures Adds(x + y, xs + ys, rest)
  {
    assert (x + y) + rest == x + (y + rest);
  }

  /** A byte that separates words and starts no mark. */
  predicate IsPunctuation(c: char) {
    !IsWord(c) && c !in "-/\'\""
  }

  lemma {:induction false} PunctuationAddsNothing(x: string, rest: string)
    requires forall i | 0 <= i < |x| :: IsPunctuation(x[i])
    ensures Adds(x, [], rest)
  {
    if x == "" {
      assert x + rest == rest;
    } else {
      assert (x + rest)[1..] == x[1..] + rest;
      PunctuationAddsNothing(x[1..], rest);
      assert Mask(Plain, x + rest)[1..] == Mask(Plain, x[1..] + rest);
    }
  }

  lemma {:induction false} MaskOfWord(w: string, rest: string)
    requires forall i | 0 <= i < |w| :: IsWord(w[i])
    ensures Mask(Plain, w + rest) == seq(|w|, i => true) + Mask(Plain, rest)
    ensures End(Plain, w + rest) == End(Plain, rest)
  {
    if w == "" {
      assert w + rest == rest;
    } else {
      assert (w + rest)[1..] == w[1..] + rest;
      MaskOfWord(w[1..], rest);
      assert seq(|w|, i => true) == [true] + seq(|w| - 1, i => true);
    }
  }

  /** A word in front of a separator is one token. */
  lemma WordAddsItself(w: string, rest: string)
    requires w != "" && (forall i | 0 <= i < |w| :: IsWord(w[i])) && (rest != "" ==> !IsWord(rest[0]))
    ensures Adds(w, [Lower(w)], rest)
  {
    MaskOfWord(w, rest);
    var n := |w|;
    var mask := Mask(Plain, w + rest);
    RunLengthIs(mask, n);
    assert (w + rest)[..n] == w && (w + rest)[n..] == rest && mask[n..] == Mask(Plain, rest);
  }

  /** pgx's quoting: NUL bytes go, double quotes are doubled. */
  function Escaped(p: string): (e: string) {
    if p == "" then ""
    else (if p[0] == '\0' then "" else if p[0] == '"' then "\"\"" else [p[0]]) + Escaped(p[1..])
  }

  function Quoted(p: string): (q: string) {
    "\"" + (Escaped(p) + "\"")
  }

  /** The bytes of `x` are all hidden when it is read in mode `m` before `rest`, and they end in mode `m'`. */
  ghost predicate Hides(m: Mode, x: string, m': Mode, rest: string) {
    && Mask(m, x + rest) == seq(|x|, i => false) + Mask(m', rest)
    && End(m, x + rest) == End(m', rest)
  }

  lemma HidesOne(m: Mode, c: char, m': Mode, rest: string)
    requires After(m, c, Head(rest)) == m' && (m.Plain? ==> !IsWord(c))
    ensures Hides(m, [c], m', rest)
  {
    assert ([c] + rest)[1..] == rest;
  }

  lemma HidesBoth(m: Mode, x: string, m': Mode, y: string, m'': Mode, rest: string)
    requires Hides(m, x, m', y + rest) && Hides(m', y, m'', rest)
    ensures Hides(m, x + y, m'', rest)
  {
    assert (x + y) + rest == x + (y + rest);
    assert seq(|x + y|, i => false) == seq(|x|, i => false) + seq(|y|, i => false);
  }

  lemma HiddenByte(c: char, e: string, rest: string)
    requires c != '\0' && Hides(DoubleQuote, e, Plain, rest)
    ensures Hides(DoubleQuote, (if c == '"' then "\"\"" else [c]) + e, Plain, rest)
  {
    if c == '"' {
      HidesOne(Skip(DoubleQuote), c, DoubleQuote, e + rest);
      HidesOne(DoubleQuote, c, Skip(DoubleQuote), [c] + (e + rest));
      HidesBoth(DoubleQuote, [c], Skip(DoubleQuote), [c], DoubleQuote, e + rest);
      assert [c] + [c] == "\"\"";
      HidesBoth(DoubleQuote, "\"\"", DoubleQuote, e, Plain, rest);
    } else {
      HidesOne(DoubleQuote, c, DoubleQuote, e + rest);
      HidesBoth(DoubleQuote, [c], DoubleQuote, e, Plain, rest);
    }
  }

  lemma {:induction false} EscapedIsHidden(p: string, rest: string)
    requires Head(rest) != '"'
    ensures Hides(DoubleQuote, Escaped(p) + "\"", Plain, rest)
  {
    if p == "" {
      HidesOne(DoubleQuote, '"', Plain, rest);
      assert Escaped(p) + "\"" == "\"";
    } else {
      EscapedIsHidden(p[1..], rest);
      var e := Escaped(p[1..]) + "\"";
      if p[0] == '\0' {
        assert Escaped(p) + "\"" == e;
      } else {
        HiddenByte(p[0], e, rest);
        assert Escaped(p) + "\"" == (if p[0] == '"' then "\"\"" else [p[0]]) + e;
      }
    }
  }

  lemma {:induction false} HiddenRuns(x: string, rest: string, mask: seq<bool>)
    requires |rest| == |mask|
    ensures Runs(x + rest, seq(|x|, i => false) + mask) == Runs(rest, mask)
  {
    if x == "" {
      assert x + rest == rest && seq(|x|, i => false) + mask == mask;
    } else {
      HiddenRuns(x[1..], rest, mask);
      assert (x + rest)[1..] == x[1..] + rest;
      assert (seq(|x|, i => false) + mask)[1..] == seq(|x| - 1, i => false) + mask;
    }
  }

  /** A quoted identifier adds no word, whatever bytes it is made of. */
  lemma QuotedAddsNothing(p: string, rest: string)
    requires Head(rest) != '"'
    ensures Adds(Quoted(p), [], rest)
  {
    var inner := Escaped(p) + "\"";
    HidesOne(Plain, '"', DoubleQuote, inner + rest);
    EscapedIsHidden(p, rest);
    HidesBoth(Plain, "\"", DoubleQuote, inner, Plain, rest);
    HiddenRuns(Quoted(p), rest, Mask(Plain, rest));
  }
}
