/** The opaque list cursor: URL-safe base64 without padding (section 5 of RFC 4648) over "micros|id". */
module Cursor {
  import opened Common
  import opened Text

  /** A Go string is a string of bytes. */
  predicate IsBytes(s: string) {
    forall i | 0 <= i < |s| :: s[i] < 256 as char
  }

  function Letter(v: int): (c: char)
    requires 0 <= v < 64
  {
    if v < 26 then 'A' + v as char
    else if v < 52 then 'a' + (v - 26) as char
    else if v < 62 then '0' + (v - 52) as char
    else if v == 62 then '-' else '_'
  }

  function LetterValue(c: char): (v: Option<Sextet>) {
    if 'A' <= c <= 'Z' then Some((c - 'A') as int)
    else if 'a' <= c <= 'z' then Some((c - 'a') as int + 26)
    else if '0' <= c <= '9' then Some((c - '0') as int + 52)
    else if c == '-' then Some(62) else if c == '_' then Some(63) else None
  }

  lemma LetterRoundTrip(v: int)
    requires 0 <= v < 64
    ensures LetterValue(Letter(v)) == Some(v) && Letter(v) != '\n' && Letter(v) != '\r'
  {
  }

  type Byte = n: int | 0 <= n < 256
  type Sextet = n: int | 0 <= n < 64

  // The four six-bit groups of three bytes, and the three bytes of four groups
  function Group1(a: Byte): (p: Sextet) { a / 4 }
  function Group2(a: Byte, b: Byte): (q: Sextet) { a % 4 * 16 + b / 16 }
  function Group3(b: Byte, c: Byte): (r: Sextet) { b % 16 * 4 + c / 64 }
  function Group4(c: Byte): (t: Sextet) { c % 64 }
  function Byte1(p: Sextet, q: Sextet): (a: Byte) { p * 4 + q / 16 }
  function Byte2(q: Sextet, r: Sextet): (b: Byte) { q % 16 * 16 + r / 4 }
  function Byte3(r: Sextet, t: Sextet): (c: Byte) { r % 4 * 64 + t }

  lemma GroupsRoundTrip(a: Byte, b: Byte, c: Byte)
    ensures Byte1(Group1(a), Group2(a, b)) == a
    ensures Byte2(Group2(a, b), Group3(b, c)) == b
    ensures Byte3(Group3(b, c), Group4(c)) == c
  {
  }

  function Encode64(s: string): (e: string)
    requires IsBytes(s)
  {
    if s == "" then ""
    else if |s| == 1 then
      var a: Byte := s[0] as int;
      [Letter(Group1(a)), Letter(Group2(a, 0))]
    else if |s| == 2 then
      var a: Byte, b: Byte := s[0] as int, s[1] as int;
      [Letter(Group1(a)), Letter(Group2(a, b)), Letter(Group3(b, 0))]
    else
      var a: Byte, b: Byte, c: Byte := s[0] as int, s[1] as int, s[2] as int;
      [Letter(Group1(a)), Letter(Group2(a, b)), Letter(Group3(b, c)), Letter(Group4(c))] + Encode64(s[3..])
  }

  /** Line breaks in the input are ignored, anything else outside the alphabet is an error. */
  function DropBreaks(e: string): (r: string) {
    if e == "" then "" else if e[0] == '\n' || e[0] == '\r' then DropBreaks(e[1..]) else [e[0]] + DropBreaks(e[1..])
  }

  function DecodeLetters(e: string): (s: Option<string>) {
    if e == "" then Some("")
    else if |e| == 1 || LetterValue(e[0]).None? || LetterValue(e[1]).None? then None
    else
      var p, q := LetterValue(e[0]).value, LetterValue(e[1]).value;
      if |e| == 2 then Some([Byte1(p, q) as char])
      else if LetterValue(e[2]).None? then None
      else
        var r := LetterValue(e[2]).value;
        if |e| == 3 then Some([Byte1(p, q) as char, Byte2(q, r) as char])
        else if LetterValue(e[3]).None? then None
        else
          var t := LetterValue(e[3]).value;
          var rest := DecodeLetters(e[4..]);
          if rest.None? then None
          else Some([Byte1(p, q) as char, Byte2(q, r) as char, Byte3(r, t) as char] + rest.value)
  }

  function Decode64(e: string): (s: Option<string>) {
    DecodeLetters(DropBreaks(e))
  }

  predicate Plain(e: string) {
    forall i | 0 <= i < |e| :: e[i] != '\n' && e[i] != '\r'
  }

  lemma {:induction false} PlainIsKept(e: string)
    requires Plain(e)
    ensures DropBreaks(e) == e
  {
    if e != "" {
      PlainIsKept(e[1..]);
    }
  }

  lemma {:induction false} EncodedIsPlain(s: string)
    requires IsBytes(s)
    ensures Plain(Encode64(s))
  {
    if |s| >= 3 {
      EncodedIsPlain(s[3..]);
    }
  }

  lemma LettersOfThree(s: string, a: Byte, b: Byte, c: Byte)
    requires IsBytes(s) && |s| >= 3 && a == s[0] as int && b == s[1] as int && c == s[2] as int
    ensures var e := Encode64(s);
            && |e| >= 4 && e[4..] == Encode64(s[3..])
            && LetterValue(e[0]) == Some(Group1(a)) && LetterValue(e[1]) == Some(Group2(a, b))
            && LetterValue(e[2]) == Some(Group3(b, c)) && LetterValue(e[3]) == Some(Group4(c))
  {
    LetterRoundTrip(Group1(a));
    LetterRoundTrip(Group2(a, b));
    LetterRoundTrip(Group3(b, c));
    LetterRoundTrip(Group4(c));
  }

  /** One full group of letters decodes to its three bytes. */
  lemma DecodeFour(e: string, a: Byte, b: Byte, c: Byte, rest: string)
    requires |e| >= 4 && DecodeLetters(e[4..]) == Some(rest)
    requires LetterValue(e[0]) == Some(Group1(a)) && LetterValue(e[1]) == Some(Group2(a, b))
    requires LetterValue(e[2]) == Some(Group3(b, c)) && LetterValue(e[3]) == Some(Group4(c))
    ensures DecodeLetters(e) == Some([a as char, b as char, c as char] + rest)
  {
    GroupsRoundTrip(a, b, c);
  }

  lemma FirstThree(s: string, a: Byte, b: Byte, c: Byte)
    requires |s| >= 3 && a == s[0] as int && b == s[1] as int && c == s[2] as int
    ensures [a as char, b as char, c as char] + s[3..] == s
  {
  }

  lemma TwoRoundTrip(s: string, a: Byte, b: Byte)
    requires IsBytes(s) && |s| == 2 && a == s[0] as int && b == s[1] as int
    ensures DecodeLetters(Encode64(s)) == Some(s)
  {
    LetterRoundTrip(Group1(a));
    LetterRoundTrip(Group2(a, b));
    LetterRoundTrip(Group3(b, 0));
    GroupsRoundTrip(a, b, 0);
    assert s == [s[0], s[1]];
  }

  lemma LettersOfOne(s: string, a: Byte)
    requires IsBytes(s) && |s| == 1 && a == s[0] as int
    ensures |Encode64(s)| == 2
    ensures LetterValue(Encode64(s)[0]) == Some(Group1(a)) && LetterValue(Encode64(s)[1]) == Some(Group2(a, 0))
  {
    LetterRoundTrip(Group1(a));
    LetterRoundTrip(Group2(a, 0));
  }

  lemma DecodeTwo(e: string, a: Byte, b: Byte)
    requires |e| == 2 && LetterValue(e[0]) == Some(Group1(a)) && LetterValue(e[1]) == Some(Group2(a, b))
    ensures DecodeLetters(e) == Some([a as char])
  {
    GroupsRoundTrip(a, b, b);
  }

  lemma {:induction false} LettersRoundTrip(s: string)
    requires IsBytes(s)
    ensures DecodeLetters(Encode64(s)) == Some(s)
  {
    if |s| >= 3 {
      LettersRoundTrip(s[3..]);
      LettersOfThree(s, s[0] as int, s[1] as int, s[2] as int);
      DecodeFour(Encode64(s), s[0] as int, s[1] as int, s[2] as int, s[3..]);
      FirstThree(s, s[0] as int, s[1] as int, s[2] as int);
    } else if |s| == 2 {
      TwoRoundTrip(s, s[0] as int, s[1] as int);
    } else if |s| == 1 {
      LettersOfOne(s, s[0] as int);
      DecodeTwo(Encode64(s), s[0] as int, 0);
      assert s == [s[0]];
    }
  }

  function EncodeCursor(micros: int, id: string): (c: string)
    requires IsBytes(FormatInt(micros) + "|" + id)
  {
    Encode64(FormatInt(micros) + "|" + id)
  }

  /** Decodes, splits at the first bar and parses the number; any of the three may fail. */
  function DecodeCursor(c: string): (r: Option<(int, string)>) {
    var raw := Decode64(c);
    if raw.None? then None
    else
      var i := IndexOf(raw.value, '|');
      if i == |raw.value| then None
      else
        var micros := ParseInt(raw.value[..i]);
        if micros.None? then None else Some((micros.value, raw.value[i + 1..]))
  }

  lemma FormatIsPlain(n: int)
    ensures IsBytes(FormatInt(n)) && '|' !in FormatInt(n)
  {
    assert forall i | 0 <= i < |FormatInt(n)| :: IsDigit(FormatInt(n)[i]) || FormatInt(n)[i] == '-';
  }

  /** Every key survives the trip, also when the id itself contains bars, and no key encodes to the empty cursor. */
  lemma CursorRoundTrip(micros: int, id: string)
    requires MIN_INT64 <= micros <= MAX_INT64 && IsBytes(id)
    ensures IsBytes(FormatInt(micros) + "|" + id)
    ensures DecodeCursor(EncodeCursor(micros, id)) == Some((micros, id))
    ensures EncodeCursor(micros, id) != ""
  {
    FormatIsPlain(micros);
    var text := FormatInt(micros) + "|" + id;
    EncodedIsPlain(text);
    PlainIsKept(Encode64(text));
    LettersRoundTrip(text);
    ParseFormat(micros);
    var i := IndexOf(text, '|');
    assert text[|FormatInt(micros)|] == '|';
    assert i == |FormatInt(micros)|;
    assert text[..i] == FormatInt(micros) && text[i + 1..] == id;
  }
}
