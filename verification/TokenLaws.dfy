/** What the characters of a token stand for (termin_core/expression/predicate.py reads tokens through `str.strip`,
    `json.loads` and `int`). */
module TokenLaws {
  import opened Basics
  import opened Literals
  import CelTrees
  import PredicateCompiler

  // ------------------------------------------------------------ white space

  /** The ASCII white space of `str.strip`: blank, tab to carriage return, and the four separators. */
  predicate IsBlank(c: char) {
    c == ' ' || c as int in {9, 10, 11, 12, 13, 28, 29, 30, 31}
  }

  predicate AllBlank(s: string) {
    forall i :: 0 <= i < |s| ==> IsBlank(s[i])
  }

  /** Stripping takes blanks off the two ends until none is left there. */
  lemma {:induction false} StripIs(s: string) returns (before: string, after: string)
    ensures s == before + Strip(s) + after && AllBlank(before) && AllBlank(after)
    ensures Strip(s) == "" || (!IsBlank(Strip(s)[0]) && !IsBlank(Strip(s)[|Strip(s)| - 1]))
    decreases |s|
  {
    if s != "" && IsSpace(s[0]) {
      before, after := StripIs(s[1..]);
      before := [s[0]] + before;
    } else if s != "" && IsSpace(s[|s| - 1]) {
      before, after := StripIs(s[..|s| - 1]);
      after := after + [s[|s| - 1]];
    } else {
      before, after := "", "";
    }
  }

  // ------------------------------------------------------------ escapes

  /** The letters of JSON's short escapes, and the codes of what they stand for. */
  ghost predicate JsonLetter(letter: char, code: int) {
    (letter, code) in {('"', 34), ('\\', 92), ('/', 47), ('b', 8), ('f', 12), ('n', 10), ('r', 13), ('t', 9)}
  }

  /** A short escape is read as its character and any other letter, but for `u`, refused. */
  lemma JsonEscapeIs(letter: char, code: int, rest: string)
    requires letter != 'u'
    ensures JsonLetter(letter, code) ==>
              DecodeJson(['\\', letter] + rest) == match DecodeJson(rest)
                                                   case Decoded(t) => Decoded([code as char] + t)
                                                   case other => other
    ensures (forall n :: !JsonLetter(letter, n)) ==> DecodeJson(['\\', letter] + rest) == Rejected
  {
    var s := ['\\', letter] + rest;
    assert s[2..] == rest && s[0] == '\\' && s[1] == letter;
    if forall n :: !JsonLetter(letter, n) {
      assert !JsonLetter(letter, 34) && !JsonLetter(letter, 92) && !JsonLetter(letter, 47) && !JsonLetter(letter, 8);
      assert !JsonLetter(letter, 12) && !JsonLetter(letter, 10) && !JsonLetter(letter, 13) && !JsonLetter(letter, 9);
    }
  }

  /** A hexadecimal digit and its value. */
  predicate IsHex(c: char, n: int) {
    0 <= n < 16 && (c == "0123456789abcdef"[n] || c == "0123456789ABCDEF"[n])
  }

  lemma HexDigitIs(c: char, n: int)
    requires IsHex(c, n)
    ensures IsHexDigit(c) && HexDigit(c) == n
  {
  }

  ghost predicate NoHex(c: char) {
    forall n :: !IsHex(c, n)
  }

  lemma NoHexDigit(c: char)
    ensures IsHexDigit(c) <==> exists n :: IsHex(c, n)
  {
    if IsHexDigit(c) {
      assert IsHex(c, HexDigit(c));
    }
    if n :| IsHex(c, n) {
      HexDigitIs(c, n);
    }
  }

  /** `\\u` and four digits is the character of that number, unless it is half a surrogate pair. */
  lemma JsonUnicodeIs(a: char, b: char, c: char, d: char, k: int, l: int, m: int, n: int, rest: string)
    requires IsHex(a, k) && IsHex(b, l) && IsHex(c, m) && IsHex(d, n)
    ensures var code, s := 4096 * k + 256 * l + 16 * m + n, ['\\', 'u', a, b, c, d] + rest;
            if 0xD800 <= code < 0xE000
            then DecodeJson(s) == if DecodeJson(rest) == Rejected then Rejected else LoneSurrogate
            else DecodeJson(s) == match DecodeJson(rest)
                                  case Decoded(t) => Decoded([code as char] + t)
                                  case other => other
  {
    var s := ['\\', 'u', a, b, c, d] + rest;
    HexDigitIs(a, k);
    HexDigitIs(b, l);
    HexDigitIs(c, m);
    HexDigitIs(d, n);
    assert s[6..] == rest && s[2..6] == [a, b, c, d];
    assert HasU4(s) && Hex4(a, b, c, d) == 4096 * k + 256 * l + 16 * m + n;
    hide HexDigit, IsHexDigit, IsHex;
  }

  /** `\\u` without four digits is refused, ... */
  lemma JsonRefusesShortNumbers(s: string)
    requires |s| >= 2 && s[0] == '\\' && s[1] == 'u'
    requires |s| < 6 || exists i :: 2 <= i < 6 && NoHex(s[i])
    ensures DecodeJson(s) == Rejected
  {
    if |s| >= 6 {
      var i :| 2 <= i < 6 && NoHex(s[i]);
      NoHexDigit(s[i]);
      assert s[2..6][i - 2] == s[i];
    }
    hide IsHex;
    assert !HasU4(s) && SharedEscape('u').None?;
  }

  /** ... and so is a quote, a control character or a single backslash. */
  lemma JsonRefuses(s: string)
    requires s != "" && (s[0] == '"' || s[0] < ' ' || s == "\\")
    ensures DecodeJson(s) == Rejected
  {
  }

  /** Every other character stands for itself. */
  lemma JsonPlainIs(c: char, rest: string)
    requires c >= ' ' && c != '"' && c != '\\'
    ensures DecodeJson([c] + rest) == match DecodeJson(rest) case Decoded(t) => Decoded([c] + t) case other => other
  {
    assert ([c] + rest)[1..] == rest;
  }

  /** CEL has the short escapes of JSON but the slash, and five more of its own. */
  ghost predicate CelLetter(letter: char, code: int) {
    (letter, code) in {('"', 34), ('\\', 92), ('b', 8), ('f', 12), ('n', 10), ('r', 13), ('t', 9),
                       ('a', 7), ('v', 11), ('\'', 39), ('`', 96), ('?', 63)}
  }

  lemma CelEscapeIs(letter: char, code: int, rest: string)
    requires CelLetter(letter, code)
    ensures CelEscape(['\\', letter] + rest) == Some((code as char, 2))
  {
    var s := ['\\', letter] + rest;
    assert s[0] == '\\' && s[1] == letter;
  }

  /** Two digits after `x` or `X`, and three octal digits up to 377. */
  lemma CelNumberIs(x: char, a: char, b: char, k: int, l: int, rest: string, c: char, d: char, e: char)
    requires (x == 'x' || x == 'X') && IsHex(a, k) && IsHex(b, l)
    requires '0' <= c <= '3' && '0' <= d <= '7' && '0' <= e <= '7'
    ensures CelEscape(['\\', x, a, b] + rest) == Some(((16 * k + l) as char, 4))
    ensures CelEscape(['\\', c, d, e] + rest)
            == Some(((64 * (c as int - 48) + 8 * (d as int - 48) + (e as int - 48)) as char, 4))
  {
    HexDigitIs(a, k);
    HexDigitIs(b, l);
    var s, t := ['\\', x, a, b] + rest, ['\\', c, d, e] + rest;
    assert s[2..4] == [a, b] && s[1] == x && s[2] == a && s[3] == b;
    assert t[1] == c && t[2] == d && t[3] == e;
  }

  /** `\\u` and four digits, as in JSON. */
  lemma CelUnicodeIs(a: char, b: char, c: char, d: char, k: int, l: int, m: int, n: int, rest: string)
    requires IsHex(a, k) && IsHex(b, l) && IsHex(c, m) && IsHex(d, n)
    ensures var code := 4096 * k + 256 * l + 16 * m + n;
            CelEscape(['\\', 'u', a, b, c, d] + rest)
            == if 0xD800 <= code < 0xE000 then None else Some((code as char, 6))
  {
    var s := ['\\', 'u', a, b, c, d] + rest;
    HexDigitIs(a, k);
    HexDigitIs(b, l);
    HexDigitIs(c, m);
    HexDigitIs(d, n);
    assert s[2..6] == [a, b, c, d] && s[2] == a && s[3] == b && s[4] == c && s[5] == d;
    assert HasU4(s) && Hex4(a, b, c, d) == 4096 * k + 256 * l + 16 * m + n;
    hide HexDigit, IsHexDigit, IsHex;
  }

  /** `\\U` and eight digits; and what CEL does not know after a backslash. */
  lemma CelLongUnicodeIs(hi: string, lo: string, rest: string)
    requires |hi| == |lo| == 4 && AllHex(hi) && AllHex(lo)
    ensures CelEscape("\\U" + hi + lo + rest) ==
            (var code := 0x1_0000 * HexValue(hi) + HexValue(lo);
             if code < 0xD800 || 0xE000 <= code < 0x11_0000 then Some((code as char, 10)) else None)
  {
    var s := "\\U" + hi + lo + rest;
    FourDigits(hi);
    FourDigits(lo);
    assert s[0] == '\\' && s[1] == 'U' && s[2..10] == hi + lo;
    assert s[2] == hi[0] && s[3] == hi[1] && s[4] == hi[2] && s[5] == hi[3];
    assert s[6] == lo[0] && s[7] == lo[1] && s[8] == lo[2] && s[9] == lo[3];
    hide HexDigit, IsHexDigit, HexValue;
  }

  lemma FourDigits(t: string)
    requires |t| == 4
    ensures HexValue(t) == Hex4(t[0], t[1], t[2], t[3])
  {
    assert t[..3][..2] == t[..2] && t[..2][..1] == t[..1] && t[..1][..0] == "";
    assert t[..3][2] == t[2] && t[..2][1] == t[1] && t[..1][0] == t[0];
    assert HexValue(t[..1]) == HexDigit(t[0]);
    assert HexValue(t[..2]) == HexDigit(t[0]) * 16 + HexDigit(t[1]);
    assert HexValue(t[..3]) == HexValue(t[..2]) * 16 + HexDigit(t[2]);
  }

  lemma CelRefuses(s: string)
    requires |s| >= 2 && s[0] == '\\' && forall code :: !CelLetter(s[1], code)
    requires s[1] == 'u' ==> |s| < 6 || !AllHex(s[2..6])
    requires s[1] == 'U' ==> |s| < 10 || !AllHex(s[2..10])
    requires s[1] == 'x' || s[1] == 'X' ==> |s| < 4 || !AllHex(s[2..4])
    requires '0' <= s[1] <= '3' ==> |s| < 4 || !('0' <= s[2] <= '7' && '0' <= s[3] <= '7')
    ensures CelEscape(s) == None
  {
    assert !CelLetter(s[1], 34) && !CelLetter(s[1], 92) && !CelLetter(s[1], 8) && !CelLetter(s[1], 12);
    assert !CelLetter(s[1], 10) && !CelLetter(s[1], 13) && !CelLetter(s[1], 9) && !CelLetter(s[1], 7);
    assert !CelLetter(s[1], 11) && !CelLetter(s[1], 39) && !CelLetter(s[1], 96) && !CelLetter(s[1], 63);
    assert SharedEscape(s[1]).None? && CelOnlyEscape(s[1]).None?;
  }

  // ------------------------------------------------------------ CEL strings

  /** Inside a string delimited by `close` (one quote, or three) a line end may stand only between three, and the
      delimiter nowhere; an escape stands for its character, any other character for itself. */
  lemma CelTextIs(c: char, rest: string, close: string)
    requires close != ""
    ensures DecodeCel("", close) == Some("")
    ensures StartsWith([c] + rest, close) || (|close| == 1 && (c == '\n' || c == '\r')) ==>
              DecodeCel([c] + rest, close) == None && RawText([c] + rest, close) == None
    ensures !StartsWith([c] + rest, close) && !(|close| == 1 && (c == '\n' || c == '\r')) ==>
              && (c != '\\' ==> DecodeCel([c] + rest, close) ==
                                match DecodeCel(rest, close) case None => None case Some(t) => Some([c] + t))
              && (RawText([c] + rest, close).Some? <==> RawText(rest, close).Some?)
  {
    assert ([c] + rest)[1..] == rest;
  }

  lemma CelTextAfterEscape(s: string, close: string)
    requires close != "" && s != "" && s[0] == '\\' && !StartsWith(s, close)
    ensures DecodeCel(s, close) ==
            var e := CelEscape(s);
            if e.None? then None
            else match DecodeCel(s[e.value.1..], close) case None => None case Some(t) => Some([e.value.0] + t)
  {
    hide CelEscape;
  }

  /** A string token: one or three quotes of a kind at both ends, escapes read unless an `r` or `R` stands in front. */
  lemma CelStringsAre(t: string, q: char, r: char)
    requires (q == '"' || q == '\'') && (r == 'r' || r == 'R')
    ensures StringText([q, q, q] + t + [q, q, q]) == DecodeCel(t, [q, q, q])
    ensures StringText([r, q, q, q] + t + [q, q, q]) == RawText(t, [q, q, q])
    ensures q !in t ==>
              StringText([q] + t + [q]) == DecodeCel(t, [q]) && StringText([r, q] + t + [q]) == RawText(t, [q])
  {
    TripleQuoted(t, q);
    hide DecodeCel, RawText;
    var s := [r, q, q, q] + t + [q, q, q];
    assert s[1..] == [q, q, q] + t + [q, q, q] && s[0] == r;
    assert !IsQuote(r) && !IsTripleQuoted(s) && !IsQuoted(s);
    if q !in t {
      SingleQuoted(t, q);
      var u := [r, q] + t + [q];
      assert u[1..] == [q] + t + [q] && u[0] == r && !IsTripleQuoted(u) && !IsQuoted(u);
    }
  }

  lemma TripleQuoted(t: string, q: char)
    requires q == '"' || q == '\''
    ensures var s := [q, q, q] + t + [q, q, q];
            IsTripleQuoted(s) && s[3..|s| - 3] == t && s[..3] == [q, q, q]
  {
    var s := [q, q, q] + t + [q, q, q];
    assert s[|s| - 3..] == [q, q, q] && s[..3] == [q, q, q];
  }

  lemma SingleQuoted(t: string, q: char)
    requires (q == '"' || q == '\'') && q !in t
    ensures var s := [q] + t + [q];
            !IsTripleQuoted(s) && |s| >= 2 && IsQuoted(s) && Inner(s) == t && s[..1] == [q]
  {
    var s := [q] + t + [q];
    if t != "" {
      assert s[1] == t[0] && t[0] in t;
      assert |s| >= 6 ==> s[..3][1] == s[1];
    }
  }

  // ------------------------------------------------------------ hexadecimal and unsigned integers

  lemma HexValueIs(t: string, c: char, n: int)
    requires IsHex(c, n)
    ensures HexValue("") == 0 && HexValue(t + [c]) == 16 * HexValue(t) + n
  {
    HexDigitIs(c, n);
    assert (t + [c])[..|t|] == t;
  }

  /** `0x` and digits is the number of the digits, a minus sign before it negates it, and a `u` behind it, as behind
      decimal digits, makes no difference. */
  lemma CelIntegersAre(t: string, d: string)
    requires AllHex(t) && t != "" && IsDigits(d)
    ensures IntegerText("0x" + t) == Some(HexValue(t)) && IntegerText("-0x" + t) == Some(0 - HexValue(t))
    ensures IntegerText("0x" + t + "u") == Some(HexValue(t)) == IntegerText("0x" + t + "U")
    ensures IntegerText(d + "u") == Some(DigitsValue(d)) == IntegerText(d + "U")
    ensures IntegerText(d) == Some(DigitsValue(d)) && IntegerText("-" + d) == Some(0 - DigitsValue(d))
  {
    HexIs(t);
    SignedIs(t, d);
    UnsignedIs(t, d, 'u');
    UnsignedIs(t, d, 'U');
  }

  lemma HexIs(t: string)
    requires AllHex(t) && t != ""
    ensures IsHexInteger("0x" + t) && !IsInteger("0x" + t) && IntegerText("0x" + t) == Some(HexValue(t))
  {
    var s := "0x" + t;
    assert s[0] == '0' && s[1] == 'x' && s[2..] == t && !IsDigit(s[1]);
  }

  lemma SignedIs(t: string, d: string)
    requires AllHex(t) && t != "" && IsDigits(d)
    ensures IntegerText("-0x" + t) == Some(0 - HexValue(t))
    ensures IntegerText(d) == Some(DigitsValue(d)) && IntegerText("-" + d) == Some(0 - DigitsValue(d))
  {
    HexIs(t);
    var s, m := "-0x" + t, "-" + d;
    assert s[0] == '-' && s[1..] == "0x" + t && s[1] == '0' && s[2] == 'x' && s[1..][1] == 'x' && s[1..][2..] == t;
    assert m[0] == '-' && m[1..] == d;
    assert !IsDigit(s[0]) && !IsDigit(m[0]) && !IsDigit(s[1..][1]) && d[0] != '+' && IsDigit(d[0]);
  }

  lemma UnsignedIs(t: string, d: string, u: char)
    requires AllHex(t) && t != "" && IsDigits(d) && (u == 'u' || u == 'U')
    ensures IntegerText("0x" + t + [u]) == Some(HexValue(t)) && IntegerText(d + [u]) == Some(DigitsValue(d))
  {
    HexIs(t);
    UnsignedEndsPlain("0x" + t, u);
    UnsignedEndsPlain(d, u);
    assert ("0x" + t)[1] == 'x' && ("0x" + t)[2..] == t && !IsDigit('x');
  }

  lemma UnsignedEndsPlain(t: string, u: char)
    requires t != "" && t[0] != '-' && (u == 'u' || u == 'U')
    ensures !IsInteger(t + [u]) && !IsHexInteger(t + [u])
    ensures IntegerText(t + [u]) == if IsDigits(t) then Some(DigitsValue(t))
                                    else if IsHexInteger(t) then Some(HexValue(t[2..])) else None
  {
    var s := t + [u];
    assert s[|s| - 1] == u && s[..|s| - 1] == t && s[0] == t[0] && !IsDigit(u) && !IsHexDigit(u);
    assert |s| >= 3 ==> s[2..][|s| - 3] == u;
    assert s[1..][|s| - 2] == u;
  }

  // ------------------------------------------------------------ words

  /** The six words that are constants, as a token and as a bare name; no other bare name is a value. */
  lemma WordsAre(name: string)
    ensures var ident := CelTrees.Node(CelTrees.Ident, [CelTrees.Token(name)]);
            var value := if name in ["null", "None"] then Some(Null)
                         else if name in ["true", "True"] then Some(Bool(true))
                         else if name in ["false", "False"] then Some(Bool(false)) else None;
            && PredicateCompiler.LiteralOfIdent(ident) ==
               (match value case Some(v) => Success(v) case None => Failure(PredicateCompiler.NotCompilable))
            && (value.Some? ==> ParseTokenLiteral(name) == value)
  {
    assert Strip("null") == "null" && Strip("None") == "None" && Strip("true") == "true" && Strip("True") == "True"
        && Strip("false") == "false" && Strip("False") == "False";
  }

  /** Digits, with a sign in front or not. */
  predicate IsNumber(s: string) {
    OnlyDigits(if s != "" && (s[0] == '+' || s[0] == '-') then s[1..] else s)
  }

  predicate OnlyDigits(t: string) {
    t != "" && forall i :: 0 <= i < |t| ==> '0' <= t[i] <= '9'
  }

  /** How a token without blanks around it is read that is none of the six words: between quotes as its inside, decoded
      if they are double and JSON accepts it; a number as a number; whatever Python might still read as a number is
      left open; everything else is text. */
  lemma TokenIs(s: string)
    requires Strip(s) == s && s !in ["null", "None", "true", "True", "false", "False"]
    ensures var quoted := s != "" && s[0] == s[|s| - 1] && s[0] in "\"'";
            var inside := if |s| < 2 then "" else s[1..|s| - 1];
            ParseTokenLiteral(s) ==
            if quoted && s[0] == '\'' then Some(Str(inside))
            else if quoted then
              match DecodeJson(inside)
              case Decoded(t) => Some(Str(t))
              case Rejected => Some(Str(inside))
              case LoneSurrogate => None
            else if IsInteger(s) then Some(Int(IntegerValue(s)))
            else if forall i :: 0 <= i < |s| ==> '0' <= s[i] <= '9' || s[i] as int > 127 || s[i] in "+-._eEinfatyINFATY"
            then None
            else Some(Str(s))
  {
    hide DecodeJson, IsInteger;
  }

  lemma NumbersAre(s: string)
    ensures IsInteger(s) <==> IsNumber(s)
  {
    forall t ensures OnlyDigits(t) <==> IsDigits(t) {
      if OnlyDigits(t) {
        forall i | 0 <= i < |t| ensures IsDigit(t[i]) {}
      }
      if IsDigits(t) {
        forall i | 0 <= i < |t| ensures '0' <= t[i] <= '9' { assert IsDigit(t[i]); }
      }
    }
    if s != "" && (s[0] == '+' || s[0] == '-') {
      assert !IsDigit(s[0]) && !IsDigits(s);
    }
  }

  /** A sign in front of digits does what it says. */
  lemma SignsAre(d: string)
    requires IsDigits(d)
    ensures IsInteger("-" + d) && IsInteger("+" + d) && IsInteger(d)
    ensures IntegerValue("-" + d) == 0 - DigitsValue(d) && IntegerValue("+" + d) == DigitsValue(d) == IntegerValue(d)
  {
    assert ("-" + d)[1..] == d && ("+" + d)[1..] == d && !IsDigit(("-" + d)[0]) && !IsDigit(("+" + d)[0]);
  }

  lemma DigitsAre(d: string, c: char)
    requires (forall i :: 0 <= i < |d| ==> IsDigit(d[i])) && '0' <= c <= '9'
    ensures forall i :: 0 <= i < |d + [c]| ==> IsDigit((d + [c])[i])
    ensures DigitsValue("") == 0 && DigitsValue(d + [c]) == 10 * DigitsValue(d) + (c as int - '0' as int)
  {
    assert (d + [c])[..|d|] == d;
  }

  /** Blanks around a token do not count. */
  lemma BlanksDoNotCount(s: string, t: string)
    requires Strip(s) == Strip(t)
    ensures ParseTokenLiteral(s) == ParseTokenLiteral(t)
  {
  }
}
