/** Literal tokens: what they mean in CEL, and how `_parse_token_literal` (termin_core/expression/predicate.py) reads
    them. */
module Literals {
  import opened Basics

  // ------------------------------------------------------------ characters and numbers

  predicate IsSpace(c: char) {
    c == ' ' || '\t' <= c <= '\r' || 28 as char <= c <= 31 as char
  }

  /** `str.strip` on ASCII white space. */
  function Strip(s: string): string {
    if s != "" && IsSpace(s[0]) then Strip(s[1..])
    else if s != "" && IsSpace(s[|s| - 1]) then Strip(s[..|s| - 1])
    else s
  }

  predicate IsDigit(c: char) {
    '0' <= c <= '9'
  }

  predicate IsDigits(s: string) {
    s != "" && forall i :: 0 <= i < |s| ==> IsDigit(s[i])
  }

  function DigitsValue(s: string): nat
    requires forall i :: 0 <= i < |s| ==> IsDigit(s[i])
  {
    if s == "" then 0
    else
      assert IsDigit(s[|s| - 1]);
      DigitsValue(s[..|s| - 1]) * 10 + (s[|s| - 1] as int - '0' as int)
  }

  /** An optional sign and digits. */
  predicate IsInteger(s: string) {
    IsDigits(s) || (s != "" && (s[0] == '-' || s[0] == '+') && IsDigits(s[1..]))
  }

  function IntegerValue(s: string): int
    requires IsInteger(s)
  {
    if IsDigits(s) then DigitsValue(s)
    else
      var n: int := DigitsValue(s[1..]);
      if s[0] == '-' then -n else n
  }

  predicate IsHexDigit(c: char) {
    IsDigit(c) || 'a' <= c <= 'f' || 'A' <= c <= 'F'
  }

  function HexDigit(c: char): (n: nat)
    ensures n < 16
  {
    if IsDigit(c) then c as int - '0' as int
    else if 'a' <= c <= 'f' then c as int - 'a' as int + 10
    else if 'A' <= c <= 'F' then c as int - 'A' as int + 10
    else 0
  }

  predicate AllHex(s: string) {
    forall i :: 0 <= i < |s| ==> IsHexDigit(s[i])
  }

  function HexValue(s: string): nat {
    if s == "" then 0 else HexValue(s[..|s| - 1]) * 16 + HexDigit(s[|s| - 1])
  }

  /** `0x` and hexadecimal digits. */
  predicate IsHexInteger(s: string) {
    |s| >= 3 && s[0] == '0' && s[1] == 'x' && AllHex(s[2..])
  }

  // ------------------------------------------------------------ escapes

  function CodePoint(n: nat): Option<char> {
    if n < 0xD800 || 0xE000 <= n < 0x11_0000 then Some(n as char) else None
  }

  function Hex2(a: char, b: char): nat { HexDigit(a) * 16 + HexDigit(b) }

  function Hex4(a: char, b: char, c: char, d: char): nat { Hex2(a, b) * 256 + Hex2(c, d) }

  /** The escapes of one letter that CEL and JSON share. */
  function SharedEscape(c: char): Option<char> {
    match c
    case '"' => Some('"')
    case '\\' => Some('\\')
    case 'b' => Some(8 as char)
    case 'f' => Some(12 as char)
    case 'n' => Some('\n')
    case 'r' => Some('\r')
    case 't' => Some('\t')
    case _ => None
  }

  /** The escapes of one letter that only CEL has. */
  function CelOnlyEscape(c: char): Option<char> {
    match c
    case 'a' => Some(7 as char)
    case 'v' => Some(11 as char)
    case '\'' => Some('\'')
    case '`' => Some('`')
    case '?' => Some('?')
    case _ => None
  }

  predicate IsOctal(c: char, most: char) {
    '0' <= c <= most
  }

  /** Is there a `\u` escape with four hexadecimal digits at the start? */
  predicate HasU4(s: string) {
    |s| >= 6 && s[0] == '\\' && s[1] == 'u' && AllHex(s[2..6])
  }

  function U4(s: string): Option<char>
    requires HasU4(s)
  {
    CodePoint(Hex4(s[2], s[3], s[4], s[5]))
  }

  /** The escape sequence at the start of `s`: the character it stands for, and its length. */
  function CelEscape(s: string): (r: Option<(char, nat)>)
    ensures r.Some? ==> 2 <= r.value.1 <= |s|
  {
    if |s| < 2 || s[0] != '\\' then None
    else if SharedEscape(s[1]).Some? then Some((SharedEscape(s[1]).value, 2))
    else if CelOnlyEscape(s[1]).Some? then Some((CelOnlyEscape(s[1]).value, 2))
    else if s[1] == 'u' then
      if HasU4(s) && U4(s).Some? then Some((U4(s).value, 6)) else None
    else if s[1] == 'U' then
      if |s| >= 10 && AllHex(s[2..10]) then
        var c := CodePoint(Hex4(s[2], s[3], s[4], s[5]) * 0x1_0000 + Hex4(s[6], s[7], s[8], s[9]));
        if c.Some? then Some((c.value, 10)) else None
      else None
    else if s[1] == 'x' || s[1] == 'X' then
      if |s| >= 4 && AllHex(s[2..4]) then Some((Hex2(s[2], s[3]) as char, 4)) else None
    else if |s| >= 4 && IsOctal(s[1], '3') && IsOctal(s[2], '7') && IsOctal(s[3], '7') then
      Some(((HexDigit(s[1]) * 64 + HexDigit(s[2]) * 8 + HexDigit(s[3])) as char, 4))
    else None
  }

  /** The text between the delimiters of a CEL string; `None` when it is not the inside of one. A string with one
      delimiting quote stays on one line. */
  function DecodeCel(s: string, close: string): Option<string>
    requires close != ""
    decreases |s|
  {
    if s == "" then Some("")
    else if StartsWith(s, close) || (|close| == 1 && (s[0] == '\n' || s[0] == '\r')) then None
    else if s[0] == '\\' then
      var e := CelEscape(s);
      if e.None? then None
      else
        match DecodeCel(s[e.value.1..], close)
        case None => None
        case Some(rest) => Some([e.value.0] + rest)
    else
      match DecodeCel(s[1..], close)
      case None => None
      case Some(rest) => Some([s[0]] + rest)
  }

  datatype Json = Decoded(text: string) | Rejected | LoneSurrogate

  /** `json.loads` on the text between two double quotes. Half a surrogate pair is outside this model. */
  function DecodeJson(s: string): Json
    decreases |s|
  {
    if s == "" then Decoded("")
    else if s[0] == '"' || s[0] < ' ' then Rejected
    else if s[0] == '\\' then
      if |s| < 2 then Rejected
      else if HasU4(s) then
        var rest := DecodeJson(s[6..]);
        if U4(s).None? then (if rest.Rejected? then Rejected else LoneSurrogate)
        else if rest.Decoded? then Decoded([U4(s).value] + rest.text)
        else rest
      else
        var c := if s[1] == '/' then Some('/') else SharedEscape(s[1]);
        var rest := DecodeJson(s[2..]);
        if c.None? then Rejected
        else if rest.Decoded? then Decoded([c.value] + rest.text)
        else rest
    else
      var rest := DecodeJson(s[1..]);
      if rest.Decoded? then Decoded([s[0]] + rest.text) else rest
  }

  // ------------------------------------------------------------ strings

  predicate IsQuote(c: char) {
    c == '"' || c == '\''
  }

  predicate IsQuoted(s: string) {
    s != "" && IsQuote(s[0]) && s[|s| - 1] == s[0]
  }

  function Inner(s: string): string {
    if |s| < 2 then "" else s[1..|s| - 1]
  }

  predicate IsTripleQuoted(s: string) {
    |s| >= 6 && IsQuote(s[0]) && s[..3] == [s[0], s[0], s[0]] == s[|s| - 3..]
  }

  /** The text of a raw string, which is taken as it stands. */
  function RawText(s: string, close: string): Option<string>
    requires close != ""
  {
    if s == "" then Some("")
    else if StartsWith(s, close) || (|close| == 1 && (s[0] == '\n' || s[0] == '\r')) then None
    else
      match RawText(s[1..], close)
      case None => None
      case Some(rest) => Some([s[0]] + rest)
  }

  /** The text a CEL string token stands for: quoted or triple-quoted, plain or raw. */
  function StringText(s: string): Option<string> {
    if IsTripleQuoted(s) then DecodeCel(s[3..|s| - 3], s[..3])
    else if |s| >= 2 && IsQuoted(s) then DecodeCel(Inner(s), s[..1])
    else if s != "" && (s[0] == 'r' || s[0] == 'R') then
      var t := s[1..];
      if IsTripleQuoted(t) then RawText(t[3..|t| - 3], t[..3])
      else if |t| >= 2 && IsQuoted(t) then RawText(Inner(t), t[..1])
      else None
    else None
  }

  // ------------------------------------------------------------ what a literal means

  /** Integers, decimal or hexadecimal, signed or unsigned. */
  function IntegerText(s: string): Option<int> {
    if IsInteger(s) && s[0] != '+' then Some(IntegerValue(s))
    else if IsHexInteger(s) then Some(HexValue(s[2..]))
    else if s != "" && s[0] == '-' && IsHexInteger(s[1..]) then Some(0 - HexValue(s[1..][2..]))
    else if s != "" && (s[|s| - 1] == 'u' || s[|s| - 1] == 'U') then
      var t := s[..|s| - 1];
      if IsDigits(t) then Some(DigitsValue(t))
      else if IsHexInteger(t) then Some(HexValue(t[2..]))
      else None
    else None
  }

  /** The value of a CEL literal that is an integer, a boolean, null or a string. */
  function LiteralValue(s: string): Option<Value> {
    if s == "null" then Some(Null)
    else if s == "true" then Some(Bool(true))
    else if s == "false" then Some(Bool(false))
    else if StringText(s).Some? then Some(Str(StringText(s).value))
    else if IntegerText(s).Some? then Some(Int(IntegerText(s).value))
    else None
  }

  // ------------------------------------------------------------ how the compiler reads it

  /** Could Python's `int` or `float` read this although it is not a plain decimal integer? */
  predicate OddNumeral(s: string) {
    forall i :: 0 <= i < |s| ==> IsNumeralChar(s[i])
  }

  predicate IsNumeralChar(c: char) {
    IsDigit(c) || c as int > 127 || c in "+-._eEinfatyINFATY"
  }

  /** `_parse_token_literal`; `None` where Python may yield a float, an oddly written integer or half a surrogate
      pair. */
  function ParseTokenLiteral(text: string): Option<Value> {
    var s := Strip(text);
    if s == "null" || s == "None" then Some(Null)
    else if s == "true" || s == "True" then Some(Bool(true))
    else if s == "false" || s == "False" then Some(Bool(false))
    else if IsQuoted(s) then
      if s[0] == '"' then
        match DecodeJson(Inner(s))
        case Decoded(t) => Some(Str(t))
        case Rejected => Some(Str(Inner(s)))
        case LoneSurrogate => None
      else Some(Str(Inner(s)))
    else if IsInteger(s) then Some(Int(IntegerValue(s)))
    else if OddNumeral(s) then None
    else Some(Str(s))
  }
}

/** Which literals the compiler reads right. */
module LiteralLaws {
  import opened Basics
  import opened Literals

  // ------------------------------------------------------------ the condition

  /** No control character, and only escapes JSON has too. */
  predicate SharedEscapesOnly(s: string)
    decreases |s|
  {
    if s == "" then true
    else if s[0] == '\\' then
      if HasU4(s) then SharedEscapesOnly(s[6..])
      else |s| >= 2 && SharedEscape(s[1]).Some? && SharedEscapesOnly(s[2..])
    else s[0] >= ' ' && SharedEscapesOnly(s[1..])
  }

  /** A string on one line, with no escape at all or between double quotes and with shared escapes only. */
  predicate IsPlainString(s: string) {
    && |s| >= 2 && IsQuoted(s) && DecodeCel(Inner(s), s[..1]).Some?
    && ('\\' !in s || (s[0] == '"' && SharedEscapesOnly(Inner(s))))
  }

  /** A literal both languages read alike. */
  predicate PlainLiteral(s: string) {
    s == "null" || s == "true" || s == "false" || IsPlainString(s) || (IsInteger(s) && s[0] != '+')
  }

  // ------------------------------------------------------------ decoding

  /** Decoding drops at least one character for every escape. */
  lemma {:induction false} DecodingShortens(s: string, close: string)
    requires close != "" && DecodeCel(s, close).Some?
    ensures var t := DecodeCel(s, close).value;
            && |t| <= |s| && ('\\' in s ==> |t| < |s|) && ('\\' !in s ==> t == s)
    decreases |s|
  {
    if s != "" {
      var n := if s[0] == '\\' then CelEscape(s).value.1 else 1;
      DecodingShortens(s[n..], close);
      assert s == s[..n] + s[n..];
    }
  }

  lemma {:induction false} RawTextIsText(s: string, close: string)
    requires close != "" && RawText(s, close).Some?
    ensures RawText(s, close).value == s
  {
    if s != "" {
      RawTextIsText(s[1..], close);
    }
  }

  /** A CEL escape is one of four hexadecimal digits, a letter JSON has too, or nothing JSON knows. */
  lemma EscapeKinds(s: string)
    requires CelEscape(s).Some?
    ensures 2 <= |s| && s[0] == '\\' && s[1] != '/'
    ensures HasU4(s) ==> CelEscape(s).value.1 == 6 && U4(s) == Some(CelEscape(s).value.0)
    ensures !HasU4(s) && SharedEscape(s[1]).Some? ==> CelEscape(s).value == (SharedEscape(s[1]).value, 2)
  {
  }

  /** Between double quotes JSON reads what CEL reads exactly when only shared escapes are used; otherwise it
      refuses. */
  lemma {:induction false} JsonReadsAsCelIff(s: string)
    requires DecodeCel(s, "\"").Some?
    ensures DecodeJson(s) == if SharedEscapesOnly(s) then Decoded(DecodeCel(s, "\"").value) else Rejected
    decreases |s|
  {
    if s != "" {
      hide CelEscape, SharedEscape, HasU4, U4;
      assert s[..1] == [s[0]];
      var n := if s[0] == '\\' then CelEscape(s).value.1 else 1;
      if s[0] == '\\' { EscapeKinds(s); }
      JsonReadsAsCelIff(s[n..]);
    }
  }

  lemma PlainTextInJson(s: string)
    requires '\\' !in s
    ensures DecodeJson(s) == Decoded(s) || DecodeJson(s) == Rejected
    decreases |s|
  {
    if s != "" {
      PlainTextInJson(s[1..]);
    }
  }

  // ------------------------------------------------------------ the tokens, kind by kind

  predicate IsConstant(s: string) {
    s == "null" || s == "true" || s == "false"
  }

  lemma QuotedStandsAlone(s: string)
    requires |s| >= 2 && IsQuoted(s)
    ensures Strip(s) == s && !IsInteger(s) && !IsConstant(s) && s != "None" && s != "True" && s != "False"
    ensures s[0] == '\'' ==> ParseTokenLiteral(s) == Some(Str(Inner(s)))
    ensures s[0] == '"' ==>
              ParseTokenLiteral(s) == match DecodeJson(Inner(s))
                                      case Decoded(t) => Some(Str(t))
                                      case Rejected => Some(Str(Inner(s)))
                                      case LoneSurrogate => None
  {
  }

  lemma QuotedReadsRightIff(s: string)
    requires |s| >= 2 && IsQuoted(s) && DecodeCel(Inner(s), s[..1]).Some?
    ensures ParseTokenLiteral(s).Some?
    ensures ParseTokenLiteral(s) == Some(Str(DecodeCel(Inner(s), s[..1]).value)) <==> IsPlainString(s)
  {
    QuotedStandsAlone(s);
    var t := Inner(s);
    DecodingShortens(t, s[..1]);
    assert '\\' in s <==> '\\' in t by {
      assert s == [s[0]] + t + [s[0]];
    }
    if s[0] == '"' {
      assert s[..1] == "\"";
      JsonReadsAsCelIff(t);
      if '\\' !in t { PlainTextInJson(t); }
    }
  }

  lemma TripleIsMisread(s: string)
    requires IsTripleQuoted(s) && DecodeCel(s[3..|s| - 3], s[..3]).Some?
    ensures ParseTokenLiteral(s).Some? && !IsPlainString(s)
    ensures ParseTokenLiteral(s) != Some(Str(DecodeCel(s[3..|s| - 3], s[..3]).value))
  {
    assert s[1] == s[..3][1] && s[|s| - 1] == s[|s| - 3..][2];
    QuotedStandsAlone(s);
    DecodingShortens(s[3..|s| - 3], s[..3]);
    var t := Inner(s);
    assert t[0] == s[0] && t[..1] == s[..1];
    assert StartsWith(t, s[..1]);
  }

  lemma RawIsMisread(s: string)
    requires s != "" && (s[0] == 'r' || s[0] == 'R') && StringText(s).Some?
    ensures ParseTokenLiteral(s) == Some(Str(s)) && !PlainLiteral(s) && |StringText(s).value| < |s|
  {
    hide StringText, ParseTokenLiteral, PlainLiteral, IsInteger;
    RawEndsInQuote(s, s[1..]);
    RawShortens(s, s[1..]);
    IntegersAreDigits(s, |s| - 1);
    PrefixedIsTakenForText(s);
  }

  lemma RawShortens(s: string, t: string)
    requires s != "" && (s[0] == 'r' || s[0] == 'R') && StringText(s).Some? && t == s[1..]
    ensures |StringText(s).value| < |s|
  {
    if IsTripleQuoted(t) {
      RawTextIsText(t[3..|t| - 3], t[..3]);
    } else {
      RawTextIsText(Inner(t), t[..1]);
    }
  }

  lemma RawEndsInQuote(s: string, t: string)
    requires s != "" && (s[0] == 'r' || s[0] == 'R') && StringText(s).Some? && t == s[1..]
    ensures t != "" && IsQuote(s[|s| - 1]) && (IsTripleQuoted(t) || (|t| >= 2 && IsQuoted(t)))
  {
    if IsTripleQuoted(t) { assert t[|t| - 1] == t[|t| - 3..][2] == t[..3][2]; }
    assert t != "" ==> t[|t| - 1] == s[|s| - 1];
  }

  lemma PrefixedIsTakenForText(s: string)
    requires |s| >= 2 && (s[0] == 'r' || s[0] == 'R') && IsQuote(s[|s| - 1]) && !IsInteger(s)
    ensures ParseTokenLiteral(s) == Some(Str(s)) && !PlainLiteral(s)
  {
    assert Strip(s) == s;
    assert !IsNumeralChar(s[|s| - 1]);
  }

  lemma IntegersAreDigits(s: string, k: nat)
    requires 0 < k < |s|
    ensures IsInteger(s) ==> IsDigit(s[k])
  {
    if IsInteger(s) && !IsDigits(s) {
      assert IsDigit(s[1..][k - 1]);
    }
  }

  /** Anything else that is neither quoted nor a decimal integer is taken for text. */
  lemma OtherIsTakenForText(s: string, k: nat)
    requires s != "" && !IsSpace(s[0]) && !IsSpace(s[|s| - 1]) && (IsDigit(s[0]) || s[0] == '-')
    requires 0 < k < |s| && !IsNumeralChar(s[k])
    ensures ParseTokenLiteral(s) == Some(Str(s)) && !PlainLiteral(s)
  {
    assert Strip(s) == s;
    IntegersAreDigits(s, k);
  }

  lemma HexIsTakenForText(s: string)
    requires IsHexInteger(s) || (s != "" && s[0] == '-' && IsHexInteger(s[1..]))
    ensures ParseTokenLiteral(s) == Some(Str(s)) && !PlainLiteral(s)
  {
    var k := if IsHexInteger(s) then 1 else 2;
    var t := if IsHexInteger(s) then s else s[1..];
    assert s[k] == t[1] == 'x';
    assert IsHexDigit(t[2..][|t| - 3]) && t[2..][|t| - 3] == s[|s| - 1];
    OtherIsTakenForText(s, k);
  }

  lemma UnsignedIsTakenForText(s: string)
    requires s != "" && (s[|s| - 1] == 'u' || s[|s| - 1] == 'U')
    requires IsDigits(s[..|s| - 1]) || IsHexInteger(s[..|s| - 1])
    ensures ParseTokenLiteral(s) == Some(Str(s)) && !PlainLiteral(s)
  {
    assert s[..|s| - 1][0] == s[0] && IsDigit(s[0]);
    OtherIsTakenForText(s, |s| - 1);
  }

  lemma DecimalReadsRight(s: string)
    requires IsInteger(s) && s[0] != '+'
    ensures ParseTokenLiteral(s) == Some(Int(IntegerValue(s))) && StringText(s).None?
  {
    assert IsDigit(s[|s| - 1]) by { if !IsDigits(s) { assert s[1..][|s[1..]| - 1] == s[|s| - 1]; } }
    assert s[0] == '-' || IsDigit(s[0]);
    assert Strip(s) == s;
  }

  lemma ConstantsReadRight()
    ensures ParseTokenLiteral("null") == Some(Null) == LiteralValue("null")
    ensures ParseTokenLiteral("true") == Some(Bool(true)) == LiteralValue("true")
    ensures ParseTokenLiteral("false") == Some(Bool(false)) == LiteralValue("false")
  {
  }

  // ------------------------------------------------------------ the theorem

  /** Of the literals that are integers, booleans, null or strings in CEL the compiler reads exactly the plain ones
      right: the others, hexadecimal and unsigned integers, raw and triple-quoted strings, and strings with escapes JSON
      does not share or between single quotes, are taken for some other text. */
  lemma LiteralsReadRightIff(s: string)
    requires LiteralValue(s).Some?
    ensures ParseTokenLiteral(s).Some? && (ParseTokenLiteral(s) == LiteralValue(s) <==> PlainLiteral(s))
  {
    if IsConstant(s) {
      ConstantsReadRight();
    } else if StringText(s).Some? {
      StringsReadRightIff(s);
    } else if IsInteger(s) && s[0] != '+' {
      DecimalReadsRight(s);
    } else if IsHexInteger(s) || (s[0] == '-' && IsHexInteger(s[1..])) {
      HexIsTakenForText(s);
    } else {
      UnsignedIsTakenForText(s);
    }
  }

  lemma StringsReadRightIff(s: string)
    requires !IsConstant(s) && StringText(s).Some?
    ensures ParseTokenLiteral(s).Some? && (ParseTokenLiteral(s) == LiteralValue(s) <==> PlainLiteral(s))
  {
    assert LiteralValue(s) == Some(Str(StringText(s).value));
    if IsTripleQuoted(s) {
      assert s[|s| - 1] == s[|s| - 3..][2];
      TripleIsMisread(s);
      QuotedStandsAlone(s);
    } else if |s| >= 2 && IsQuoted(s) {
      QuotedReadsRightIff(s);
      QuotedStandsAlone(s);
    } else {
      RawIsMisread(s);
    }
  }

  /** Plain literals have a meaning, and are read with it. */
  lemma PlainLiteralsAgree(s: string)
    requires PlainLiteral(s)
    ensures LiteralValue(s).Some? && ParseTokenLiteral(s) == LiteralValue(s)
  {
    if IsConstant(s) {
      ConstantsReadRight();
    } else if IsPlainString(s) {
      PlainStringHasText(s);
      StringsReadRightIff(s);
    } else {
      DecimalReadsRight(s);
    }
  }

  lemma PlainStringHasText(s: string)
    requires IsPlainString(s)
    ensures !IsConstant(s) && StringText(s).Some?
  {
    if IsTripleQuoted(s) {
      assert Inner(s)[..1] == s[..3][1..2] == s[..1];
    }
  }
}
