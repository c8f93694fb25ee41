/** JSON quoting of WTF-8 strings (section 7 of RFC 8259) and the string-literal unescaper that
    undoes it. WTF-8 is UTF-8 that may also hold the three-byte forms of lone surrogates. */
module Utf8Json {
  import opened Common
  import opened Utf8

  const QUOTE: byte := 0x22
  const BACKSLASH: byte := 0x5C
  const LETTER_U: byte := 0x75

  // ---------------------------------------------------------------- reading WTF-8

  predicate Tail80(s: seq<byte>, k: nat)
    requires k < |s|
  {
    0x80 <= s[k] < 0xC0
  }

  /** `wtf8_decode_at`: the length of the character at the front, or 0. */
  function WLen(s: seq<byte>): (n: nat)
    requires s != []
    ensures n <= |s|
  {
    var c := s[0];
    if c < 0x80 then 1
    else
      var n := if c < 0xC0 then 0 else if c < 0xE0 then 2 else if c < 0xF0 then 3 else 4;
      if n == 0 || n > |s| then 0
      else if Tail80(s, 1) && (n > 2 ==> Tail80(s, 2)) && (n > 3 ==> Tail80(s, 3)) then n
      else 0
  }

  function WCode(s: seq<byte>): nat
    requires s != [] && WLen(s) > 0
  {
    match WLen(s)
    case 1 => s[0]
    case 2 => Code2(s[0], s[1])
    case 3 => Code3(s[0], s[1], s[2])
    case _ => Code4(s[0], s[1], s[2], s[3])
  }

  // ---------------------------------------------------------------- quoting

  function HexDigit(v: nat): byte {
    var d := v % 16;
    if d < 10 then 0x30 + d else 0x61 + (d - 10)
  }

  /** A four-digit escape of one code unit. */
  function UEscape(u: nat): seq<byte> {
    [BACKSLASH, LETTER_U, HexDigit(u / 4096), HexDigit(u / 256), HexDigit(u / 16), HexDigit(u)]
  }

  /** The letter of a two-character escape, or 0. */
  function ShortEscape(c: nat): byte {
    if c == 0x22 then 0x22 else if c == 0x5C then 0x5C
    else if c == 0x08 then 0x62 else if c == 0x0C then 0x66
    else if c == 0x0A then 0x6E else if c == 0x0D then 0x72
    else if c == 0x09 then 0x74 else 0
  }

  function QuoteAscii(c: byte): seq<byte> {
    if ShortEscape(c) != 0 then [BACKSLASH, ShortEscape(c)]
    else if c < 0x20 then UEscape(c)
    else [c]
  }

  /** The text between the quotes that `utf8_json_quote` writes. */
  function Body(s: seq<byte>): seq<byte>
    decreases |s|
  {
    if s == [] then []
    else if s[0] < 0x80 then QuoteAscii(s[0]) + Body(s[1..])
    else
      var n := WLen(s);
      if n == 0 then [s[0]] + Body(s[1..])
      else
        var cp, rest := WCode(s), s[n..];
        if High(cp) && rest != [] && WLen(rest) > 0 && Low(WCode(rest)) then
          Encode(Pair(cp, WCode(rest))) + Body(rest[WLen(rest)..])
        else if High(cp) || Low(cp) then UEscape(cp) + Body(rest)
        else s[..n] + Body(rest)
  }

  function Quoted(s: seq<byte>): seq<byte> {
    [QUOTE] + Body(s) + [QUOTE]
  }

  // ---------------------------------------------------------------- unescaping

  /** The input buffer ends in a NUL. */
  function At(s: seq<byte>, i: nat): byte { if i < |s| then s[i] else 0 }

  predicate XDigit(c: byte) { 0x30 <= c <= 0x39 || 0x61 <= c <= 0x66 || 0x41 <= c <= 0x46 }
  predicate ODigit(c: byte) { 0x30 <= c <= 0x37 }

  /** `unhex` */
  function Unhex(c: byte): nat { c % 16 + (c / 64) * 9 }

  function Hex4(s: seq<byte>, i: nat): nat {
    (Unhex(At(s, i)) * 4096 + Unhex(At(s, i + 1)) * 256 + Unhex(At(s, i + 2)) * 16 + Unhex(At(s, i + 3))) % 0x10000
  }

  predicate IsHex4(s: seq<byte>, i: nat) {
    XDigit(At(s, i)) && XDigit(At(s, i + 1)) && XDigit(At(s, i + 2)) && XDigit(At(s, i + 3))
  }

  /** `utf8_encode`: nothing for values beyond U+10FFFF. */
  function EncodeAny(cp: nat): seq<byte> { if cp < 0x110000 then Encode(cp) else [] }

  /** What one escape yields and how many bytes it takes beyond the backslash and its letter. */
  datatype Escaped = Escaped(out: seq<byte>, extra: nat)

  function Octal(s: seq<byte>, pos: nat): Escaped
    requires ODigit(At(s, pos + 1))
  {
    var v: nat := At(s, pos + 1) - 0x30;
    if !ODigit(At(s, pos + 2)) then Escaped(EncodeAny(v), 0)
    else
      var w: nat := v * 8 + (At(s, pos + 2) - 0x30);
      if ODigit(At(s, pos + 3)) && w * 8 + (At(s, pos + 3) - 0x30) <= 255
      then Escaped(EncodeAny(w * 8 + (At(s, pos + 3) - 0x30)), 2)
      else Escaped(EncodeAny(w), 1)
  }

  /** The value of the hexadecimal digits from `i`, in 32 bits, and where they stop. */
  function Digits(s: seq<byte>, i: nat, end: nat, cp: nat): (nat, nat)
    decreases end - i
  {
    if i < end && XDigit(At(s, i)) then Digits(s, i + 1, end, (cp * 16 + Unhex(At(s, i))) % 0x1_0000_0000)
    else (cp, i)
  }

  function Braced(s: seq<byte>, pos: nat, end: nat): Escaped {
    var (cp, i) := Digits(s, pos + 3, end, 0);
    if i < end && At(s, i) == 0x7D && i >= pos + 1 then Escaped(EncodeAny(cp), i - pos - 1)
    else Escaped([LETTER_U], 0)
  }

  function Fixed(s: seq<byte>, pos: nat, end: nat): Escaped {
    var cp := Hex4(s, pos + 2);
    if High(cp) && pos + 11 < end && At(s, pos + 6) == BACKSLASH && At(s, pos + 7) == LETTER_U
       && IsHex4(s, pos + 8) && Low(Hex4(s, pos + 8))
    then Escaped(Encode(Pair(cp, Hex4(s, pos + 8))), 10)
    else Escaped(EncodeAny(cp), 4)
  }

  /** `decode_escape` */
  function Escape(s: seq<byte>, pos: nat, end: nat): Escaped {
    var c := At(s, pos + 1);
    if c == 0x6E then Escaped([0x0A], 0)
    else if c == 0x74 then Escaped([0x09], 0)
    else if c == 0x72 then Escaped([0x0D], 0)
    else if c == 0x76 then Escaped([0x0B], 0)
    else if c == 0x66 then Escaped([0x0C], 0)
    else if c == 0x62 then Escaped([0x08], 0)
    else if c == 0x5C then Escaped([0x5C], 0)
    else if c == 0x30 && !ODigit(At(s, pos + 2)) then Escaped([0], 0)
    else if ODigit(c) then Octal(s, pos)
    else if c == 0x78 then
      if pos + 3 < end && XDigit(At(s, pos + 2)) && XDigit(At(s, pos + 3))
      then Escaped(EncodeAny(Unhex(At(s, pos + 2)) * 16 + Unhex(At(s, pos + 3))), 2)
      else Escaped([c], 0)
    else if c == LETTER_U then
      if pos + 2 < end && At(s, pos + 2) == 0x7B then Braced(s, pos, end)
      else if pos + 5 < end && IsHex4(s, pos + 2) then Fixed(s, pos, end)
      else Escaped([c], 0)
    else Escaped([c], 0)
  }

  /** The lexer's loop over a string token: `i` runs up to the closing quote. */
  function Unescape(tok: seq<byte>, i: nat): seq<byte>
    decreases |tok| - i
  {
    if i + 1 >= |tok| then []
    else if tok[i] == BACKSLASH then
      var e := Escape(tok, i, |tok|);
      e.out + Unescape(tok, i + 2 + e.extra)
    else [tok[i]] + Unescape(tok, i + 1)
  }

  /** `is_octal_escape` */
  predicate OctalAt(s: seq<byte>, pos: nat) {
    ODigit(At(s, pos + 1)) && !(At(s, pos + 1) == 0x30 && !ODigit(At(s, pos + 2)))
  }

  /** The lexer meets an octal escape from `i` on; in strict mode it refuses the token. */
  predicate HasOctal(tok: seq<byte>, i: nat)
    decreases |tok| - i
  {
    if i + 1 >= |tok| then false
    else if tok[i] == BACKSLASH then OctalAt(tok, i) || HasOctal(tok, i + 2 + Escape(tok, i, |tok|).extra)
    else HasOctal(tok, i + 1)
  }

  // ---------------------------------------------------------------- the body is a JSON string

  predicate LowEscape(t: seq<byte>) {
    |t| >= 6 && t[0] == BACKSLASH && t[1] == LETTER_U && IsHex4(t, 2) && Low(Hex4(t, 2))
  }

  /** The text is a run of characters and escapes: no raw control byte, no bare quote, every
      backslash begins an escape, and no escaped high surrogate precedes an escaped low one. */
  predicate Clean(t: seq<byte>)
    decreases |t|
  {
    if t == [] then true
    else if t[0] == BACKSLASH then
      if |t| >= 6 && t[1] == LETTER_U then
        && IsHex4(t, 2) && Clean(t[6..])
        && (High(Hex4(t, 2)) ==> !LowEscape(t[6..]))
      else
        |t| >= 2 && t[1] in [0x22, 0x5C, 0x62, 0x66, 0x6E, 0x72, 0x74] && Clean(t[2..])
    else t[0] >= 0x20 && t[0] != QUOTE && Clean(t[1..])
  }

  lemma HexRoundTrip(v: nat)
    ensures XDigit(HexDigit(v)) && Unhex(HexDigit(v)) == v % 16
  {
  }

  lemma UEscapeReads(u: nat, rest: seq<byte>)
    requires u < 0x10000
    ensures IsHex4(UEscape(u) + rest, 2) && Hex4(UEscape(u) + rest, 2) == u
  {
    hide HexDigit, Unhex, XDigit;
    var t := UEscape(u) + rest;
    HexRoundTrip(u / 4096);
    HexRoundTrip(u / 256);
    HexRoundTrip(u / 16);
    HexRoundTrip(u);
    assert t[2] == HexDigit(u / 4096) && t[3] == HexDigit(u / 256) && t[4] == HexDigit(u / 16) && t[5] == HexDigit(u);
    HexSum(u);
  }

  lemma HexSum(u: nat)
    requires u < 0x10000
    ensures u / 4096 % 16 * 4096 + u / 256 % 16 * 256 + u / 16 % 16 * 16 + u % 16 == u
  {
    assert u / 16 / 16 == u / 256 && u / 256 / 16 == u / 4096;
  }

  /** Plain bytes in front of clean text. */
  predicate Plain(x: seq<byte>) {
    forall i | 0 <= i < |x| :: x[i] >= 0x20 && x[i] != QUOTE && x[i] != BACKSLASH
  }

  lemma {:induction false} PlainClean(x: seq<byte>, t: seq<byte>)
    requires Plain(x) && Clean(t)
    ensures Clean(x + t)
  {
    hide Clean;
    if x == [] {
      assert x + t == t;
    } else {
      PlainClean(x[1..], t);
      PlainFirst(x[0], x[1..] + t);
      assert [x[0]] + (x[1..] + t) == x + t;
    }
  }

  lemma PlainFirst(c: byte, t: seq<byte>)
    requires c >= 0x20 && c != QUOTE && c != BACKSLASH && Clean(t)
    ensures Clean([c] + t)
  {
    hide IsHex4, Hex4, LowEscape;
    assert ([c] + t)[1..] == t;
  }

  lemma UEscapeClean(u: nat, t: seq<byte>)
    requires u < 0x10000 && Clean(t) && (High(u) ==> !LowEscape(t))
    ensures Clean(UEscape(u) + t)
  {
    UEscapeReads(u, t);
    assert (UEscape(u) + t)[6..] == t;
  }

  lemma AsciiClean(c: byte, t: seq<byte>)
    requires c < 0x80 && Clean(t)
    ensures Clean(QuoteAscii(c) + t)
  {
    if ShortEscape(c) != 0 {
      assert (QuoteAscii(c) + t)[2..] == t;
    } else if c < 0x20 {
      UEscapeClean(c, t);
    } else {
      PlainClean([c], t);
    }
  }

  lemma EncodePlain(cp: codepoint)
    requires cp >= 0x80
    ensures Plain(Encode(cp))
  {
  }

  lemma WCodeRange(s: seq<byte>)
    requires s != [] && s[0] >= 0x80 && WLen(s) > 0
    ensures WLen(s) < 4 ==> WCode(s) < 0x10000
    ensures Plain(s[..WLen(s)])
  {
  }

  /** The body does not begin with an escaped low surrogate unless the string does. */
  lemma BodyStart(s: seq<byte>)
    requires !(s != [] && WLen(s) > 0 && Low(WCode(s)))
    ensures !LowEscape(Body(s))
  {
    if s != [] {
      if s[0] < 0x80 {
        if ShortEscape(s[0]) == 0 && s[0] < 0x20 { UEscapeReads(s[0], Body(s[1..])); }
      } else if WLen(s) > 0 && High(WCode(s)) {
        UEscapeReads(WCode(s), Body(s[WLen(s)..]));
      }
    }
  }

  /** For every byte string whatsoever, the quoted body is clean. */
  lemma {:induction false} BodyClean(s: seq<byte>)
    ensures Clean(Body(s))
    decreases |s|
  {
    if s != [] {
      if s[0] < 0x80 {
        BodyClean(s[1..]);
        AsciiClean(s[0], Body(s[1..]));
      } else if WLen(s) == 0 {
        BodyClean(s[1..]);
        PlainClean([s[0]], Body(s[1..]));
      } else {
        var cp, rest := WCode(s), s[WLen(s)..];
        WCodeRange(s);
        BodyClean(rest);
        if High(cp) && rest != [] && WLen(rest) > 0 && Low(WCode(rest)) {
          BodyClean(rest[WLen(rest)..]);
          EncodePlain(Pair(cp, WCode(rest)));
          PlainClean(Encode(Pair(cp, WCode(rest))), Body(rest[WLen(rest)..]));
        } else if High(cp) || Low(cp) {
          if High(cp) { BodyStart(rest); }
          UEscapeClean(cp, Body(rest));
        } else {
          PlainClean(s[..WLen(s)], Body(rest));
        }
      }
    }
  }

  // ---------------------------------------------------------------- well-formed WTF-8

  lemma Code3Of(cp: nat)
    requires 0x800 <= cp < 0x10000
    ensures var a, b, c := 0xE0 + cp / 4096, 0x80 + cp / 64 % 64, 0x80 + cp % 64;
      0xE0 <= a < 0xF0 && Code3(a, b, c) == cp
  {
    assert cp / 64 / 64 == cp / 4096;
  }

  /** Every encoded code point, surrogate or not, is read back. */
  lemma WReads(cp: codepoint, rest: seq<byte>)
    ensures WLen(Encode(cp) + rest) == |Encode(cp)| && WCode(Encode(cp) + rest) == cp
  {
    hide Code2, Code3, Code4;
    if 0x80 <= cp < 0x800 { Encode2(cp); }
    else if 0x800 <= cp < 0x10000 { Code3Of(cp); }
    else if 0x10000 <= cp { Encode4(cp); }
  }

  predicate PairAhead(cps: seq<codepoint>) { |cps| >= 2 && High(cps[0]) && Low(cps[1]) }

  /** Adjacent surrogate pairs joined into the code points they stand for. */
  function Joined(cps: seq<codepoint>): seq<codepoint> {
    if cps == [] then []
    else if PairAhead(cps) then [Pair(cps[0], cps[1])] + Joined(cps[2..])
    else [cps[0]] + Joined(cps[1..])
  }

  /** The quoted text of the first character or pair. */
  function Piece(cps: seq<codepoint>): seq<byte>
    requires cps != []
  {
    if cps[0] < 0x80 then QuoteAscii(cps[0])
    else if PairAhead(cps) then Encode(Pair(cps[0], cps[1]))
    else if High(cps[0]) || Low(cps[0]) then UEscape(cps[0])
    else Encode(cps[0])
  }

  function Rest(cps: seq<codepoint>): seq<codepoint>
    requires cps != []
  {
    if PairAhead(cps) then cps[2..] else cps[1..]
  }

  /** On well-formed WTF-8 the body is made piece by piece from the code points. */
  lemma BodyPiece(cps: seq<codepoint>)
    requires cps != []
    ensures Body(EncodeAll(cps)) == Piece(cps) + Body(EncodeAll(Rest(cps)))
  {
    hide Encode, WLen, WCode, QuoteAscii, UEscape;
    var s, t := EncodeAll(cps), EncodeAll(cps[1..]);
    WReads(cps[0], t);
    EncodeFirst(cps[0], t);
    assert s[|Encode(cps[0])|..] == t;
    if |cps| >= 2 {
      var u := EncodeAll(cps[2..]);
      assert cps[1..][1..] == cps[2..];
      WReads(cps[1], u);
      assert t[|Encode(cps[1])|..] == u;
    }
  }

  lemma EncodeFirst(cp: codepoint, t: seq<byte>)
    ensures var s := Encode(cp) + t;
      && (s[0] < 0x80 <==> cp < 0x80) && (cp < 0x80 ==> s[0] == cp && |Encode(cp)| == 1)
      && s[..|Encode(cp)|] == Encode(cp)
  {
  }

  // ---------------------------------------------------------------- the round trip

  lemma {:induction false} UnescapePlain(tok: seq<byte>, i: nat, x: seq<byte>)
    requires Plain(x) && i + |x| < |tok| && tok[i..i + |x|] == x
    ensures Unescape(tok, i) == x + Unescape(tok, i + |x|)
    decreases |x|
  {
    hide Escape;
    if x != [] {
      assert tok[i..i + |x|][0] == tok[i];
      assert tok[i + 1..i + |x|] == tok[i..i + |x|][1..];
      UnescapePlain(tok, i + 1, x[1..]);
      var t := Unescape(tok, i + |x|);
      assert [x[0]] + (x[1..] + t) == x + t;
    }
  }

  lemma At4(tok: seq<byte>, i: nat, x: seq<byte>)
    requires i + |x| <= |tok| && tok[i..i + |x|] == x
    ensures forall k | 0 <= k < |x| :: At(tok, i + k) == x[k]
  {
    forall k | 0 <= k < |x| ensures At(tok, i + k) == x[k] { assert tok[i..i + |x|][k] == tok[i + k]; }
  }

  lemma UnescapeShort(tok: seq<byte>, i: nat, c: byte)
    requires ShortEscape(c) != 0 && i + 2 < |tok| && tok[i..i + 2] == [BACKSLASH, ShortEscape(c)]
    ensures Unescape(tok, i) == [c] + Unescape(tok, i + 2)
  {
    hide Escape, At, ShortEscape;
    var x := [BACKSLASH, ShortEscape(c)];
    At4(tok, i, x);
    assert At(tok, i + 1) == x[1];
    assert tok[i] == x[0] by { assert tok[i..i + 2][0] == tok[i]; }
    EscapeShort(tok, i, c);
  }

  lemma EscapeShort(tok: seq<byte>, i: nat, c: byte)
    requires ShortEscape(c) != 0 && At(tok, i + 1) == ShortEscape(c)
    ensures Escape(tok, i, |tok|) == Escaped([c], 0)
  {
    hide Octal, Braced, Fixed, At;
  }

  lemma UEscapeAt(tok: seq<byte>, i: nat, u: nat)
    requires u < 0x10000 && i + 6 <= |tok| && tok[i..i + 6] == UEscape(u)
    ensures At(tok, i) == BACKSLASH && At(tok, i + 1) == LETTER_U
    ensures IsHex4(tok, i + 2) && Hex4(tok, i + 2) == u && At(tok, i + 2) != 0x7B
  {
    UEscapeReads(u, []);
    At4(tok, i, UEscape(u));
    var x := UEscape(u);
    assert x + [] == x;
    assert At(tok, i + 2) == x[2] && At(tok, i + 3) == x[3] && At(tok, i + 4) == x[4] && At(tok, i + 5) == x[5];
    assert At(tok, i + 0) == x[0] && At(tok, i + 1) == x[1];
  }

  lemma UnescapeU(tok: seq<byte>, i: nat, u: nat)
    requires u < 0x10000 && i + 6 < |tok| && tok[i..i + 6] == UEscape(u) && tok[|tok| - 1] == QUOTE
    requires High(u) ==> !LowEscape(tok[i + 6..|tok| - 1])
    ensures Unescape(tok, i) == Encode(u) + Unescape(tok, i + 6)
  {
    hide UEscape, Hex4, IsHex4, Encode;
    UEscapeAt(tok, i, u);
    var t := tok[i + 6..|tok| - 1];
    if High(u) && i + 11 < |tok| && At(tok, i + 6) == BACKSLASH && At(tok, i + 7) == LETTER_U
      && IsHex4(tok, i + 8) && Low(Hex4(tok, i + 8))
    {
      SameLow(tok, i + 6);
      assert false;
    }
  }

  /** An escaped low surrogate seen in the token lies before its closing quote. */
  lemma SameLow(tok: seq<byte>, i: nat)
    requires i + 5 < |tok| && tok[|tok| - 1] == QUOTE && At(tok, i) == BACKSLASH && At(tok, i + 1) == LETTER_U
    requires IsHex4(tok, i + 2) && Low(Hex4(tok, i + 2))
    ensures LowEscape(tok[i..|tok| - 1])
  {
    assert XDigit(At(tok, i + 5)) && !XDigit(QUOTE);
    var t := tok[i..|tok| - 1];
    assert |t| >= 6;
    assert At(t, 0) == At(tok, i) && At(t, 1) == At(tok, i + 1);
    assert At(t, 2) == At(tok, i + 2) && At(t, 3) == At(tok, i + 3);
    assert At(t, 4) == At(tok, i + 4) && At(t, 5) == At(tok, i + 5);
  }

  // ---------------------------------------------------------------- the whole string

  ghost predicate Undone(tok: seq<byte>, i: nat, cps: seq<codepoint>) {
    Unescape(tok, i) == EncodeAll(Joined(cps))
  }

  /** The first piece of the body unescapes to the first joined code point. */
  lemma PieceUndone(tok: seq<byte>, i: nat, cps: seq<codepoint>)
    requires cps != [] && i < |tok| && tok[|tok| - 1] == QUOTE && tok[i..|tok| - 1] == Body(EncodeAll(cps))
    ensures var n := |Piece(cps)|;
      && i + n < |tok| && tok[i + n..|tok| - 1] == Body(EncodeAll(Rest(cps)))
      && Unescape(tok, i) == Encode(Joined(cps)[0]) + Unescape(tok, i + n)
  {
    hide Body, Unescape, Encode, QuoteAscii, UEscape;
    var x, t := Piece(cps), Body(EncodeAll(Rest(cps)));
    BodyPiece(cps);
    assert tok[i..|tok| - 1] == x + t;
    assert tok[i..i + |x|] == x by { assert (x + t)[..|x|] == x; assert tok[i..|tok| - 1][..|x|] == tok[i..i + |x|]; }
    assert tok[i + |x|..|tok| - 1] == t by {
      assert (x + t)[|x|..] == t;
      assert tok[i..|tok| - 1][|x|..] == tok[i + |x|..|tok| - 1];
    }
    if cps[0] < 0x80 {
      AsciiUndone(tok, i, cps[0]);
    } else if PairAhead(cps) {
      EncodePlain(Pair(cps[0], cps[1]));
      UnescapePlain(tok, i, x);
    } else if High(cps[0]) || Low(cps[0]) {
      if High(cps[0]) { NoLowNext(cps); }
      UEscapeLen(cps[0]);
      UnescapeU(tok, i, cps[0]);
    } else {
      EncodePlain(cps[0]);
      UnescapePlain(tok, i, x);
    }
  }

  lemma UEscapeLen(u: nat)
    ensures |UEscape(u)| == 6
  {
  }

  lemma NoLowNext(cps: seq<codepoint>)
    requires cps != [] && High(cps[0]) && !PairAhead(cps)
    ensures !LowEscape(Body(EncodeAll(cps[1..])))
  {
    if |cps| >= 2 { WReads(cps[1], EncodeAll(cps[2..])); assert cps[1..][1..] == cps[2..]; }
    BodyStart(EncodeAll(cps[1..]));
  }

  lemma AsciiUndone(tok: seq<byte>, i: nat, c: byte)
    requires c < 0x80 && i + |QuoteAscii(c)| < |tok| && tok[i..i + |QuoteAscii(c)|] == QuoteAscii(c)
    requires tok[|tok| - 1] == QUOTE
    ensures Unescape(tok, i) == Encode(c) + Unescape(tok, i + |QuoteAscii(c)|)
  {
    hide Unescape;
    if ShortEscape(c) != 0 {
      UnescapeShort(tok, i, c);
    } else if c < 0x20 {
      UnescapeU(tok, i, c);
    } else {
      UnescapePlain(tok, i, [c]);
    }
  }

  lemma {:induction false} BodyUndone(tok: seq<byte>, i: nat, cps: seq<codepoint>)
    requires i < |tok| && tok[|tok| - 1] == QUOTE && tok[i..|tok| - 1] == Body(EncodeAll(cps))
    ensures Undone(tok, i, cps)
    decreases |cps|
  {
    hide Body, Encode, Escape, Piece, Joined, EncodeAll, Rest;
    if cps == [] {
      EmptyBody();
    } else {
      JoinedStep(cps);
      PieceUndone(tok, i, cps);
      BodyUndone(tok, i + |Piece(cps)|, Rest(cps));
    }
  }

  lemma JoinedStep(cps: seq<codepoint>)
    requires cps != []
    ensures Joined(cps) != [] && |Rest(cps)| < |cps|
    ensures EncodeAll(Joined(cps)) == Encode(Joined(cps)[0]) + EncodeAll(Joined(Rest(cps)))
  {
    assert Joined(cps)[1..] == Joined(Rest(cps));
  }

  lemma EmptyBody()
    ensures EncodeAll(Joined([])) == [] && Body(EncodeAll([])) == []
  {
  }

  /** Unescaping what was quoted gives the string back, with adjacent surrogate pairs joined,
      for every well-formed WTF-8 string. */
  lemma QuoteRoundTrip(cps: seq<codepoint>)
    ensures Unescape(Quoted(EncodeAll(cps)), 1) == EncodeAll(Joined(cps))
  {
    hide Body, Unescape;
    var b := Body(EncodeAll(cps));
    var tok := Quoted(EncodeAll(cps));
    assert tok[1..|tok| - 1] == b;
    BodyUndone(tok, 1, cps);
  }

  /** On text without adjacent pairs, in particular on valid UTF-8, nothing is joined. */
  lemma {:induction false} JoinedScalars(cps: seq<codepoint>)
    requires AllScalar(cps)
    ensures Joined(cps) == cps
  {
    if cps != [] {
      assert cps[0] in cps;
      JoinedScalars(cps[1..]);
    }
  }

  // ---------------------------------------------------------------- strict mode

  /** An escape of clean text is not octal and ends where the text goes on clean. */
  lemma CleanEscape(tok: seq<byte>, i: nat)
    requires i + 1 < |tok| && tok[|tok| - 1] == QUOTE && Clean(tok[i..|tok| - 1]) && tok[i] == BACKSLASH
    ensures !OctalAt(tok, i)
    ensures var j := i + 2 + Escape(tok, i, |tok|).extra; j < |tok| && Clean(tok[j..|tok| - 1])
  {
    hide Octal, Braced, Hex4, IsHex4, LowEscape;
    var t := tok[i..|tok| - 1];
    assert t[0] == tok[i] && t[1] == tok[i + 1] == At(tok, i + 1);
    if |t| >= 6 && t[1] == LETTER_U {
      assert t[6..] == tok[i + 6..|tok| - 1];
      CleanFixed(tok, i);
    } else {
      assert t[2..] == tok[i + 2..|tok| - 1];
    }
  }

  lemma CleanFixed(tok: seq<byte>, i: nat)
    requires i + 6 < |tok| && tok[|tok| - 1] == QUOTE && tok[i] == BACKSLASH && tok[i + 1] == LETTER_U
    requires var t := tok[i..|tok| - 1]; IsHex4(t, 2) && (High(Hex4(t, 2)) ==> !LowEscape(tok[i + 6..|tok| - 1]))
    ensures IsHex4(tok, i + 2) && At(tok, i + 2) != 0x7B && Fixed(tok, i, |tok|).extra == 4
  {
    var t := tok[i..|tok| - 1];
    assert At(t, 2) == At(tok, i + 2) && At(t, 3) == At(tok, i + 3);
    assert At(t, 4) == At(tok, i + 4) && At(t, 5) == At(tok, i + 5);
    hide Hex4, LowEscape, XDigit, Encode, EncodeAny, At;
    FixedExtra(tok, i);
    if High(Hex4(tok, i + 2)) && Fixed(tok, i, |tok|).extra != 4 { SameLow(tok, i + 6); assert false; }
  }

  lemma FixedExtra(tok: seq<byte>, i: nat)
    requires IsHex4(tok, i + 2)
    ensures At(tok, i + 2) != 0x7B
    ensures Fixed(tok, i, |tok|).extra != 4 ==>
      && High(Hex4(tok, i + 2)) && i + 11 < |tok| && At(tok, i + 6) == BACKSLASH && At(tok, i + 7) == LETTER_U
      && IsHex4(tok, i + 8) && Low(Hex4(tok, i + 8))
  {
    hide Hex4, Encode;
  }

  lemma {:induction false} CleanNoOctal(tok: seq<byte>, i: nat)
    requires i < |tok| && tok[|tok| - 1] == QUOTE && Clean(tok[i..|tok| - 1])
    ensures !HasOctal(tok, i)
    decreases |tok| - i
  {
    hide Escape, OctalAt;
    if i + 1 < |tok| {
      if tok[i] == BACKSLASH {
        CleanEscape(tok, i);
        CleanNoOctal(tok, i + 2 + Escape(tok, i, |tok|).extra);
      } else {
        assert tok[i..|tok| - 1][1..] == tok[i + 1..|tok| - 1];
        CleanNoOctal(tok, i + 1);
      }
    }
  }

  /** Whatever was quoted, strict mode accepts it. */
  lemma QuotedIsStrict(s: seq<byte>)
    ensures !HasOctal(Quoted(s), 1)
  {
    hide Body, HasOctal;
    var tok := Quoted(s);
    assert tok[1..|tok| - 1] == Body(s);
    BodyClean(s);
    CleanNoOctal(tok, 1);
  }

  // ---------------------------------------------------------------- the loops

  lemma Appended(out: seq<byte>, x: seq<byte>, whole: seq<byte>, before: seq<byte>, after: seq<byte>)
    requires whole == out + before && before == x + after
    ensures whole == (out + x) + after
  {
  }

  /** `utf8_json_quote` */
  method JsonQuote(str: seq<byte>) returns (raw: seq<byte>)
    ensures raw == Quoted(str)
  {
    hide WLen, WCode, QuoteAscii, UEscape, Encode;
    raw := [QUOTE];
    var i := 0;
    ghost var whole := [QUOTE] + Body(str);
    assert str[0..] == str;
    while i < |str|
      invariant i <= |str| && whole == raw + Body(str[i..])
    {
      var s := str[i..];
      var piece, used := QuoteNext(s);
      Appended(raw, piece, whole, Body(s), Body(s[used..]));
      assert s[used..] == str[i + used..];
      raw, i := raw + piece, i + used;
    }
    raw := raw + [QUOTE];
  }

  /** One turn of the quoting loop. */
  method QuoteNext(s: seq<byte>) returns (piece: seq<byte>, used: nat)
    requires s != []
    ensures 0 < used <= |s| && Body(s) == piece + Body(s[used..])
  {
    hide WLen, WCode, QuoteAscii, UEscape, Encode, Pair, Body, High, Low;
    BodyTurn(s);
    var c := s[0];
    if c < 0x80 { return QuoteAscii(c), 1; }
    var n := WLen(s);
    if n == 0 { return [c], 1; }
    var cp := WCode(s);
    if High(cp) && n < |s| {
      var n2 := WLen(s[n..]);
      if n2 > 0 && Low(WCode(s[n..])) {
        assert s[n..][n2..] == s[n + n2..];
        return Encode(Pair(cp, WCode(s[n..]))), n + n2;
      }
    }
    if High(cp) || Low(cp) { return UEscape(cp), n; }
    return s[..n], n;
  }

  /** `Body`, one turn. */
  lemma BodyTurn(s: seq<byte>)
    requires s != []
    ensures Body(s) ==
      if s[0] < 0x80 then QuoteAscii(s[0]) + Body(s[1..])
      else if WLen(s) == 0 then [s[0]] + Body(s[1..])
      else
        var cp, rest := WCode(s), s[WLen(s)..];
        if High(cp) && rest != [] && WLen(rest) > 0 && Low(WCode(rest)) then
          Encode(Pair(cp, WCode(rest))) + Body(rest[WLen(rest)..])
        else if High(cp) || Low(cp) then UEscape(cp) + Body(rest)
        else s[..WLen(s)] + Body(rest)
  {
    hide WLen, WCode, QuoteAscii, UEscape, Encode, Pair, High, Low;
  }

  /** The digits of a braced escape. */
  method BracedEscape(s: seq<byte>, pos: nat, end: nat) returns (e: Escaped)
    ensures e == Braced(s, pos, end)
  {
    hide Unhex, XDigit;
    var cp: nat, i := 0, pos + 3;
    while i < end && XDigit(At(s, i))
      invariant pos + 3 <= i && Digits(s, pos + 3, end, 0) == Digits(s, i, end, cp)
      decreases end - i
    {
      cp, i := (cp * 16 + Unhex(At(s, i))) % 0x1_0000_0000, i + 1;
    }
    if i < end && At(s, i) == 0x7D { return Escaped(EncodeAny(cp), i - pos - 1); }
    return Escaped([LETTER_U], 0);
  }

  /** The lexer's loop over the characters between the quotes; it refuses exactly the tokens with
      an octal escape in strict mode. */
  method UnescapeToken(tok: seq<byte>, strict: bool) returns (r: Maybe<seq<byte>>)
    ensures r == if strict && HasOctal(tok, 1) then None else Some(Unescape(tok, 1))
  {
    hide Escape, OctalAt;
    var n, out := 1, [];
    while n + 1 < |tok|
      invariant Unescape(tok, 1) == out + Unescape(tok, n)
      invariant strict ==> HasOctal(tok, 1) == HasOctal(tok, n)
      decreases |tok| - n
    {
      if tok[n] == BACKSLASH {
        if strict && OctalAt(tok, n) { return None; }
        var e := Escape(tok, n, |tok|);
        Appended(out, e.out, Unescape(tok, 1), Unescape(tok, n), Unescape(tok, n + 2 + e.extra));
        out, n := out + e.out, n + 2 + e.extra;
      } else {
        Appended(out, [tok[n]], Unescape(tok, 1), Unescape(tok, n), Unescape(tok, n + 1));
        out, n := out + [tok[n]], n + 1;
      }
    }
    assert out + [] == out;
    r := Some(out);
  }
}
