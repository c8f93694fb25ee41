/** UTF-8 as sections 3 and 4 of RFC 3629 define it: one scalar value at a time and whole
    strings, with the validator the runtime uses. */
module Utf8 {
  type byte = b: nat | b < 256

  /** A Unicode code point, surrogates included. */
  type codepoint = c: nat | c < 0x110000

  predicate High(cp: nat) { 0xD800 <= cp < 0xDC00 }
  predicate Low(cp: nat) { 0xDC00 <= cp < 0xE000 }
  predicate Scalar(cp: nat) { cp < 0xD800 || 0xE000 <= cp < 0x110000 }

  /** U+FFFD, the replacement character. */
  const FFFD: seq<byte> := [0xEF, 0xBF, 0xBD]

  /** The supplementary code point a surrogate pair stands for. */
  function Pair(hi: nat, lo: nat): codepoint
    requires High(hi) && Low(lo)
  {
    0x10000 + (hi - 0xD800) * 1024 + (lo - 0xDC00)
  }

  /** `utf8proc_encode_char`: one to four bytes; surrogates are encoded like any other value. */
  function Encode(cp: codepoint): (s: seq<byte>)
    ensures 1 <= |s| <= 4
  {
    if cp < 0x80 then [cp]
    else if cp < 0x800 then [0xC0 + cp / 64, 0x80 + cp % 64]
    else if cp < 0x10000 then [0xE0 + cp / 4096, 0x80 + cp / 64 % 64, 0x80 + cp % 64]
    else [0xF0 + cp / 262144, 0x80 + cp / 4096 % 64, 0x80 + cp / 64 % 64, 0x80 + cp % 64]
  }

  function EncodeAll(cps: seq<codepoint>): seq<byte> {
    if cps == [] then [] else Encode(cps[0]) + EncodeAll(cps[1..])
  }

  /** What a byte announces at the start of a sequence: how many bytes must follow and the
      range allowed for the first of them. */
  datatype Lead = Ascii | Bad | Multi(need: nat, lo: byte, hi: byte)

  function LeadOf(c: byte): Lead {
    if c < 0x80 then Ascii
    else if 0xC2 <= c <= 0xDF then Multi(1, 0x80, 0xBF)
    else if c == 0xE0 then Multi(2, 0xA0, 0xBF)
    else if 0xE1 <= c <= 0xEC || 0xEE <= c <= 0xEF then Multi(2, 0x80, 0xBF)
    else if c == 0xED then Multi(2, 0x80, 0x9F)
    else if c == 0xF0 then Multi(3, 0x90, 0xBF)
    else if 0xF1 <= c <= 0xF3 then Multi(3, 0x80, 0xBF)
    else if c == 0xF4 then Multi(3, 0x80, 0x8F)
    else Bad
  }

  /** How many bytes at the front of `s` continue a sequence that still needs `need` bytes. */
  function Matched(s: seq<byte>, need: nat, lo: byte, hi: byte): (m: nat)
    ensures m <= need && m <= |s|
  {
    if need == 0 || s == [] || s[0] < lo || hi < s[0] then 0
    else 1 + Matched(s[1..], need - 1, 0x80, 0xBF)
  }

  /** The length of the scalar value encoded at the front of `s`, or 0 if there is none
      (`utf8proc_iterate`). */
  function CharLen(s: seq<byte>): (n: nat)
    ensures n <= |s| && n <= 4
  {
    if s == [] then 0
    else match LeadOf(s[0])
      case Ascii => 1
      case Bad => 0
      case Multi(need, lo, hi) => if Matched(s[1..], need, lo, hi) == need then need + 1 else 0
  }

  function Code2(a: nat, b: nat): nat { (a % 32) * 64 + b % 64 }
  function Code3(a: nat, b: nat, c: nat): nat { (a % 16) * 4096 + (b % 64) * 64 + c % 64 }
  function Code4(a: nat, b: nat, c: nat, d: nat): nat { (a % 8) * 262144 + (b % 64) * 4096 + (c % 64) * 64 + d % 64 }

  /** The scalar value encoded at the front of `s`. */
  function CodeAt(s: seq<byte>): nat
    requires CharLen(s) > 0
  {
    match CharLen(s)
    case 1 => s[0]
    case 2 => Code2(s[0], s[1])
    case 3 => Code3(s[0], s[1], s[2])
    case _ => Code4(s[0], s[1], s[2], s[3])
  }

  predicate Valid(s: seq<byte>) {
    s == [] || (CharLen(s) > 0 && Valid(s[CharLen(s)..]))
  }

  ghost predicate AllScalar(cps: seq<codepoint>) { forall c <- cps :: Scalar(c) }

  // ---------------------------------------------------------------- one scalar value

  lemma MatchedUnfold(s: seq<byte>, need: nat, lo: byte, hi: byte)
    requires need <= 3
    ensures Matched(s, need, lo, hi) == need <==>
      need <= |s| && (need >= 1 ==> lo <= s[0] <= hi) && (need >= 2 ==> 0x80 <= s[1] <= 0xBF)
        && (need >= 3 ==> 0x80 <= s[2] <= 0xBF)
  {
    if need >= 2 && |s| >= 1 {
      assert |s[1..]| == |s| - 1;
      if need == 3 && |s| >= 2 { assert s[1..][1..] == s[2..]; }
    }
  }

  lemma Split2(a: nat, b: nat)
    requires 0xC0 <= a < 0xE0 && 0x80 <= b < 0xC0
    ensures var cp := Code2(a, b); cp < 0x800 && 0xC0 + cp / 64 == a && 0x80 + cp % 64 == b
  {
  }

  lemma Digit(q: nat, r: nat)
    requires r < 64
    ensures (q * 64 + r) / 64 == q && (q * 64 + r) % 64 == r
  {
  }

  lemma Shift(cp: nat)
    ensures cp / 4096 == cp / 64 / 64 && cp / 262144 == cp / 64 / 64 / 64
  {
  }

  lemma Split3(a: nat, b: nat, c: nat)
    requires 0xE0 <= a < 0xF0 && 0x80 <= b < 0xC0 && 0x80 <= c < 0xC0
    ensures var cp := Code3(a, b, c);
      && cp == (a - 0xE0) * 4096 + (b - 0x80) * 64 + (c - 0x80)
      && cp < 0x10000 && 0xE0 + cp / 4096 == a && 0x80 + cp / 64 % 64 == b && 0x80 + cp % 64 == c
  {
    hide Code3;
    Code3Is(a, b, c);
    var q := (a - 0xE0) * 64 + (b - 0x80);
    Shift(q * 64 + (c - 0x80));
    Digit(q, c - 0x80);
    Digit(a - 0xE0, b - 0x80);
  }

  lemma Tail(b: nat)
    requires 0x80 <= b < 0xC0
    ensures b % 64 == b - 0x80
  {
  }

  lemma Code3Is(a: nat, b: nat, c: nat)
    requires 0xE0 <= a < 0xF0 && 0x80 <= b < 0xC0 && 0x80 <= c < 0xC0
    ensures Code3(a, b, c) == (a - 0xE0) * 4096 + (b - 0x80) * 64 + (c - 0x80)
  {
    Tail(b);
    Tail(c);
  }

  lemma Digits4(a: nat, b: nat, c: nat, d: nat)
    requires b < 64 && c < 64 && d < 64
    ensures var cp := a * 262144 + b * 4096 + c * 64 + d;
      cp / 262144 == a && cp / 4096 % 64 == b && cp / 64 % 64 == c && cp % 64 == d
  {
    var q := a * 64 + b;
    Shift((q * 64 + c) * 64 + d);
    Digit(q * 64 + c, d);
    Digit(q, c);
    Digit(a, b);
  }

  lemma Code4Is(a: nat, b: nat, c: nat, d: nat)
    requires 0xF0 <= a < 0xF8 && 0x80 <= b < 0xC0 && 0x80 <= c < 0xC0 && 0x80 <= d < 0xC0
    ensures Code4(a, b, c, d) == (a - 0xF0) * 262144 + (b - 0x80) * 4096 + (c - 0x80) * 64 + (d - 0x80)
  {
    Tail(b);
    Tail(c);
    Tail(d);
  }

  lemma Split4(a: nat, b: nat, c: nat, d: nat)
    requires 0xF0 <= a < 0xF8 && 0x80 <= b < 0xC0 && 0x80 <= c < 0xC0 && 0x80 <= d < 0xC0
    ensures var cp := Code4(a, b, c, d);
      && cp == (a - 0xF0) * 262144 + (b - 0x80) * 4096 + (c - 0x80) * 64 + (d - 0x80)
      && 0xF0 + cp / 262144 == a && 0x80 + cp / 4096 % 64 == b && 0x80 + cp / 64 % 64 == c && 0x80 + cp % 64 == d
  {
    hide Code4;
    Code4Is(a, b, c, d);
    Digits4(a - 0xF0, b - 0x80, c - 0x80, d - 0x80);
  }

  /** The bytes found at the front encode exactly the scalar value they are read as. */
  lemma CharIsEncoding(s: seq<byte>)
    requires CharLen(s) > 0
    ensures Scalar(CodeAt(s)) && Encode(CodeAt(s)) == s[..CharLen(s)]
  {
    hide Matched, Code2, Code3, Code4;
    match LeadOf(s[0])
    case Ascii =>
    case Multi(need, lo, hi) =>
      MatchedUnfold(s[1..], need, lo, hi);
      if need == 1 { Char2(s); } else if need == 2 { Char3(s); } else { Char4(s); }
  }

  lemma Char2(s: seq<byte>)
    requires |s| >= 2 && 0xC2 <= s[0] <= 0xDF && 0x80 <= s[1] <= 0xBF
    ensures Scalar(Code2(s[0], s[1])) && Encode(Code2(s[0], s[1])) == s[..2]
  {
    Split2(s[0], s[1]);
  }

  lemma Char3(s: seq<byte>)
    requires |s| >= 3 && 0xE0 <= s[0] <= 0xEF && 0x80 <= s[1] <= 0xBF && 0x80 <= s[2] <= 0xBF
    requires (s[0] == 0xE0 ==> 0xA0 <= s[1]) && (s[0] == 0xED ==> s[1] <= 0x9F)
    ensures Scalar(Code3(s[0], s[1], s[2])) && Encode(Code3(s[0], s[1], s[2])) == s[..3]
  {
    hide Code3;
    Split3(s[0], s[1], s[2]);
  }

  lemma Char4(s: seq<byte>)
    requires |s| >= 4 && 0xF0 <= s[0] <= 0xF4 && 0x80 <= s[1] <= 0xBF && 0x80 <= s[2] <= 0xBF && 0x80 <= s[3] <= 0xBF
    requires (s[0] == 0xF0 ==> 0x90 <= s[1]) && (s[0] == 0xF4 ==> s[1] <= 0x8F)
    ensures var cp := Code4(s[0], s[1], s[2], s[3]);
      0x10000 <= cp < 0x110000 && Encode(cp) == s[..4]
  {
    hide Code4;
    Split4(s[0], s[1], s[2], s[3]);
  }

  lemma Encode2(cp: nat)
    requires 0x80 <= cp < 0x800
    ensures var a, b := 0xC0 + cp / 64, 0x80 + cp % 64;
      0xC2 <= a <= 0xDF && 0x80 <= b <= 0xBF && Code2(a, b) == cp
  {
  }

  lemma Encode3(cp: nat)
    requires 0x800 <= cp < 0x10000 && Scalar(cp)
    ensures var a, b, c := 0xE0 + cp / 4096, 0x80 + cp / 64 % 64, 0x80 + cp % 64;
      && 0xE0 <= a <= 0xEF && (a == 0xE0 ==> 0xA0 <= b) && (a == 0xED ==> b <= 0x9F) && Code3(a, b, c) == cp
  {
    assert cp / 64 / 64 == cp / 4096;
  }

  lemma Encode4(cp: nat)
    requires 0x10000 <= cp < 0x110000
    ensures var a, b, c, d := 0xF0 + cp / 262144, 0x80 + cp / 4096 % 64, 0x80 + cp / 64 % 64, 0x80 + cp % 64;
      && 0xF0 <= a <= 0xF4 && (a == 0xF0 ==> 0x90 <= b) && (a == 0xF4 ==> b <= 0x8F) && Code4(a, b, c, d) == cp
  {
    assert cp / 64 / 64 == cp / 4096;
    assert cp / 4096 / 64 == cp / 262144;
  }

  /** Every encoded scalar value is found again, whatever follows it. */
  lemma EncodingIsChar(cp: codepoint, rest: seq<byte>)
    requires Scalar(cp)
    ensures CharLen(Encode(cp) + rest) == |Encode(cp)| && CodeAt(Encode(cp) + rest) == cp
  {
    hide Matched, Code2, Code3, Code4;
    var s := Encode(cp) + rest;
    if 0x80 <= cp {
      if cp < 0x800 { Encode2(cp); } else if cp < 0x10000 { Encode3(cp); } else { Encode4(cp); }
      var l := LeadOf(s[0]);
      MatchedUnfold(s[1..], l.need, l.lo, l.hi);
    }
  }

  // ---------------------------------------------------------------- whole strings

  function CodesOf(s: seq<byte>): (cps: seq<codepoint>)
    requires Valid(s)
  {
    if s == [] then []
    else
      CharIsEncoding(s);
      [CodeAt(s)] + CodesOf(s[CharLen(s)..])
  }

  lemma {:induction false} ValidIsEncoded(s: seq<byte>)
    requires Valid(s)
    ensures AllScalar(CodesOf(s)) && EncodeAll(CodesOf(s)) == s
  {
    hide Encode, CharLen, CodeAt;
    if s != [] {
      CharIsEncoding(s);
      ValidIsEncoded(s[CharLen(s)..]);
      assert CodesOf(s)[1..] == CodesOf(s[CharLen(s)..]);
    }
  }

  lemma {:induction false} EncodedIsValid(cps: seq<codepoint>)
    requires AllScalar(cps)
    ensures Valid(EncodeAll(cps)) && CodesOf(EncodeAll(cps)) == cps
  {
    hide Encode, CharLen, CodeAt;
    if cps != [] {
      EncodingIsChar(cps[0], EncodeAll(cps[1..]));
      EncodedIsValid(cps[1..]);
      assert EncodeAll(cps)[|Encode(cps[0])|..] == EncodeAll(cps[1..]);
    }
  }

  /** A string is valid exactly when it is a concatenation of encoded scalar values. */
  lemma ValidIffEncoded(s: seq<byte>)
    ensures Valid(s) <==> exists cps: seq<codepoint> :: AllScalar(cps) && EncodeAll(cps) == s
  {
    if Valid(s) {
      ValidIsEncoded(s);
    }
    forall cps: seq<codepoint> | AllScalar(cps) && EncodeAll(cps) == s ensures Valid(s) {
      EncodedIsValid(cps);
    }
  }

  lemma {:induction false} EncodeAllConcat(a: seq<codepoint>, b: seq<codepoint>)
    ensures EncodeAll(a + b) == EncodeAll(a) + EncodeAll(b)
  {
    hide Encode;
    if a == [] {
      assert a + b == b;
    } else {
      EncodeAllConcat(a[1..], b);
      assert (a + b)[1..] == a[1..] + b;
    }
  }

  lemma ValidConcat(a: seq<byte>, b: seq<byte>)
    requires Valid(a) && Valid(b)
    ensures Valid(a + b)
  {
    ValidIsEncoded(a);
    ValidIsEncoded(b);
    EncodeAllConcat(CodesOf(a), CodesOf(b));
    EncodedIsValid(CodesOf(a) + CodesOf(b));
  }

  // ---------------------------------------------------------------- the validator

  lemma ValidHere(str: seq<byte>, s: nat)
    requires s < |str|
    ensures var n := CharLen(str[s..]);
      Valid(str[s..]) <==> n > 0 && Valid(str[s + n..])
    ensures CharLen(str[s..]) == match LeadOf(str[s])
      case Ascii => 1
      case Bad => 0
      case Multi(need, lo, hi) => if Matched(str[s + 1..], need, lo, hi) == need then need + 1 else 0
  {
    var n := CharLen(str[s..]);
    assert str[s..][n..] == str[s + n..];
    assert str[s..][1..] == str[s + 1..];
  }

  /** `utf8_validate_bytes` */
  method ValidateBytes(str: seq<byte>) returns (ok: bool)
    ensures ok <==> Valid(str)
  {
    hide Matched, Valid, CharLen;
    var s := 0;
    assert str[0..] == str;
    while s < |str|
      invariant s <= |str| && Valid(str[s..]) == Valid(str)
    {
      ValidHere(str, s);
      var c := str[s];
      if c < 0x80 {
        s := s + 1;
        continue;
      }
      var cont, lo, hi := LeadRange(c);
      if cont == 0 { return false; }
      var whole := Continues(str, s + 1, cont, lo, hi);
      if !whole { return false; }
      s := s + cont + 1;
    }
    EmptyValid(str[s..]);
    return true;
  }

  lemma EmptyValid(s: seq<byte>)
    requires s == []
    ensures Valid(s)
  {
  }

  /** How many bytes must follow a non-ASCII byte, 0 if it starts nothing, and the range of
      the first of them. */
  method LeadRange(c: byte) returns (cont: nat, lo: byte, hi: byte)
    requires c >= 0x80
    ensures LeadOf(c) == if cont == 0 then Bad else Multi(cont, lo, hi)
    ensures cont <= 3
  {
    cont, lo, hi := 0, 0x80, 0xBF;
    if 0xC2 <= c <= 0xDF { cont := 1; }
    else if c == 0xE0 { cont := 2; lo := 0xA0; }
    else if 0xE1 <= c <= 0xEC { cont := 2; }
    else if c == 0xED { cont := 2; hi := 0x9F; }
    else if c == 0xEE || c == 0xEF { cont := 2; }
    else if c == 0xF0 { cont := 3; lo := 0x90; }
    else if 0xF1 <= c <= 0xF3 { cont := 3; }
    else if c == 0xF4 { cont := 3; hi := 0x8F; }
  }

  /** The continuation bytes of one sequence, from position `p`. */
  method Continues(str: seq<byte>, p: nat, cont: nat, lo: byte, hi: byte) returns (whole: bool)
    requires p <= |str| && 1 <= cont <= 3
    ensures whole <==> Matched(str[p..], cont, lo, hi) == cont
  {
    MatchedUnfold(str[p..], cont, lo, hi);
    if |str| - p < cont { return false; }
    if str[p] < lo || str[p] > hi { return false; }
    for i := 1 to cont
      invariant forall j | p + 1 <= j < p + i :: 0x80 <= str[j] <= 0xBF
    {
      if str[p + i] < 0x80 || str[p + i] > 0xBF { return false; }
    }
    return true;
  }
}
