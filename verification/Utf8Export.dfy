/** Lossy export of WTF-8 strings as UTF-8: surrogate pairs are joined, everything else that is
    not UTF-8 becomes U+FFFD, and a short destination takes only whole characters. The string
    header remembers what it has learnt about its bytes. */
module Utf8Export {
  import opened Utf8
  import Utf8Decode
  import Scan = Utf16Scan

  /** `utf8_wtf8_surrogate_at`: the surrogate encoded at the front, or 0. */
  function Surrogate(s: seq<byte>): nat {
    if |s| > 2 && s[0] == 0xED && 0xA0 <= s[1] < 0xC0 && 0x80 <= s[2] < 0xC0
    then Code3(s[0], s[1], s[2]) else 0
  }

  datatype Piece = Piece(out: seq<byte>, used: nat, units: nat)

  /** What the greedy exporter makes of the front of a non-empty string. */
  function Next(s: seq<byte>): (p: Piece)
    requires s != []
    ensures 0 < p.used <= |s|
  {
    var first := Surrogate(s);
    if first != 0 then
      SurrogateRange(s);
      var second := Surrogate(s[3..]);
      if High(first) && Low(second) then
        Piece(Encode(Pair(first, second)), 6, 2)
      else Piece(FFFD, 3, 1)
    else if CharLen(s) > 0 then Piece(s[..CharLen(s)], CharLen(s), if CodeAt(s) >= 0x10000 then 2 else 1)
    else Piece(FFFD, 1, 1)
  }

  lemma SurrogateRange(s: seq<byte>)
    ensures Surrogate(s) != 0 ==> 0xD800 <= Surrogate(s) < 0xE000 && |s| > 2 && CharLen(s) == 0
  {
    if Surrogate(s) != 0 {
      Code3Is(s[0], s[1], s[2]);
      MatchedUnfold(s[1..], 2, 0x80, 0x9F);
    }
  }

  datatype Exported = Exported(out: seq<byte>, units: nat)

  /** `utf8_export_wtf8` into `room` bytes. */
  function Export(s: seq<byte>, room: nat): Exported
    decreases |s|
  {
    if s == [] || |Next(s).out| > room then Exported([], 0)
    else
      var p := Next(s);
      var rest := Export(s[p.used..], room - |p.out|);
      Exported(p.out + rest.out, p.units + rest.units)
  }

  /** The export with room for everything. */
  function ExportAll(s: seq<byte>): seq<byte>
    decreases |s|
  {
    if s == [] then [] else Next(s).out + ExportAll(s[Next(s).used..])
  }

  lemma NextBounds(s: seq<byte>)
    requires s != []
    ensures Valid(Next(s).out) && |Next(s).out| <= 3 * Next(s).used
  {
    Utf8Decode.FffdValid();
    SurrogateRange(s);
    if Surrogate(s) != 0 {
      var second := Surrogate(s[3..]);
      if High(Surrogate(s)) && Low(second) {
        EncodeValid(Pair(Surrogate(s), second));
      }
    } else if CharLen(s) > 0 {
      CharIsEncoding(s);
      EncodeValid(CodeAt(s));
    }
  }

  lemma EncodeValid(cp: codepoint)
    requires Scalar(cp)
    ensures Valid(Encode(cp))
  {
    EncodedIsValid([cp]);
    assert EncodeAll([cp]) == Encode(cp) + [] == Encode(cp);
  }

  /** Whatever the bytes and the room, the export is valid UTF-8 and fits. */
  lemma {:induction false} ExportValid(s: seq<byte>, room: nat)
    ensures Valid(Export(s, room).out) && |Export(s, room).out| <= room
    decreases |s|
  {
    hide Next, Valid;
    EmptyValid([]);
    if s != [] && |Next(s).out| <= room {
      NextBounds(s);
      ExportValid(s[Next(s).used..], room - |Next(s).out|);
      ValidConcat(Next(s).out, Export(s[Next(s).used..], room - |Next(s).out|).out);
    }
  }

  /** With enough room the greedy export is the whole export. */
  lemma {:induction false} ExportWhole(s: seq<byte>, room: nat)
    ensures |ExportAll(s)| <= 3 * |s|
    ensures |ExportAll(s)| <= room ==> Export(s, room).out == ExportAll(s)
    decreases |s|
  {
    hide Next;
    if s != [] {
      NextBounds(s);
      var p := Next(s);
      ExportWhole(s[p.used..], if |p.out| <= room then room - |p.out| else 0);
    }
  }

  // ---------------------------------------------------------------- the fast path

  predicate Continuation(c: byte) { 0x80 <= c < 0xC0 }

  /** Step back from `len` to the start of a character. */
  function BackUp(s: seq<byte>, len: nat): (n: nat)
    requires len <= |s|
    ensures n <= len
  {
    if 0 < len < |s| && Continuation(s[len]) then BackUp(s, len - 1) else len
  }

  lemma ValidNext(s: seq<byte>)
    requires Valid(s) && s != []
    ensures var n := CharLen(s);
      && n > 0 && Next(s) == Piece(s[..n], n, Scan.SUnits(s[0])) && Scan.SLen(s[0]) == n
      && !Continuation(s[0]) && (forall i | 1 <= i < n :: Continuation(s[i]))
  {
    SurrogateRange(s);
    CharIsEncoding(s);
    match LeadOf(s[0])
    case Ascii =>
    case Multi(need, lo, hi) => MatchedUnfold(s[1..], need, lo, hi);
  }

  lemma {:induction false} BackUpInside(s: seq<byte>, len: nat, n: nat)
    requires len < n <= |s| && forall i | 1 <= i < n :: Continuation(s[i])
    ensures BackUp(s, len) == 0
  {
    if len > 0 { BackUpInside(s, len - 1, n); }
  }

  lemma {:induction false} BackUpShift(s: seq<byte>, len: nat, n: nat)
    requires n <= len <= |s| && (n < |s| ==> !Continuation(s[n]))
    ensures BackUp(s, len) == n + BackUp(s[n..], len - n)
  {
    if n < len < |s| && Continuation(s[len]) { BackUpShift(s, len - 1, n); }
  }

  /** The truncated copy of a valid string, and the code units in it. */
  function FastExport(s: seq<byte>, room: nat): Exported {
    var len := if |s| < room then |s| else room;
    var n := if len < |s| then BackUp(s, len) else len;
    Exported(s[..n], |Scan.Units(s[..n])|)
  }

  lemma {:induction false} ShiftUnits(s: seq<byte>, n: nat, p: nat)
    requires n <= |s|
    ensures |Scan.UnitsFrom(s, n + p)| == |Scan.UnitsFrom(s[n..], p)|
    decreases |s| - p
  {
    hide Scan.SLen, Scan.SUnits, Scan.CharUnits;
    if n + p < |s| && Scan.Ready(s, n + p) {
      assert s[n..][p] == s[n + p];
      Scan.CharCount(s, n + p);
      Scan.CharCount(s[n..], p);
      ShiftUnits(s, n, p + Scan.SLen(s[n + p]));
    }
  }

  lemma PrefixUnits(s: seq<byte>, n: nat, m: nat)
    requires s != [] && n == Scan.SLen(s[0]) && n + m <= |s|
    ensures |Scan.Units(s[..n + m])| == Scan.SUnits(s[0]) + |Scan.Units(s[n..][..m])|
  {
    hide Scan.SLen, Scan.SUnits, Scan.CharUnits;
    var t := s[..n + m];
    assert t[n..] == s[n..][..m] && t[0] == s[0];
    ShiftUnits(t, n, 0);
    Scan.CharCount(t, 0);
  }

  /** On valid strings the truncating copy is the greedy export, byte for byte and unit for
      unit, for every destination size. */
  lemma {:induction false} FastIsGreedy(s: seq<byte>, room: nat)
    requires Valid(s)
    ensures FastExport(s, room) == Export(s, room)
    decreases |s|
  {
    hide Next, CharLen, Scan.UnitsFrom;
    if s == [] {
      assert s[..0] == [];
      Scan.NoUnits([]);
    } else {
      ValidNext(s);
      var n := CharLen(s);
      if n > room {
        BackUpInside(s, room, n);
        assert s[..0] == [];
        Scan.NoUnits([]);
      } else {
        ValidTail(s);
        FastIsGreedy(s[n..], room - n);
        FastStep(s, n, room);
      }
    }
  }

  lemma ValidTail(s: seq<byte>)
    requires Valid(s) && s != []
    ensures CharLen(s) <= |s| && Valid(s[CharLen(s)..])
    ensures CharLen(s) < |s| ==> !Continuation(s[CharLen(s)])
  {
    var t := s[CharLen(s)..];
    if t != [] { ValidNext(t); assert t[0] == s[CharLen(s)]; }
  }

  lemma FastStep(s: seq<byte>, n: nat, room: nat)
    requires s != [] && n <= |s| && n <= room && n == Scan.SLen(s[0]) && (n < |s| ==> !Continuation(s[n]))
    ensures var f := FastExport(s[n..], room - n);
      FastExport(s, room) == Exported(s[..n] + f.out, Scan.SUnits(s[0]) + f.units)
  {
    hide Scan.Units, Scan.SLen, Scan.SUnits;
    var len := if |s| < room then |s| else room;
    if len < |s| { BackUpShift(s, len, n); }
    var m := |FastExport(s[n..], room - n).out|;
    PrefixUnits(s, n, m);
    assert s[..n + m] == s[..n] + s[n..][..m];
  }

  lemma {:induction false} ValidExportsItself(s: seq<byte>)
    requires Valid(s)
    ensures ExportAll(s) == s
    decreases |s|
  {
    hide Next, CharLen;
    if s != [] {
      ValidNext(s);
      ValidTail(s);
      var n := CharLen(s);
      ValidExportsItself(s[n..]);
      assert s[..n] + s[n..] == s;
    }
  }

  /** `utf16_strlen` */
  method Utf16Strlen(s: seq<byte>) returns (units: nat)
    ensures units == Scan.UnitCount(s) && (units == |Scan.Units(s)| <==> Scan.Whole(s))
  {
    hide Scan.SLen, Scan.SUnits;
    var p: nat := 0;
    units := 0;
    while p < |s|
      invariant units + Scan.UnitCount(s, p) == Scan.UnitCount(s)
      decreases |s| - p
    {
      p, units := p + Scan.SLen(s[p]), units + Scan.SUnits(s[p]);
    }
    Scan.CountIsLength(s, 0);
  }

  /** The greedy loop of `utf8_export_wtf8`. */
  method ExportGreedy(src: seq<byte>, room: nat) returns (e: Exported)
    ensures e == Export(src, room)
  {
    hide Next, Export;
    var pos: nat := 0;
    e := Exported([], 0);
    assert src[0..] == src;
    while pos < |src|
      invariant pos <= |src| && |e.out| <= room
      invariant Export(src, room) == Joined(e, Export(src[pos..], room - |e.out|))
      decreases |src| - pos
    {
      var p := Next(src[pos..]);
      if |p.out| > room - |e.out| { break; }
      ExportStep(src, pos, room, e.out, e.units);
      e, pos := Exported(e.out + p.out, e.units + p.units), pos + p.used;
    }
    ExportStop(src[pos..], room - |e.out|);
  }

  lemma ExportStop(s: seq<byte>, room: nat)
    requires s == [] || |Next(s).out| > room
    ensures Export(s, room) == Exported([], 0)
  {
  }

  function Joined(a: Exported, b: Exported): Exported { Exported(a.out + b.out, a.units + b.units) }

  lemma ExportStep(src: seq<byte>, pos: nat, room: nat, out: seq<byte>, units: nat)
    requires pos < |src| && |out| <= room && |Next(src[pos..]).out| <= room - |out|
    ensures var p := Next(src[pos..]);
      Joined(Exported(out, units), Export(src[pos..], room - |out|))
      == Joined(Exported(out + p.out, units + p.units), Export(src[pos + p.used..], room - |out| - |p.out|))
  {
    hide Next;
    var p := Next(src[pos..]);
    assert src[pos..][p.used..] == src[pos + p.used..];
  }

  lemma {:induction false} ValidWhole(s: seq<byte>, p: nat)
    requires p <= |s| && Valid(s[p..])
    ensures Scan.WholeFrom(s, p)
    decreases |s| - p
  {
    hide CharLen, Next, Scan.SLen;
    if p < |s| {
      var t := s[p..];
      ValidNext(t);
      ValidTail(t);
      assert t[CharLen(t)..] == s[p + CharLen(t)..];
      ValidWhole(s, p + CharLen(t));
    }
  }

  /** A truncation at a backed-up position leaves a valid string. */
  lemma FastValid(s: seq<byte>, room: nat)
    requires Valid(s)
    ensures Valid(FastExport(s, room).out)
  {
    FastIsGreedy(s, room);
    ExportValid(s, room);
  }

  // ---------------------------------------------------------------- what the header remembers

  const ASCII_UNKNOWN: bv64 := 0
  const ASCII_YES: bv64 := 1
  const ASCII_NO: bv64 := 2

  const UTF_UNKNOWN: bv64 := 0
  const UTF_VALID: bv64 := 1
  const UTF_INVALID: bv64 := 2
  const UTF_SAME_LENGTH: bv64 := 3

  const LEN_UNKNOWN: bv64 := 0xFF_FFFF_FFFF_FFFF
  const P56: nat := 0x100_0000_0000_0000

  type Word = bv64

  /** The packed header word: code-unit length below bit 56, two bits each for the states. */
  function AsciiState(meta: Word): Word { (meta & 0x300_0000_0000_0000) >> 56 }
  function UtfState(meta: Word): Word { (meta & 0xC00_0000_0000_0000) >> 58 }
  function Length16(meta: Word): Word { meta & 0xFF_FFFF_FFFF_FFFF }

  function InitMeta(ascii: Word): Word { (ascii << 56) | 0xFF_FFFF_FFFF_FFFF }

  function SetUtfState(meta: Word, state: Word): Word {
    (meta & !0xC00_0000_0000_0000) | ((state << 58) & 0xC00_0000_0000_0000)
  }

  function SetLength16(meta: Word, len: Word): Word {
    (meta & !0xFF_FFFF_FFFF_FFFF) | (len & 0xFF_FFFF_FFFF_FFFF)
  }

  lemma SetUtfStateReads(meta: Word, state: Word)
    requires state < 4
    ensures UtfState(SetUtfState(meta, state)) == state
  {
  }

  lemma SetUtfStateKeeps(meta: Word, state: Word)
    ensures AsciiState(SetUtfState(meta, state)) == AsciiState(meta)
    ensures Length16(SetUtfState(meta, state)) == Length16(meta)
  {
  }

  lemma SetLengthReads(meta: Word, len: Word)
    requires len < 0x100_0000_0000_0000
    ensures Length16(SetLength16(meta, len)) == len
  {
  }

  /** Lengths below 2^56 fit the header. */
  lemma LengthFits(n: nat)
    requires n < P56
    ensures n as Word < 0x100_0000_0000_0000
  {
  }

  lemma SetLengthKeeps(meta: Word, len: Word)
    ensures UtfState(SetLength16(meta, len)) == UtfState(meta)
    ensures AsciiState(SetLength16(meta, len)) == AsciiState(meta)
  {
  }

  lemma InitMetaReads(state: Word)
    requires state < 4
    ensures AsciiState(InitMeta(state)) == state && UtfState(InitMeta(state)) == UTF_UNKNOWN
    ensures Length16(InitMeta(state)) == LEN_UNKNOWN
  {
  }

  /** A flat string: its bytes never change, its header word does. */
  class FlatString {
    const bytes: seq<byte>
    var meta: Word

    /** The bytes have this length in code units. */
    ghost predicate LengthIs(len: Word) { Scan.UnitCount(bytes) < P56 && len == Scan.UnitCount(bytes) as Word }

    /** Whatever the header claims about the bytes is so. */
    ghost predicate Honest()
      reads this
    {
      && (AsciiState(meta) == ASCII_YES ==> Scan.AllAscii(bytes))
      && (AsciiState(meta) == ASCII_NO ==> !Scan.AllAscii(bytes))
      && AsciiState(meta) != 3
      && (UtfState(meta) == UTF_VALID ==> Valid(bytes))
      && (UtfState(meta) == UTF_INVALID ==> !Valid(bytes))
      && (UtfState(meta) == UTF_SAME_LENGTH ==> !Valid(bytes) && |ExportAll(bytes)| == |bytes|)
      && (Length16(meta) != LEN_UNKNOWN ==> LengthIs(Length16(meta)))
    }

    constructor (s: seq<byte>)
      ensures bytes == s && Honest()
    {
      bytes := s;
      meta := InitMeta(ASCII_UNKNOWN);
      new;
      InitMetaReads(ASCII_UNKNOWN);
    }

    /** `str_flat_set_utf16_len` */
    method RememberLength(len: Word)
      requires Honest() && LengthIs(len)
      modifies this
      ensures Honest() && Length16(meta) == len
    {
      hide Valid, ExportAll, Scan.UnitCount;
      LengthFits(Scan.UnitCount(bytes));
      SetLengthKeeps(meta, len);
      SetLengthReads(meta, len);
      meta := SetLength16(meta, len);
    }

    /** `flat_utf16_len`: in every state of the header the answer is the length in code units. */
    method Utf16Length() returns (len: Word)
      requires Honest() && |bytes| + 1 < P56
      modifies this
      ensures Honest() && LengthIs(len)
    {
      hide Valid, ExportAll, Scan.UnitCount;
      assert Scan.UnitCount(bytes) <= |bytes| + 1 by { Scan.CountIsLength(bytes, 0); }
      var ascii := IsAscii();
      if ascii { AsciiLength(bytes); return |bytes| as Word; }
      len := Length16(meta);
      if len == LEN_UNKNOWN {
        var n := Utf16Strlen(bytes);
        len := n as Word;
        RememberLength(len);
      }
    }

    /** `str_is_ascii` */
    method IsAscii() returns (r: bool)
      requires Honest()
      modifies this
      ensures Honest() && (r <==> Scan.AllAscii(bytes)) && AsciiState(meta) == if r then ASCII_YES else ASCII_NO
      ensures old(UtfState(meta)) == UTF_UNKNOWN ==> UtfState(meta) == UTF_UNKNOWN
    {
      hide Valid, ExportAll;
      if AsciiState(meta) == ASCII_UNKNOWN {
        var state := DetectAscii(bytes);
        InitMetaReads(state);
        meta := InitMeta(state);
      }
      StatesAreFour(meta);
      return AsciiState(meta) == ASCII_YES;
    }

    /** `str_is_valid_utf8` */
    method IsValidUtf8() returns (r: bool)
      requires Honest()
      modifies this
      ensures Honest() && (r <==> Valid(bytes))
    {
      hide Valid, ExportAll;
      var ascii := IsAscii();
      if ascii { AsciiIsValid(bytes); return true; }
      if UtfState(meta) == UTF_UNKNOWN {
        var ok := ValidateBytes(bytes);
        var state := if ok then UTF_VALID else UTF_INVALID;
        SetUtfStateReads(meta, state);
        SetUtfStateKeeps(meta, state);
        meta := SetUtfState(meta, state);
      }
      StatesAreFour(meta);
      return UtfState(meta) == UTF_VALID;
    }

    /** `utf8_export_length`: in every state of the header the answer is the length that an
        unlimited export writes. */
    method ExportLength() returns (len: nat)
      requires Honest()
      modifies this
      ensures Honest() && len == |ExportAll(bytes)|
    {
      hide Valid, ExportAll;
      if bytes == [] { EmptyExport(); return 0; }
      var state := UtfState(meta);
      if state == UTF_VALID { ValidExportsItself(bytes); return |bytes|; }
      if state == UTF_SAME_LENGTH { return |bytes|; }
      if state == UTF_UNKNOWN {
        var ascii := IsAscii();
        if ascii { AsciiIsValid(bytes); ValidExportsItself(bytes); return |bytes|; }
      }
      len := ExportLengthSlow();
    }

    method ExportLengthSlow() returns (len: nat)
      requires Honest()
      modifies this
      ensures Honest() && len == |ExportAll(bytes)|
    {
      hide Valid, ExportAll;
      var valid := IsValidUtf8();
      if valid { ValidExportsItself(bytes); return |bytes|; }
      ExportWhole(bytes, 3 * |bytes|);
      var e := ExportGreedy(bytes, 3 * |bytes|);
      len := |e.out|;
      if len == |bytes| {
        SetUtfStateReads(meta, UTF_SAME_LENGTH);
        SetUtfStateKeeps(meta, UTF_SAME_LENGTH);
        meta := SetUtfState(meta, UTF_SAME_LENGTH);
      }
    }

    /** `utf8_export_into`: both paths give the greedy export. */
    method ExportInto(room: nat) returns (e: Exported)
      requires Honest()
      modifies this
      ensures Honest() && e == Export(bytes, room)
    {
      hide Valid, ExportAll, Export;
      if bytes == [] { ExportStop(bytes, room); return Exported([], 0); }
      var valid := IsValidUtf8();
      if !valid { e := ExportGreedy(bytes, room); return; }
      var len := if |bytes| < room then |bytes| else room;
      if len < |bytes| {
        var from := len;
        while len > 0 && Continuation(bytes[len])
          invariant 0 <= len < |bytes| && BackUp(bytes, from) == BackUp(bytes, len)
          modifies {}
        {
          len := len - 1;
        }
      }
      FastIsGreedy(bytes, room);
      FastValid(bytes, room);
      assert FastExport(bytes, room).out == bytes[..len];
      WholeIfValid(bytes[..len]);
      var units := Utf16Strlen(bytes[..len]);
      return Exported(bytes[..len], units);
    }
  }

  lemma StatesAreFour(meta: Word)
    ensures AsciiState(meta) < 4 && UtfState(meta) < 4
  {
  }

  /** `str_detect_ascii_bytes` */
  method DetectAscii(s: seq<byte>) returns (state: Word)
    ensures state == if Scan.AllAscii(s) then ASCII_YES else ASCII_NO
  {
    for i := 0 to |s|
      invariant forall j | 0 <= j < i :: s[j] < 0x80
    {
      if s[i] >= 0x80 { return ASCII_NO; }
    }
    return ASCII_YES;
  }

  lemma AsciiLength(s: seq<byte>)
    requires Scan.AllAscii(s)
    ensures Scan.UnitCount(s) == |s|
  {
    Scan.AsciiUnits(s, 0, 0);
    Scan.CountIsLength(s, 0);
  }

  lemma {:induction false} AsciiIsValid(s: seq<byte>)
    requires Scan.AllAscii(s)
    ensures Valid(s)
  {
    if s != [] { AsciiIsValid(s[1..]); }
  }

  lemma EmptyExport()
    ensures ExportAll([]) == []
  {
  }

  lemma WholeIfValid(s: seq<byte>)
    requires Valid(s)
    ensures Scan.Whole(s)
  {
    assert s[0..] == s;
    ValidWhole(s, 0);
  }
}
