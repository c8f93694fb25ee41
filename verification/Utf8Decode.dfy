/** The streaming UTF-8 decoder of section 8.1.1 of the WHATWG Encoding Standard: replacement
    of ill-formed input by U+FFFD, byte order mark removal, and pending bytes between chunks. */
module Utf8Decode {
  import opened Utf8

  /** `Fatal` is the decoder's error return; `pend` are the bytes kept for the next chunk. */
  datatype Outcome = Fatal | Done(out: seq<byte>, bomSeen: bool, pend: seq<byte>)

  datatype Mode = Mode(ignoreBom: bool, fatal: bool, stream: bool)

  function Then(out: seq<byte>, r: Outcome): Outcome {
    if r.Fatal? then Fatal else r.(out := out + r.out)
  }

  /** What a complete sequence contributes: nothing if it is a leading byte order mark. */
  function Emit(s: seq<byte>, bom: bool, ignoreBom: bool): seq<byte>
    requires CharLen(s) > 0
  {
    CharIsEncoding(s);
    if !bom && CodeAt(s) == 0xFEFF && !ignoreBom then [] else Encode(CodeAt(s))
  }

  /** The decoder run on the bytes `s`. */
  function Decode(s: seq<byte>, bom: bool, mode: Mode): Outcome {
    if s == [] then Done([], bom, [])
    else match LeadOf(s[0])
      case Ascii => Then([s[0]], Decode(s[1..], true, mode))
      case Bad => if mode.fatal then Fatal else Then(FFFD, Decode(s[1..], true, mode))
      case Multi(need, lo, hi) =>
        var m := Matched(s[1..], need, lo, hi);
        if m == need then Then(Emit(s, bom, mode.ignoreBom), Decode(s[m + 1..], true, mode))
        else if m + 1 == |s| then
          if mode.stream then Done([], bom, s)
          else if mode.fatal then Fatal
          else Done(FFFD, bom, [])
        else if mode.fatal then Fatal
        else Then(FFFD, Decode(s[m + 1..], true, mode))
  }

  // ---------------------------------------------------------------- chunks

  lemma {:induction false} MatchedPrefix(a: seq<byte>, b: seq<byte>, need: nat, lo: byte, hi: byte)
    ensures var m := Matched(a, need, lo, hi);
      m == need || m < |a| ==> Matched(a + b, need, lo, hi) == m
  {
    if need > 0 && a != [] && lo <= a[0] <= hi {
      MatchedPrefix(a[1..], b, need - 1, 0x80, 0xBF);
      assert (a + b)[1..] == a[1..] + b;
    }
  }

  lemma CharPrefix(a: seq<byte>, b: seq<byte>)
    requires CharLen(a) > 0
    ensures CharLen(a + b) == CharLen(a) && CodeAt(a + b) == CodeAt(a)
  {
    hide Matched, Code2, Code3, Code4;
    match LeadOf(a[0])
    case Ascii =>
    case Multi(need, lo, hi) =>
      MatchedPrefix(a[1..], b, need, lo, hi);
      assert (a + b)[1..] == a[1..] + b;
  }

  lemma ThenThen(x: seq<byte>, y: seq<byte>, r: Outcome)
    ensures Then(x, Then(y, r)) == Then(x + y, r)
  {
    if r.Done? { assert x + (y + r.out) == (x + y) + r.out; }
  }

  /** Stopping after `a` and resuming with the pending bytes before `b` changes nothing. */
  ghost predicate Resumes(a: seq<byte>, b: seq<byte>, bom: bool, mode: Mode) {
    var r := Decode(a, bom, mode.(stream := true));
    Decode(a + b, bom, mode) == if r.Fatal? then Fatal else Then(r.out, Decode(r.pend + b, r.bomSeen, mode))
  }

  lemma ResumeStep(a: seq<byte>, b: seq<byte>, n: nat, x: seq<byte>, bom: bool, mode: Mode)
    requires n <= |a| && Resumes(a[n..], b, true, mode)
    requires Decode(a, bom, mode.(stream := true)) == Then(x, Decode(a[n..], true, mode.(stream := true)))
    requires Decode(a + b, bom, mode) == Then(x, Decode((a + b)[n..], true, mode))
    ensures Resumes(a, b, bom, mode)
  {
    hide Decode;
    assert (a + b)[n..] == a[n..] + b;
    var r := Decode(a[n..], true, mode.(stream := true));
    if r.Done? { ThenThen(x, r.out, Decode(r.pend + b, r.bomSeen, mode)); }
  }

  lemma {:induction false} Resume(a: seq<byte>, b: seq<byte>, bom: bool, mode: Mode)
    ensures Resumes(a, b, bom, mode)
    decreases |a|
  {
    hide Emit, CharLen;
    if a == [] {
      assert a + b == b && [] + b == b;
      ThenNothing(Decode(b, bom, mode));
    } else {
      assert (a + b)[0] == a[0] && (a + b)[1..] == a[1..] + b;
      match LeadOf(a[0])
      case Ascii =>
        Resume(a[1..], b, true, mode);
        ResumeStep(a, b, 1, [a[0]], bom, mode);
      case Bad =>
        if !mode.fatal {
          Resume(a[1..], b, true, mode);
          ResumeStep(a, b, 1, FFFD, bom, mode);
        }
      case Multi(need, lo, hi) => ResumeMulti(a, b, bom, mode, need, lo, hi);
    }
  }

  lemma ThenNothing(r: Outcome)
    ensures Then([], r) == r
  {
  }

  lemma {:induction false} ResumeMulti(a: seq<byte>, b: seq<byte>, bom: bool, mode: Mode, need: nat, lo: byte, hi: byte)
    requires a != [] && LeadOf(a[0]) == Multi(need, lo, hi)
    ensures Resumes(a, b, bom, mode)
    decreases |a|, 0
  {
    hide Emit, CharLen, Matched, LeadOf;
    assert (a + b)[0] == a[0] && (a + b)[1..] == a[1..] + b;
    MatchedPrefix(a[1..], b, need, lo, hi);
    var m := Matched(a[1..], need, lo, hi);
    if m == need {
      EmitPrefix(a, b, bom, mode, need, lo, hi);
      Resume(a[m + 1..], b, true, mode);
      ResumeStep(a, b, m + 1, Emit(a, bom, mode.ignoreBom), bom, mode);
    } else if m + 1 == |a| {
      ThenNothing(Decode(a + b, bom, mode));
    } else if !mode.fatal {
      Resume(a[m + 1..], b, true, mode);
      ResumeStep(a, b, m + 1, FFFD, bom, mode);
    }
  }

  lemma EmitPrefix(a: seq<byte>, b: seq<byte>, bom: bool, mode: Mode, need: nat, lo: byte, hi: byte)
    requires a != [] && LeadOf(a[0]) == Multi(need, lo, hi) && Matched(a[1..], need, lo, hi) == need
    ensures CharLen(a) > 0 && CharLen(a + b) > 0 && Emit(a + b, bom, mode.ignoreBom) == Emit(a, bom, mode.ignoreBom)
  {
    CharPrefix(a, b);
  }

  function Flatten(chunks: seq<seq<byte>>): seq<byte> {
    if chunks == [] then [] else chunks[0] + Flatten(chunks[1..])
  }

  /** A text decoder fed `chunks` one after another, each call prepending the pending bytes; only
      the last call ends the stream. */
  function DecodeChunks(chunks: seq<seq<byte>>, pend: seq<byte>, bom: bool, mode: Mode): Outcome
    requires chunks != []
  {
    if |chunks| == 1 then Decode(pend + chunks[0], bom, mode.(stream := false))
    else
      var r := Decode(pend + chunks[0], bom, mode.(stream := true));
      if r.Fatal? then Fatal
      else Then(r.out, DecodeChunks(chunks[1..], r.pend, r.bomSeen, mode))
  }

  /** However a byte stream is cut into chunks, the result is that of one call on the whole. */
  lemma {:induction false} ChunksDoNotMatter(chunks: seq<seq<byte>>, pend: seq<byte>, bom: bool, mode: Mode)
    requires chunks != []
    ensures DecodeChunks(chunks, pend, bom, mode) == Decode(pend + Flatten(chunks), bom, mode.(stream := false))
  {
    hide Decode;
    if |chunks| == 1 {
      assert Flatten(chunks) == chunks[0] + [];
      assert pend + Flatten(chunks) == pend + chunks[0];
    } else {
      var a, b := pend + chunks[0], Flatten(chunks[1..]);
      assert pend + Flatten(chunks) == a + b;
      Resume(a, b, bom, mode.(stream := false));
      var r := Decode(a, bom, mode.(stream := true));
      if r.Done? { ChunksDoNotMatter(chunks[1..], r.pend, r.bomSeen, mode); }
    }
  }

  // ---------------------------------------------------------------- output

  /** Output is valid UTF-8, no more than three bytes for each byte read, and the pending bytes
      fit the three-byte buffer. */
  lemma {:induction false} DecodeBounds(s: seq<byte>, bom: bool, mode: Mode)
    ensures var r := Decode(s, bom, mode);
      r.Done? ==> Valid(r.out) && |r.out| <= 3 * |s| && |r.pend| <= 3 && (r.pend != [] ==> mode.stream)
    decreases |s|
  {
    hide Emit, Valid, CharLen, Matched;
    FffdValid();
    if s == [] {
      EmptyValid([]);
    } else {
      match LeadOf(s[0])
      case Ascii =>
        DecodeBounds(s[1..], true, mode);
        AsciiValid(s[0]);
        ThenBounds([s[0]], Decode(s[1..], true, mode));
      case Bad =>
        DecodeBounds(s[1..], true, mode);
        ThenBounds(FFFD, Decode(s[1..], true, mode));
      case Multi(need, lo, hi) =>
        var m := Matched(s[1..], need, lo, hi);
        DecodeBounds(s[m + 1..], true, mode);
        if m == need {
          EmitBounds(s, bom, mode);
          ThenBounds(Emit(s, bom, mode.ignoreBom), Decode(s[m + 1..], true, mode));
        } else {
          EmptyValid([]);
          ThenBounds(FFFD, Decode(s[m + 1..], true, mode));
        }
    }
  }

  lemma FffdValid()
    ensures Valid(FFFD)
  {
    MatchedUnfold(FFFD[1..], 2, 0x80, 0xBF);
    assert CharLen(FFFD) == 3 && FFFD[3..] == [];
  }

  lemma AsciiValid(c: byte)
    requires c < 0x80
    ensures Valid([c])
  {
    assert [c][1..] == [];
  }

  lemma EmitBounds(s: seq<byte>, bom: bool, mode: Mode)
    requires s != [] && LeadOf(s[0]).Multi?
    requires var l := LeadOf(s[0]); Matched(s[1..], l.need, l.lo, l.hi) == l.need
    ensures CharLen(s) == LeadOf(s[0]).need + 1
    ensures Valid(Emit(s, bom, mode.ignoreBom)) && |Emit(s, bom, mode.ignoreBom)| <= CharLen(s)
  {
    hide Matched, Encode;
    CharIsEncoding(s);
    EncodedIsValid([CodeAt(s)]);
    assert EncodeAll([CodeAt(s)]) == Encode(CodeAt(s)) + [];
    assert Encode(CodeAt(s)) + [] == Encode(CodeAt(s));
  }

  lemma ThenBounds(x: seq<byte>, r: Outcome)
    requires Valid(x)
    ensures r.Done? && Valid(r.out) ==> Valid(Then(x, r).out)
  {
    if r.Done? && Valid(r.out) { ValidConcat(x, r.out); }
  }

  /** A fatal, non-streaming decode succeeds exactly on the strings the validator accepts. */
  lemma {:induction false} FatalIffInvalid(s: seq<byte>, bom: bool, mode: Mode)
    requires mode.fatal && !mode.stream
    ensures Decode(s, bom, mode).Done? <==> Valid(s)
    decreases |s|
  {
    hide Emit, Matched;
    if s != [] {
      match LeadOf(s[0])
      case Ascii => FatalIffInvalid(s[1..], true, mode);
      case Bad =>
      case Multi(need, lo, hi) => FatalIffInvalid(s[Matched(s[1..], need, lo, hi) + 1..], true, mode);
    }
  }

  /** Valid input comes out unchanged, but for one byte order mark at the very front. */
  lemma {:induction false} ValidPassesThrough(s: seq<byte>, bom: bool, mode: Mode)
    requires Valid(s)
    ensures var skip := !bom && !mode.ignoreBom && s != [] && CodeAt(s) == 0xFEFF;
      Decode(s, bom, mode) == Done(if skip then s[CharLen(s)..] else s, bom || s != [], [])
    decreases |s|
  {
    hide Decode, CharLen, CodeAt;
    if s == [] {
      DecodeEmpty(bom, mode);
    } else {
      var n := CharLen(s);
      DecodeChar(s, bom, mode);
      ValidPassesThrough(s[n..], true, mode);
      assert s[..n] + s[n..] == s;
      assert [] + s[n..] == s[n..];
    }
  }

  lemma DecodeEmpty(bom: bool, mode: Mode)
    ensures Decode([], bom, mode) == Done([], bom, [])
  {
  }

  lemma DecodeChar(s: seq<byte>, bom: bool, mode: Mode)
    requires CharLen(s) > 0
    ensures var n, skip := CharLen(s), !bom && !mode.ignoreBom && CodeAt(s) == 0xFEFF;
      Decode(s, bom, mode) == Then(if skip then [] else s[..n], Decode(s[n..], true, mode))
  {
    hide Encode, Matched;
    CharIsEncoding(s);
    if s[0] < 0x80 { assert s[..1] == [s[0]]; }
  }

  // ---------------------------------------------------------------- the decoder as a loop

  lemma Advance(src: seq<byte>, i: nat, n: nat, x: seq<byte>, out: seq<byte>, bom: bool, mode: Mode)
    requires i + n <= |src| && Decode(src[i..], bom, mode) == Then(x, Decode(src[i..][n..], true, mode))
    ensures Then(out, Decode(src[i..], bom, mode)) == Then(out + x, Decode(src[i + n..], true, mode))
  {
    hide Decode;
    assert src[i..][n..] == src[i + n..];
    ThenThen(out, x, Decode(src[i + n..], true, mode));
  }

  lemma Whole(s: seq<byte>)
    requires s != [] && LeadOf(s[0]).Multi?
    requires var l := LeadOf(s[0]); Matched(s[1..], l.need, l.lo, l.hi) == l.need
    ensures CharLen(s) > 0
  {
  }

  /** `utf8_whatwg_decode` */
  method DecodeBytes(src: seq<byte>, bom: bool, mode: Mode) returns (r: Outcome)
    ensures r == Decode(src, bom, mode)
  {
    hide Emit, Matched, CharLen, LeadOf;
    var i, out, bomSeen := 0, [], bom;
    assert src[0..] == src;
    ThenNothing(Decode(src, bom, mode));
    while i < |src|
      invariant i <= |src|
      invariant Decode(src, bom, mode) == Then(out, Decode(src[i..], bomSeen, mode))
    {
      var step := Next(src[i..], bomSeen, mode);
      if step.Stop? { return Then(out, step.result); }
      Advance(src, i, step.used, step.emit, out, bomSeen, mode);
      out, bomSeen, i := out + step.emit, true, i + step.used;
    }
    return Done(out, bomSeen, []);
  }

  datatype Step = Stop(result: Outcome) | Go(used: nat, emit: seq<byte>)

  /** One pass through the jump table: a byte or a sequence, or the reason to stop. */
  method Next(s: seq<byte>, bom: bool, mode: Mode) returns (step: Step)
    requires s != []
    ensures step.Stop? ==> step.result == Decode(s, bom, mode)
    ensures step.Go? ==>
      0 < step.used <= |s| && Decode(s, bom, mode) == Then(step.emit, Decode(s[step.used..], true, mode))
  {
    hide Emit, Matched, CharLen;
    var lead := LeadOf(s[0]);
    if lead.Ascii? { return Go(1, [s[0]]); }
    if lead.Bad? { return if mode.fatal then Stop(Fatal) else Go(1, FFFD); }
    var n := Cont(s, lead.need, lead.lo, lead.hi);
    if n == lead.need {
      Whole(s);
      return Go(n + 1, Emit(s, bom, mode.ignoreBom));
    }
    if n + 1 == |s| {
      if mode.stream { return Stop(Done([], bom, s)); }
      return Stop(if mode.fatal then Fatal else Done(FFFD, bom, []));
    }
    return if mode.fatal then Stop(Fatal) else Go(n + 1, FFFD);
  }

  /** Counts the continuation bytes after a lead byte, narrowing the allowed range once. */
  method Cont(s: seq<byte>, need: nat, lo: byte, hi: byte) returns (n: nat)
    requires s != []
    ensures n == Matched(s[1..], need, lo, hi)
  {
    n := 0;
    var l, h := lo, hi;
    while n < need && 1 + n < |s|
      invariant n <= need && 1 + n <= |s|
      invariant Matched(s[1..], need, lo, hi) == n + Matched(s[1 + n..], need - n, l, h)
    {
      if s[1 + n] < l || s[1 + n] > h { return; }
      assert s[1 + n..][1..] == s[2 + n..];
      l, h, n := 0x80, 0xBF, n + 1;
    }
  }
}
