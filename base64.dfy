/**
  Base64 as Go's `encoding/base64` does it with the standard alphabet of
  section 4 of RFC 4648: `StdEncoding` (padded with `=`) for encoding and
  decoding, `RawStdEncoding` (no padding, section 3.2 of RFC 4648) for decoding.

  Decoding follows Go's decoder: carriage returns and line feeds are skipped,
  bits left over in the last symbol are ignored (the encodings are not strict),
  and `DecodeString` hands back, together with its error, the bytes it had
  decoded before the error was found.
 */
module Base64 {
  import opened GoStrings

  /** The padding byte `=`. */
  const Pad: byte := 61

  predicate IsAlphabet(c: byte) {
    65 <= c <= 90 || 97 <= c <= 122 || 48 <= c <= 57 || c == 43 || c == 47
  }

  /** The character of a 6-bit value: `A`-`Z`, `a`-`z`, `0`-`9`, `+`, `/`. */
  function Symbol(v: int): (c: byte)
    requires 0 <= v < 64
    ensures IsAlphabet(c)
  {
    if v < 26 then 65 + v
    else if v < 52 then 97 + (v - 26)
    else if v < 62 then 48 + (v - 52)
    else if v == 62 then 43
    else 47
  }

  /** The 6-bit value of an alphabet character; `Symbol` undoes it. */
  function SymbolValue(c: byte): (v: int)
    requires IsAlphabet(c)
    ensures 0 <= v < 64 && Symbol(v) == c
  {
    if 65 <= c <= 90 then c - 65
    else if 97 <= c <= 122 then c - 97 + 26
    else if 48 <= c <= 57 then c - 48 + 52
    else if c == 43 then 62
    else 63
  }

  lemma ValueOfSymbol(v: int)
    requires 0 <= v < 64
    ensures SymbolValue(Symbol(v)) == v
  {
  }

  /** `StdEncoding.EncodeToString`: every three bytes become four symbols; a last group of one or two bytes is padded with `=`. */
  function StdEncode(b: seq<byte>): (s: GoString)
    ensures |s| == (|b| + 2) / 3 * 4
    decreases |b|
  {
    if |b| == 0 then []
    else if |b| == 1 then Group1(b[0]) + [Pad, Pad]
    else if |b| == 2 then Group2(b[0], b[1]) + [Pad]
    else
      assert (|b| + 2) / 3 == (|b[3..]| + 2) / 3 + 1;
      Group3(b[0], b[1], b[2]) + StdEncode(b[3..])
  }

  /** The four symbols of three bytes. */
  function Group3(b0: byte, b1: byte, b2: byte): (q: GoString)
    ensures |q| == 4 && forall i :: 0 <= i < 4 ==> IsAlphabet(q[i])
  {
    [Symbol(b0 / 4), Symbol(b0 % 4 * 16 + b1 / 16), Symbol(b1 % 16 * 4 + b2 / 64), Symbol(b2 % 64)]
  }

  /** The three symbols of a last group of two bytes (before its padding). */
  function Group2(b0: byte, b1: byte): (q: GoString)
    ensures |q| == 3 && forall i :: 0 <= i < 3 ==> IsAlphabet(q[i])
  {
    [Symbol(b0 / 4), Symbol(b0 % 4 * 16 + b1 / 16), Symbol(b1 % 16 * 4)]
  }

  /** The two symbols of a last group of one byte (before its padding). */
  function Group1(b0: byte): (q: GoString)
    ensures |q| == 2 && forall i :: 0 <= i < 2 ==> IsAlphabet(q[i])
  {
    [Symbol(b0 / 4), Symbol(b0 % 4 * 16)]
  }

  /** The bytes of a group of two to four symbols: one byte fewer than symbols, left-over bits dropped. */
  function Quantum(q: GoString): (b: seq<byte>)
    requires 2 <= |q| <= 4
    requires forall i :: 0 <= i < |q| ==> IsAlphabet(q[i])
    ensures |b| == |q| - 1
  {
    var v0, v1 := SymbolValue(q[0]), SymbolValue(q[1]);
    var b0 := v0 * 4 + v1 / 16;
    if |q| == 2 then [b0]
    else
      var v2 := SymbolValue(q[2]);
      var b1 := v1 % 16 * 16 + v2 / 4;
      if |q| == 3 then [b0, b1]
      else [b0, b1, v2 % 4 * 64 + SymbolValue(q[3])]
  }

  /** How many of the first (at most four) bytes of `s` are alphabet symbols. */
  function SymbolRun(s: GoString): (n: nat)
    ensures n <= 4 && n <= |s|
    ensures forall i :: 0 <= i < n ==> IsAlphabet(s[i])
    ensures n < 4 && n < |s| ==> !IsAlphabet(s[n])
  {
    if |s| == 0 || !IsAlphabet(s[0]) then 0
    else if |s| == 1 || !IsAlphabet(s[1]) then 1
    else if |s| == 2 || !IsAlphabet(s[2]) then 2
    else if |s| == 3 || !IsAlphabet(s[3]) then 3
    else 4
  }

  /** What `DecodeString` returns: the bytes decoded, and whether there was no error. */
  datatype Decoding = Decoding(bytes: seq<byte>, ok: bool)

  /** Go's decoding loop, one four-symbol quantum at a time, over input without line breaks. */
  function DecodeQuanta(s: GoString, padded: bool): (r: Decoding)
    ensures |r.bytes| * 4 <= |s| * 3
    ensures r.ok && padded ==> |s| % 4 == 0
    ensures r.ok ==> |s| % 4 != 1
    decreases |s|
  {
    if |s| == 0 then Decoding([], true)
    else
      var n := SymbolRun(s);
      if n == 4 then
        var rest := DecodeQuanta(s[4..], padded);
        assert |s| % 4 == |s[4..]| % 4;
        Decoding(Quantum(s[..4]) + rest.bytes, rest.ok)
      else if n == |s| then
        // the input ends inside a quantum: only the unpadded encoding accepts two or three symbols
        if n == 1 || padded then Decoding([], false) else Decoding(Quantum(s), true)
      else if !padded || s[n] != Pad || n < 2 then Decoding([], false)
      else if n == 2 && (|s| < 4 || s[3] != Pad) then Decoding([], false)
      else
        // a padded final quantum; anything after it is trailing garbage, reported after the bytes are kept
        Decoding(Quantum(s[..n]), |s| == 4)
  }

  /** The input without carriage returns and line feeds, which the decoder skips. */
  function StripNewlines(s: GoString): (t: GoString)
    ensures |t| <= |s|
    ensures forall i :: 0 <= i < |t| ==> t[i] != 10 && t[i] != 13
  {
    if s == [] then []
    else if s[0] == 10 || s[0] == 13 then StripNewlines(s[1..])
    else [s[0]] + StripNewlines(s[1..])
  }

  /** `StdEncoding.DecodeString`: accepted input is whole quanta of four, at most three bytes to each. */
  function StdDecodeString(s: GoString): (r: Decoding)
    ensures |r.bytes| * 4 <= |s| * 3
    ensures r.ok ==> |StripNewlines(s)| % 4 == 0
  {
    DecodeQuanta(StripNewlines(s), true)
  }

  /** `RawStdEncoding.DecodeString`: accepted input never ends in a lone symbol. */
  function RawStdDecodeString(s: GoString): (r: Decoding)
    ensures |r.bytes| * 4 <= |s| * 3
    ensures r.ok ==> |StripNewlines(s)| % 4 != 1
  {
    DecodeQuanta(StripNewlines(s), false)
  }

  /** Encoding uses neither line breaks nor the token separator. */
  lemma EncodedHasNoSeparators(b: seq<byte>)
    ensures Dot !in StdEncode(b)
    ensures StripNewlines(StdEncode(b)) == StdEncode(b)
  {
    EncodedSymbols(b);
    NoNewlinesKept(StdEncode(b));
  }

  /** An encoding holds only alphabet symbols and padding. */
  lemma {:induction false} EncodedSymbols(b: seq<byte>)
    ensures forall i :: 0 <= i < |StdEncode(b)| ==> IsAlphabet(StdEncode(b)[i]) || StdEncode(b)[i] == Pad
    decreases |b|
  {
    if |b| >= 3 {
      EncodedSymbols(b[3..]);
      var q, t := Group3(b[0], b[1], b[2]), StdEncode(b[3..]);
      assert StdEncode(b) == q + t;
      assert forall i :: 0 <= i < |q + t| ==> (q + t)[i] == if i < 4 then q[i] else t[i - 4];
    }
  }

  lemma {:induction false} NoNewlinesKept(s: GoString)
    requires forall i :: 0 <= i < |s| ==> s[i] != 10 && s[i] != 13
    ensures StripNewlines(s) == s
    decreases |s|
  {
    if s != [] {
      NoNewlinesKept(s[1..]);
      assert s == [s[0]] + s[1..];
    }
  }

  /** Each group of symbols decodes to the bytes it was made from. */
  lemma QuantumOfGroup3(b0: byte, b1: byte, b2: byte)
    ensures Quantum(Group3(b0, b1, b2)) == [b0, b1, b2]
  {
    ValueOfSymbol(b0 / 4);
    ValueOfSymbol(b0 % 4 * 16 + b1 / 16);
    ValueOfSymbol(b1 % 16 * 4 + b2 / 64);
    ValueOfSymbol(b2 % 64);
    assert (b0 % 4 * 16 + b1 / 16) / 16 == b0 % 4;
    assert (b0 % 4 * 16 + b1 / 16) % 16 == b1 / 16;
    assert (b1 % 16 * 4 + b2 / 64) / 4 == b1 % 16;
    assert (b1 % 16 * 4 + b2 / 64) % 4 == b2 / 64;
  }

  lemma QuantumOfGroup2(b0: byte, b1: byte)
    ensures Quantum(Group2(b0, b1)) == [b0, b1]
  {
    ValueOfSymbol(b0 / 4);
    ValueOfSymbol(b0 % 4 * 16 + b1 / 16);
    ValueOfSymbol(b1 % 16 * 4);
    assert (b0 % 4 * 16 + b1 / 16) / 16 == b0 % 4;
    assert (b0 % 4 * 16 + b1 / 16) % 16 == b1 / 16;
    assert (b1 % 16 * 4) / 4 == b1 % 16;
  }

  lemma QuantumOfGroup1(b0: byte)
    ensures Quantum(Group1(b0)) == [b0]
  {
    ValueOfSymbol(b0 / 4);
    ValueOfSymbol(b0 % 4 * 16);
    assert (b0 % 4 * 16) / 16 == b0 % 4;
  }

  /** Decoding with the padded decoder gives back exactly the encoded bytes, without error. */
  lemma {:induction false} StdRoundTrip(b: seq<byte>)
    ensures StdDecodeString(StdEncode(b)) == Decoding(b, true)
  {
    EncodedHasNoSeparators(b);
    QuantaRoundTrip(b);
  }

  /**
    The unpadded decoder accepts a padded encoding exactly when it carries no
    padding, that is when the byte count is a multiple of three; then it gives
    the bytes back.
   */
  lemma {:induction false} RawDecodeOfStdEncode(b: seq<byte>)
    ensures RawStdDecodeString(StdEncode(b)).ok <==> |b| % 3 == 0
    ensures |b| % 3 == 0 ==> RawStdDecodeString(StdEncode(b)).bytes == b
  {
    EncodedHasNoSeparators(b);
    RawQuanta(b);
    if |b| % 3 == 0 {
      assert b[..|b| / 3 * 3] == b;
    }
  }

  /**
    Whatever the length, the unpadded decoder returns the bytes of the full
    quanta of a padded encoding: the last one or two bytes, whose quantum ends
    in padding, are lost.
   */
  lemma {:induction false} RawDecodePrefix(b: seq<byte>)
    ensures RawStdDecodeString(StdEncode(b)).bytes == b[..|b| / 3 * 3]
    ensures RawStdDecodeString(StdEncode(b)).bytes == b <==> |b| % 3 == 0
  {
    EncodedHasNoSeparators(b);
    RawQuanta(b);
    if |b| % 3 == 0 {
      assert b[..|b| / 3 * 3] == b;
    } else {
      assert |b[..|b| / 3 * 3]| < |b|;
    }
  }

  /**
    A byte that is neither a symbol, nor padding, nor a line break, appended to
    an encoding, makes the decoder report an error while still returning every
    encoded byte.
   */
  lemma {:induction false} AppendedJunkKeepsBytes(b: seq<byte>, c: byte)
    requires !IsAlphabet(c) && c != Pad && c != 10 && c != 13
    ensures StdDecodeString(StdEncode(b) + [c]) == Decoding(b, false)
  {
    EncodedHasNoSeparators(b);
    NoNewlinesKept(StdEncode(b) + [c]);
    JunkQuanta(b, c);
  }

  // Decoding the shapes an encoding is made of

  /** A full quantum of four symbols gives three bytes, and decoding carries on after it. */
  lemma DecodeFullQuantum(q: GoString, t: GoString, padded: bool)
    requires |q| == 4 && forall i :: 0 <= i < 4 ==> IsAlphabet(q[i])
    ensures DecodeQuanta(q + t, padded)
         == Decoding(Quantum(q) + DecodeQuanta(t, padded).bytes, DecodeQuanta(t, padded).ok)
  {
    var s := q + t;
    assert s[..4] == q && s[4..] == t;
    assert forall i :: 0 <= i < 4 ==> s[i] == q[i];
    assert SymbolRun(s) == 4;
  }

  /** Two symbols and two pads end the padded decoding; anything after them is reported as an error. */
  lemma DecodeTwoPadded(q: GoString, t: GoString)
    requires |q| == 2 && forall i :: 0 <= i < 2 ==> IsAlphabet(q[i])
    ensures DecodeQuanta(q + [Pad, Pad] + t, true) == Decoding(Quantum(q), t == [])
  {
    var s := q + [Pad, Pad] + t;
    assert s[..2] == q && s[2] == Pad && s[3] == Pad;
    assert forall i :: 0 <= i < 2 ==> s[i] == q[i];
    assert SymbolRun(s) == 2;
    assert |s| == 4 <==> t == [];
  }

  /** Three symbols and one pad end the padded decoding; anything after them is reported as an error. */
  lemma DecodeThreePadded(q: GoString, t: GoString)
    requires |q| == 3 && forall i :: 0 <= i < 3 ==> IsAlphabet(q[i])
    ensures DecodeQuanta(q + [Pad] + t, true) == Decoding(Quantum(q), t == [])
  {
    var s := q + [Pad] + t;
    assert s[..3] == q && s[3] == Pad;
    assert forall i :: 0 <= i < 3 ==> s[i] == q[i];
    assert SymbolRun(s) == 3;
    assert |s| == 4 <==> t == [];
  }

  /** The unpadded decoding refuses a pad after two or three symbols. */
  lemma RawRejectsPad(q: GoString, t: GoString)
    requires 2 <= |q| <= 3 && forall i :: 0 <= i < |q| ==> IsAlphabet(q[i])
    ensures DecodeQuanta(q + [Pad] + t, false) == Decoding([], false)
  {
    var s := q + [Pad] + t;
    assert s[|q|] == Pad;
    assert forall i :: 0 <= i < |q| ==> s[i] == q[i];
    assert SymbolRun(s) == |q|;
  }

  lemma {:induction false} QuantaRoundTrip(b: seq<byte>)
    ensures DecodeQuanta(StdEncode(b), true) == Decoding(b, true)
    decreases |b|
  {
    if |b| < 3 {
      LastQuantumRoundTrip(b);
    } else {
      QuantaRoundTrip(b[3..]);
      RoundTripStep(b);
    }
  }

  lemma RoundTripStep(b: seq<byte>)
    requires |b| >= 3
    requires DecodeQuanta(StdEncode(b[3..]), true) == Decoding(b[3..], true)
    ensures DecodeQuanta(StdEncode(b), true) == Decoding(b, true)
  {
    EncodingStep(b, [], true);
    NoSuffix(StdEncode(b));
    NoSuffix(StdEncode(b[3..]));
    FirstThree(b);
  }

  /** Padded decoding of an encoding followed by `t`, one full quantum longer than one already decoded. */
  lemma EncodingStep(b: seq<byte>, t: GoString, padded: bool)
    requires |b| >= 3
    ensures DecodeQuanta(StdEncode(b) + t, padded)
         == Decoding([b[0], b[1], b[2]] + DecodeQuanta(StdEncode(b[3..]) + t, padded).bytes,
                     DecodeQuanta(StdEncode(b[3..]) + t, padded).ok)
  {
    EncodeFirst(b);
    Regroup(Group3(b[0], b[1], b[2]), StdEncode(b[3..]), t);
    FirstQuantum(b, StdEncode(b[3..]) + t, padded);
  }

  lemma LastQuantumRoundTrip(b: seq<byte>)
    requires |b| < 3
    ensures DecodeQuanta(StdEncode(b), true) == Decoding(b, true)
  {
    NoSuffix(StdEncode(b));
    if |b| == 1 {
      OneByteEnd(b[0], []);
      OneByte(b);
    } else if |b| == 2 {
      TwoBytesEnd(b[0], b[1], []);
      TwoBytes(b);
    }
  }

  /** The first three bytes of an encoding come back from its first quantum, whatever follows it. */
  lemma FirstQuantum(b: seq<byte>, t: GoString, padded: bool)
    requires |b| >= 3
    ensures DecodeQuanta(Group3(b[0], b[1], b[2]) + t, padded)
         == Decoding([b[0], b[1], b[2]] + DecodeQuanta(t, padded).bytes, DecodeQuanta(t, padded).ok)
  {
    DecodeFullQuantum(Group3(b[0], b[1], b[2]), t, padded);
    QuantumOfGroup3(b[0], b[1], b[2]);
  }

  lemma {:induction false} RawQuanta(b: seq<byte>)
    ensures DecodeQuanta(StdEncode(b), false).ok <==> |b| % 3 == 0
    ensures DecodeQuanta(StdEncode(b), false).bytes == b[..|b| / 3 * 3]
    decreases |b|
  {
    if 1 <= |b| <= 2 {
      RawRejectsShort(b);
    } else if |b| >= 3 {
      RawQuanta(b[3..]);
      RawStep(b);
    }
  }

  /** The unpadded decoding of an encoding, one full quantum longer than one already decoded. */
  lemma RawStep(b: seq<byte>)
    requires |b| >= 3
    requires DecodeQuanta(StdEncode(b[3..]), false).ok <==> |b[3..]| % 3 == 0
    requires DecodeQuanta(StdEncode(b[3..]), false).bytes == b[3..][..|b[3..]| / 3 * 3]
    ensures DecodeQuanta(StdEncode(b), false).ok <==> |b| % 3 == 0
    ensures DecodeQuanta(StdEncode(b), false).bytes == b[..|b| / 3 * 3]
  {
    var r := DecodeQuanta(StdEncode(b[3..]), false);
    EncodingStep(b, [], false);
    NoSuffix(StdEncode(b));
    NoSuffix(StdEncode(b[3..]));
    assert DecodeQuanta(StdEncode(b), false) == Decoding([b[0], b[1], b[2]] + r.bytes, r.ok);
    ModThree(|b[3..]|);
    FullQuantaPrefix(b);
  }

  /** The full quanta of `b` are its first three bytes and then the full quanta of the rest. */
  lemma FullQuantaPrefix(b: seq<byte>)
    requires |b| >= 3
    ensures [b[0], b[1], b[2]] + b[3..][..|b[3..]| / 3 * 3] == b[..|b| / 3 * 3]
  {
    var k := |b[3..]| / 3 * 3;
    assert |b| / 3 * 3 == k + 3 by {
      ModThree(|b[3..]|);
    }
    assert b[..k + 3] == [b[0], b[1], b[2]] + b[3..][..k];
  }

  lemma ModThree(n: nat)
    ensures (n + 3) % 3 == n % 3
  {
    assert (n + 3) / 3 == n / 3 + 1;
  }

  lemma {:induction false} JunkQuanta(b: seq<byte>, c: byte)
    requires !IsAlphabet(c) && c != Pad
    ensures DecodeQuanta(StdEncode(b) + [c], true) == Decoding(b, false)
    decreases |b|
  {
    if |b| < 3 {
      JunkAfterLastQuantum(b, c);
    } else {
      JunkQuanta(b[3..], c);
      JunkStep(b, c);
    }
  }

  lemma JunkStep(b: seq<byte>, c: byte)
    requires |b| >= 3
    requires DecodeQuanta(StdEncode(b[3..]) + [c], true) == Decoding(b[3..], false)
    ensures DecodeQuanta(StdEncode(b) + [c], true) == Decoding(b, false)
  {
    EncodingStep(b, [c], true);
    FirstThree(b);
  }

  lemma JunkAfterLastQuantum(b: seq<byte>, c: byte)
    requires |b| < 3
    requires !IsAlphabet(c) && c != Pad
    ensures DecodeQuantaEnd(b, [c]) == Decoding(b, false)
  {
    if |b| == 0 {
      assert StdEncode(b) + [c] == [c];
      assert SymbolRun([c]) == 0;
    } else if |b| == 1 {
      OneByteEnd(b[0], [c]);
      OneByte(b);
    } else {
      TwoBytesEnd(b[0], b[1], [c]);
      TwoBytes(b);
    }
  }

  /** Padded decoding of the encoding of `b` followed by `t`. */
  function DecodeQuantaEnd(b: seq<byte>, t: GoString): Decoding {
    DecodeQuanta(StdEncode(b) + t, true)
  }

  /** The last quantum of one byte, then `t`. */
  lemma OneByteEnd(b0: byte, t: GoString)
    ensures DecodeQuantaEnd([b0], t) == Decoding([b0], t == [])
  {
    assert StdEncode([b0]) + t == Group1(b0) + [Pad, Pad] + t;
    DecodeTwoPadded(Group1(b0), t);
    QuantumOfGroup1(b0);
  }

  /** The last quantum of two bytes, then `t`. */
  lemma TwoBytesEnd(b0: byte, b1: byte, t: GoString)
    ensures DecodeQuantaEnd([b0, b1], t) == Decoding([b0, b1], t == [])
  {
    assert StdEncode([b0, b1]) + t == Group2(b0, b1) + [Pad] + t;
    DecodeThreePadded(Group2(b0, b1), t);
    QuantumOfGroup2(b0, b1);
  }

  /** The unpadded decoding refuses the encoding of one or two bytes, which ends in padding. */
  lemma RawRejectsShort(b: seq<byte>)
    requires 1 <= |b| <= 2
    ensures DecodeQuanta(StdEncode(b), false) == Decoding([], false)
  {
    if |b| == 1 {
      OneByte(b);
      OneByteRaw(b[0]);
    } else {
      TwoBytes(b);
      TwoBytesRaw(b[0], b[1]);
    }
  }

  lemma OneByteRaw(b0: byte)
    ensures DecodeQuanta(StdEncode([b0]), false) == Decoding([], false)
  {
    assert StdEncode([b0]) == Group1(b0) + [Pad] + [Pad];
    RawRejectsPad(Group1(b0), [Pad]);
  }

  lemma TwoBytesRaw(b0: byte, b1: byte)
    ensures DecodeQuanta(StdEncode([b0, b1]), false) == Decoding([], false)
  {
    assert StdEncode([b0, b1]) == Group2(b0, b1) + [Pad] + [];
    RawRejectsPad(Group2(b0, b1), []);
  }

  lemma FirstThree(b: seq<byte>)
    requires |b| >= 3
    ensures b == [b[0], b[1], b[2]] + b[3..]
  {
  }

  lemma OneByte(b: seq<byte>)
    requires |b| == 1
    ensures b == [b[0]]
  {
  }

  lemma TwoBytes(b: seq<byte>)
    requires |b| == 2
    ensures b == [b[0], b[1]]
  {
  }

  lemma NoSuffix(s: GoString)
    ensures s + [] == s
  {
  }

  lemma EncodeFirst(b: seq<byte>)
    requires |b| >= 3
    ensures StdEncode(b) == Group3(b[0], b[1], b[2]) + StdEncode(b[3..])
  {
  }

  lemma Regroup(q: GoString, r: GoString, t: GoString)
    ensures q + r + t == q + (r + t)
  {
  }
}
