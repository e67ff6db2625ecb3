/**
 * The byte-level operations the token authenticator applies to the raw
 * `Authorization` header: Python's `bytes.split()` with no separator,
 * `bytes.lower()`, and strict UTF-8 `bytes.decode()`.
 */
module Bytes {
  import opened Wrappers

  type byte = b: int | 0 <= b < 256

  /** The bytes `bytes.split()` treats as separators: space, \t, \n, \r, \x0b and \x0c. */
  predicate IsAsciiSpace(b: byte) {
    b == 0x20 || (0x09 <= b <= 0x0D)
  }

  predicate NoSpace(w: seq<byte>) {
    forall i :: 0 <= i < |w| ==> !IsAsciiSpace(w[i])
  }

  /** Skips leading separators. */
  function DropSpaces(b: seq<byte>): (r: seq<byte>)
    ensures |r| <= |b| && r == b[|b| - |r|..]
    ensures r == [] || !IsAsciiSpace(r[0])
  {
    if |b| > 0 && IsAsciiSpace(b[0]) then DropSpaces(b[1..]) else b
  }

  /** The longest separator-free prefix. */
  function TakeWord(b: seq<byte>): (w: seq<byte>)
    ensures |w| <= |b| && w == b[..|w|] && NoSpace(w)
    ensures |w| == |b| || IsAsciiSpace(b[|w|])
  {
    if |b| > 0 && !IsAsciiSpace(b[0]) then [b[0]] + TakeWord(b[1..]) else []
  }

  /** `bytes.split()`: the maximal runs of non-separator bytes, in order. */
  function Split(b: seq<byte>): (ws: seq<seq<byte>>)
    ensures forall w | w in ws :: |w| > 0 && NoSpace(w)
    decreases |b|
  {
    var t := DropSpaces(b);
    if t == [] then []
    else
      var w := TakeWord(t);
      [w] + Split(t[|w|..])
  }

  /** Splitting only separators yields no words. */
  lemma {:induction false} SplitAllSpaces(b: seq<byte>)
    requires forall i :: 0 <= i < |b| ==> IsAsciiSpace(b[i])
    ensures Split(b) == []
  {
  }

  lemma {:induction false} TakeWordAll(w: seq<byte>)
    requires NoSpace(w)
    ensures TakeWord(w) == w
  {
    if |w| > 0 {
      TakeWordAll(w[1..]);
      assert [w[0]] + w[1..] == w;
    }
  }

  lemma {:induction false} TakeWordThenSpace(w: seq<byte>, rest: seq<byte>)
    requires NoSpace(w) && |rest| > 0 && IsAsciiSpace(rest[0])
    ensures TakeWord(w + rest) == w
  {
    if |w| > 0 {
      assert (w + rest)[1..] == w[1..] + rest;
      TakeWordThenSpace(w[1..], rest);
      assert [w[0]] + w[1..] == w;
    }
  }

  /** A word followed by a separator (or by nothing) is the first word of the split. */
  lemma SplitCons(w: seq<byte>, rest: seq<byte>)
    requires |w| > 0 && NoSpace(w)
    requires rest == [] || IsAsciiSpace(rest[0])
    ensures Split(w + rest) == [w] + Split(rest)
  {
    var b := w + rest;
    assert b[0] == w[0];
    assert DropSpaces(b) == b;
    if rest == [] {
      assert b == w;
      TakeWordAll(w);
    } else {
      TakeWordThenSpace(w, rest);
    }
    assert b[|w|..] == rest;
  }

  /** A leading separator does not change the split. */
  lemma SplitSkipsSpace(b: seq<byte>, x: byte)
    requires IsAsciiSpace(x)
    ensures Split([x] + b) == Split(b)
  {
    assert ([x] + b)[1..] == b;
    assert DropSpaces([x] + b) == DropSpaces(b);
  }

  lemma {:induction false} DropSpacesSkips(sep: seq<byte>, b: seq<byte>)
    requires forall i :: 0 <= i < |sep| ==> IsAsciiSpace(sep[i])
    ensures DropSpaces(sep + b) == DropSpaces(b)
  {
    if sep != [] {
      assert (sep + b)[0] == sep[0];
      assert (sep + b)[1..] == sep[1..] + b;
      DropSpacesSkips(sep[1..], b);
    } else {
      assert sep + b == b;
    }
  }

  /** A run of separators in front does not change the split. */
  lemma SplitSkipsSpaces(sep: seq<byte>, b: seq<byte>)
    requires forall i :: 0 <= i < |sep| ==> IsAsciiSpace(sep[i])
    ensures Split(sep + b) == Split(b)
  {
    DropSpacesSkips(sep, b);
  }

  /** A lone word splits into itself. */
  lemma SplitOneWord(w: seq<byte>)
    requires |w| > 0 && NoSpace(w)
    ensures Split(w) == [w]
  {
    assert DropSpaces(w) == w;
    TakeWordAll(w);
    assert w[|w|..] == [];
    calc {
      Split(w);
      [TakeWord(w)] + Split(w[|TakeWord(w)|..]);
      [w] + Split([]);
    }
  }

  /** Two words joined by one space split back into the two words. */
  lemma SplitTwoWords(w1: seq<byte>, w2: seq<byte>)
    requires |w1| > 0 && NoSpace(w1) && |w2| > 0 && NoSpace(w2)
    ensures Split(w1 + [0x20] + w2) == [w1, w2]
  {
    assert w1 + [0x20] + w2 == w1 + ([0x20] + w2);
    SplitCons(w1, [0x20] + w2);
    SplitSkipsSpace(w2, 0x20);
    SplitOneWord(w2);
  }

  /** `bytes.lower()`: ASCII upper-case letters become lower-case, nothing else changes. */
  function LowerByte(b: byte): byte {
    if 0x41 <= b <= 0x5A then b + 0x20 else b
  }

  function Lower(b: seq<byte>): (r: seq<byte>)
    ensures |r| == |b|
    ensures forall i :: 0 <= i < |b| ==> (r[i] != b[i] <==> 0x41 <= b[i] <= 0x5A)
    ensures forall i :: 0 <= i < |b| && 0x41 <= b[i] <= 0x5A ==> r[i] == b[i] + 0x20
  {
    seq(|b|, i requires 0 <= i < |b| => LowerByte(b[i]))
  }

  predicate IsCont(b: byte) {
    0x80 <= b <= 0xBF
  }

  /**
   * Decodes the first UTF-8 sequence of b, strictly: no overlong forms, no
   * surrogates, nothing above U+10FFFF. Gives the character and its length.
   */
  function DecodeFirst(b: seq<byte>): (r: Option<(char, nat)>)
    requires |b| > 0
    ensures r.Some? ==> 1 <= r.value.1 <= |b| && r.value.1 <= 4
  {
    var b0: int := b[0];
    if b0 < 0x80 then Some((b0 as char, 1))
    else if 0xC2 <= b0 <= 0xDF then
      if |b| >= 2 && IsCont(b[1]) then
        Some((((b0 - 0xC0) * 64 + (b[1] as int - 0x80)) as char, 2))
      else None
    else if 0xE0 <= b0 <= 0xEF then
      var lo := if b0 == 0xE0 then 0xA0 else 0x80;
      var hi := if b0 == 0xED then 0x9F else 0xBF;
      if |b| >= 3 && lo <= b[1] <= hi && IsCont(b[2]) then
        var cp := (b0 - 0xE0) * 4096 + (b[1] as int - 0x80) * 64 + (b[2] as int - 0x80);
        assert cp < 0xD800 || 0xE000 <= cp < 0x10000;
        Some((cp as char, 3))
      else None
    else if 0xF0 <= b0 <= 0xF4 then
      var lo := if b0 == 0xF0 then 0x90 else 0x80;
      var hi := if b0 == 0xF4 then 0x8F else 0xBF;
      if |b| >= 4 && lo <= b[1] <= hi && IsCont(b[2]) && IsCont(b[3]) then
        var cp := (b0 - 0xF0) * 262144 + (b[1] as int - 0x80) * 4096 + (b[2] as int - 0x80) * 64 + (b[3] as int - 0x80);
        assert 0x10000 <= cp <= 0x10FFFF;
        Some((cp as char, 4))
      else None
    else None
  }

  /** `bytes.decode()` with the strict UTF-8 codec: None where Python raises UnicodeDecodeError. */
  function Utf8Decode(b: seq<byte>): (r: Option<string>)
    ensures r.Some? ==> |r.value| <= |b|
    decreases |b|
  {
    if b == [] then Some("")
    else match DecodeFirst(b)
      case None => None
      case Some((c, n)) =>
        match Utf8Decode(b[n..])
        case None => None
        case Some(rest) => Some([c] + rest)
  }

  /**
   * The UTF-8 encoding of one character: one byte below U+0080, two below
   * U+0800, three below U+10000, four above.
   */
  function EncodeChar(c: char): (b: seq<byte>)
    ensures 1 <= |b| <= 4
    ensures |b| == if c < '\U{80}' then 1 else if c < '\U{800}' then 2 else if c < '\U{10000}' then 3 else 4
  {
    var cp := c as int;
    if cp < 0x80 then [cp]
    else if cp < 0x800 then [0xC0 + cp / 64, 0x80 + cp % 64]
    else if cp < 0x10000 then [0xE0 + cp / 4096, 0x80 + (cp / 64) % 64, 0x80 + cp % 64]
    else [0xF0 + cp / 262144, 0x80 + (cp / 4096) % 64, 0x80 + (cp / 64) % 64, 0x80 + cp % 64]
  }

  lemma Encode2(cp: int)
    requires 0x80 <= cp < 0x800
    ensures var b0 := 0xC0 + cp / 64; var b1 := 0x80 + cp % 64;
            0xC2 <= b0 <= 0xDF && 0x80 <= b1 <= 0xBF && (b0 - 0xC0) * 64 + (b1 - 0x80) == cp
  {
  }

  lemma Encode3(cp: int)
    requires 0x800 <= cp < 0x10000 && !(0xD800 <= cp < 0xE000)
    ensures var b0 := 0xE0 + cp / 4096; var b1 := 0x80 + (cp / 64) % 64; var b2 := 0x80 + cp % 64;
            && 0xE0 <= b0 <= 0xEF && 0x80 <= b1 <= 0xBF && 0x80 <= b2 <= 0xBF
            && (b0 == 0xE0 ==> 0xA0 <= b1) && (b0 == 0xED ==> b1 <= 0x9F)
            && (b0 - 0xE0) * 4096 + (b1 - 0x80) * 64 + (b2 - 0x80) == cp
  {
    var q := cp / 64;
    assert cp == q * 64 + cp % 64;
    assert q == (cp / 4096) * 64 + q % 64;
    assert cp / 4096 == q / 64;
  }

  lemma Encode4(cp: int)
    requires 0x10000 <= cp <= 0x10FFFF
    ensures var b0 := 0xF0 + cp / 262144; var b1 := 0x80 + (cp / 4096) % 64;
            var b2 := 0x80 + (cp / 64) % 64; var b3 := 0x80 + cp % 64;
            && 0xF0 <= b0 <= 0xF4 && 0x80 <= b1 <= 0xBF && 0x80 <= b2 <= 0xBF && 0x80 <= b3 <= 0xBF
            && (b0 == 0xF0 ==> 0x90 <= b1) && (b0 == 0xF4 ==> b1 <= 0x8F)
            && (b0 - 0xF0) * 262144 + (b1 - 0x80) * 4096 + (b2 - 0x80) * 64 + (b3 - 0x80) == cp
  {
    var q := cp / 64;
    var t := cp / 4096;
    assert cp == q * 64 + cp % 64;
    assert t == q / 64;
    assert q == t * 64 + q % 64;
    assert cp / 262144 == t / 64;
    assert t == (cp / 262144) * 64 + t % 64;
  }

  /** Decoding the first sequence of an encoded character gives back that character and its length. */
  lemma DecodeFirstEncode(c: char, rest: seq<byte>)
    ensures DecodeFirst(EncodeChar(c) + rest) == Some((c, |EncodeChar(c)|))
  {
    var cp := c as int;
    if 0x80 <= cp < 0x800 {
      Encode2(cp);
    } else if 0x800 <= cp < 0x10000 {
      Encode3(cp);
    } else if 0x10000 <= cp {
      Encode4(cp);
    }
  }

  lemma DivMod64(q: int, r: int)
    requires 0 <= q && 0 <= r < 64
    ensures (q * 64 + r) / 64 == q && (q * 64 + r) % 64 == r
  {
  }

  lemma Canonical2(b0: int, b1: int)
    requires 0xC2 <= b0 <= 0xDF && 0x80 <= b1 <= 0xBF
    ensures var cp := (b0 - 0xC0) * 64 + (b1 - 0x80);
            0x80 <= cp < 0x800 && 0xC0 + cp / 64 == b0 && 0x80 + cp % 64 == b1
  {
    DivMod64(b0 - 0xC0, b1 - 0x80);
  }

  lemma Canonical3(b0: int, b1: int, b2: int)
    requires 0xE0 <= b0 <= 0xEF && 0x80 <= b1 <= 0xBF && 0x80 <= b2 <= 0xBF
    requires b0 == 0xE0 ==> 0xA0 <= b1
    ensures var cp := (b0 - 0xE0) * 4096 + (b1 - 0x80) * 64 + (b2 - 0x80);
            0x800 <= cp < 0x10000 && 0xE0 + cp / 4096 == b0 && 0x80 + (cp / 64) % 64 == b1 && 0x80 + cp % 64 == b2
  {
    var hi := (b0 - 0xE0) * 64 + (b1 - 0x80);
    assert (b0 - 0xE0) * 4096 + (b1 - 0x80) * 64 + (b2 - 0x80) == hi * 64 + (b2 - 0x80);
    DivMod64(hi, b2 - 0x80);
    DivMod64(b0 - 0xE0, b1 - 0x80);
    assert hi * 64 / 4096 == hi / 64;
  }

  lemma Canonical4(b0: int, b1: int, b2: int, b3: int)
    requires 0xF0 <= b0 <= 0xF4 && 0x80 <= b1 <= 0xBF && 0x80 <= b2 <= 0xBF && 0x80 <= b3 <= 0xBF
    requires b0 == 0xF0 ==> 0x90 <= b1
    requires b0 == 0xF4 ==> b1 <= 0x8F
    ensures var cp := (b0 - 0xF0) * 262144 + (b1 - 0x80) * 4096 + (b2 - 0x80) * 64 + (b3 - 0x80);
            0x10000 <= cp && 0xF0 + cp / 262144 == b0 && 0x80 + (cp / 4096) % 64 == b1
            && 0x80 + (cp / 64) % 64 == b2 && 0x80 + cp % 64 == b3
  {
    var top := (b0 - 0xF0) * 64 + (b1 - 0x80);
    var mid := top * 64 + (b2 - 0x80);
    var cp := (b0 - 0xF0) * 262144 + (b1 - 0x80) * 4096 + (b2 - 0x80) * 64 + (b3 - 0x80);
    assert cp == mid * 64 + (b3 - 0x80);
    DivMod64(mid, b3 - 0x80);
    DivMod64(top, b2 - 0x80);
    DivMod64(b0 - 0xF0, b1 - 0x80);
    assert cp / 4096 == mid / 64 == top;
    assert cp / 262144 == top / 64;
  }

  /**
   * Strictness: whatever DecodeFirst accepts is exactly the encoding of the
   * character it returns, so no overlong or other non-canonical form decodes.
   */
  lemma DecodeFirstCanonical(b: seq<byte>)
    requires |b| > 0 && DecodeFirst(b).Some?
    ensures var (c, n) := DecodeFirst(b).value; b[..n] == EncodeChar(c)
  {
    var b0: int := b[0];
    if 0xC2 <= b0 <= 0xDF {
      Canonical2(b0, b[1]);
    } else if 0xE0 <= b0 <= 0xEF {
      Canonical3(b0, b[1], b[2]);
    } else if 0xF0 <= b0 <= 0xF4 {
      Canonical4(b0, b[1], b[2], b[3]);
    }
  }

  /** `str.encode()`: the characters' encodings, in order. */
  function Utf8Encode(s: string): (b: seq<byte>)
    ensures |s| <= |b| <= 4 * |s|
  {
    if s == [] then [] else EncodeChar(s[0]) + Utf8Encode(s[1..])
  }

  /** Strict decoding undoes encoding: every string survives the round trip. */
  lemma {:induction false} Utf8RoundTrip(s: string)
    ensures Utf8Decode(Utf8Encode(s)) == Some(s)
  {
    if s != [] {
      var e := EncodeChar(s[0]);
      DecodeFirstEncode(s[0], Utf8Encode(s[1..]));
      assert (e + Utf8Encode(s[1..]))[|e|..] == Utf8Encode(s[1..]);
      Utf8RoundTrip(s[1..]);
      assert [s[0]] + s[1..] == s;
    }
  }

  /** One step of a successful decoding: a canonical first character, then a decodable rest. */
  lemma DecodeStep(b: seq<byte>) returns (c: char, n: nat)
    requires b != [] && Utf8Decode(b).Some?
    ensures 1 <= n <= |b| && b[..n] == EncodeChar(c) && Utf8Decode(b[n..]).Some?
    ensures Utf8Decode(b).value == [c] + Utf8Decode(b[n..]).value
  {
    DecodeFirstCanonical(b);
    c, n := DecodeFirst(b).value.0, DecodeFirst(b).value.1;
  }

  /** A canonical first character in front of the encoding of the rest is the encoding of the whole. */
  lemma EncodeCons(b: seq<byte>, c: char, n: nat, s: string)
    requires 1 <= n <= |b| && b[..n] == EncodeChar(c) && Utf8Encode(s) == b[n..]
    ensures Utf8Encode([c] + s) == b
  {
    assert ([c] + s)[1..] == s;
    assert b == b[..n] + b[n..];
  }

  /** A successful strict decoding re-encodes to exactly the bytes it came from. */
  lemma {:induction false} DecodeThenEncode(b: seq<byte>)
    requires Utf8Decode(b).Some?
    ensures Utf8Encode(Utf8Decode(b).value) == b
  {
    if b != [] {
      var c, n := DecodeStep(b);
      DecodeThenEncode(b[n..]);
      EncodeCons(b, c, n, Utf8Decode(b[n..]).value);
    }
  }

  predicate IsAscii(s: string) {
    forall i :: 0 <= i < |s| ==> s[i] < '\U{80}'
  }

  /** The bytes of an ASCII string, one per character. */
  function AsciiBytes(s: string): (b: seq<byte>)
    requires IsAscii(s)
    ensures |b| == |s|
    ensures forall i :: 0 <= i < |s| ==> b[i] == s[i] as int
  {
    seq(|s|, i requires 0 <= i < |s| => s[i] as int)
  }

  /** Decoding undoes ASCII encoding. */
  lemma {:induction false} DecodeAscii(s: string)
    requires IsAscii(s)
    ensures Utf8Decode(AsciiBytes(s)) == Some(s)
  {
    if s != [] {
      var b := AsciiBytes(s);
      assert b[1..] == AsciiBytes(s[1..]);
      DecodeAscii(s[1..]);
      assert [s[0]] + s[1..] == s;
    }
  }

  lemma AsciiBytesAppend(s: string, t: string)
    requires IsAscii(s) && IsAscii(t)
    ensures IsAscii(s + t) && AsciiBytes(s + t) == AsciiBytes(s) + AsciiBytes(t)
  {
  }

  /** A stray continuation byte, or a truncated sequence, cannot be decoded. */
  lemma DecodeRejectsStrayContinuation(b: seq<byte>)
    requires |b| > 0 && IsCont(b[0])
    ensures Utf8Decode(b) == None
  {
  }
}
