/** UTF-8 as section 3 of RFC 3629 defines it, and the character boundaries of Rust's `str`. */
module Utf8 {
  import opened Options

  type byte = x: int | 0 <= x < 256

  function EncodeChar(c: char): (b: seq<byte>)
    ensures 1 <= |b| <= 4
  {
    var x := c as int;
    if x < 0x80 then [x]
    else if x < 0x800 then [0xC0 + x / 64, 0x80 + x % 64]
    else if x < 0x10000 then [0xE0 + x / 4096, 0x80 + x / 64 % 64, 0x80 + x % 64]
    else [0xF0 + x / 262144, 0x80 + x / 4096 % 64, 0x80 + x / 64 % 64, 0x80 + x % 64]
  }

  predicate Continuation(b: byte) {
    0x80 <= b < 0xC0
  }

  /** The value carried by a lead byte's bits and its continuation bytes. */
  function Two(a: int, b: int): (x: int) { (a - 0xC0) * 64 + (b - 0x80) }

  function Three(a: int, b: int, c: int): (x: int) { (a - 0xE0) * 4096 + (b - 0x80) * 64 + (c - 0x80) }

  function Four(a: int, b: int, c: int, d: int): (x: int) {
    (a - 0xF0) * 262144 + (b - 0x80) * 4096 + (c - 0x80) * 64 + (d - 0x80)
  }

  /** The first scalar value of a byte string and its length; None if the bytes are empty,
      truncated, overlong, a surrogate or out of range. */
  function DecodeFirst(b: seq<byte>): (r: Option<(char, nat)>) {
    if |b| == 0 then None
    else if b[0] < 0x80 then Some((b[0] as char, 1))
    else if 0xC2 <= b[0] < 0xE0 && |b| >= 2 && Continuation(b[1]) then
      Some((Two(b[0], b[1]) as char, 2))
    else if 0xE0 <= b[0] < 0xF0 && |b| >= 3 && Continuation(b[1]) && Continuation(b[2]) then
      var x := Three(b[0], b[1], b[2]);
      if x >= 0x800 && !(0xD800 <= x < 0xE000) then Some((x as char, 3)) else None
    else if 0xF0 <= b[0] < 0xF5 && |b| >= 4 && Continuation(b[1]) && Continuation(b[2]) && Continuation(b[3]) then
      var x := Four(b[0], b[1], b[2], b[3]);
      if 0x10000 <= x < 0x110000 then Some((x as char, 4)) else None
    else None
  }

  lemma Digits(x: int)
    requires 0 <= x < 0x110000
    ensures x == x / 64 * 64 + x % 64
    ensures x / 64 == x / 4096 * 64 + x / 64 % 64
    ensures x / 4096 == x / 262144 * 64 + x / 4096 % 64
    ensures x / 4096 < 16 <==> x < 0x10000
    ensures x / 64 < 32 <==> x < 0x800
    ensures x / 262144 < 5
  {
  }

  lemma DecodeFirstOfEncoded(c: char, rest: seq<byte>)
    ensures DecodeFirst(EncodeChar(c) + rest) == Some((c, |EncodeChar(c)|))
  {
    var x := c as int;
    var b := EncodeChar(c);
    var l := b + rest;
    assert forall i | 0 <= i < |b| :: l[i] == b[i];
    Digits(x);
    if x < 0x80 {
    } else if x < 0x800 {
      assert Two(l[0], l[1]) == x;
    } else if x < 0x10000 {
      assert Three(l[0], l[1], l[2]) == x;
    } else {
      assert Four(l[0], l[1], l[2], l[3]) == x;
    }
  }

  lemma DivUnique(x: int, q: int, r: int)
    requires x == q * 64 + r && 0 <= r < 64
    ensures x / 64 == q && x % 64 == r
  {
  }

  lemma EncodeOfDecodedFirst(b: seq<byte>)
    ensures DecodeFirst(b).Some? ==>
              var (c, n) := DecodeFirst(b).value; 1 <= n <= |b| && b[..n] == EncodeChar(c)
  {
    if DecodeFirst(b).Some? {
      var (c, n) := DecodeFirst(b).value;
      var x := c as int;
      Digits(x);
      if n == 2 {
        DivUnique(x, b[0] - 0xC0, b[1] - 0x80);
      } else if n == 3 {
        var p: int, q: int, r: int := b[0] - 0xE0, b[1] - 0x80, b[2] - 0x80;
        DivUnique(x, p * 64 + q, r);
        DivUnique(x / 64, p, q);
      } else if n == 4 {
        var p: int, q: int, r: int, t: int := b[0] - 0xF0, b[1] - 0x80, b[2] - 0x80, b[3] - 0x80;
        DivUnique(x, p * 4096 + q * 64 + r, t);
        DivUnique(x / 64, p * 64 + q, r);
        DivUnique(x / 4096, p, q);
      }
    }
  }

  function Encode(s: string): (b: seq<byte>) {
    if s == [] then [] else EncodeChar(s[0]) + Encode(s[1..])
  }

  /** `String::from_utf8`. */
  function Decode(b: seq<byte>): (r: Option<string>)
    decreases |b|
  {
    if b == [] then Some([])
    else match DecodeFirst(b)
      case None => None
      case Some((c, n)) =>
        EncodeOfDecodedFirst(b);
        match Decode(b[n..])
        case None => None
        case Some(s) => Some([c] + s)
  }

  /** Decoding an encoded string gives it back. */
  lemma {:induction false} DecodeEncode(s: string)
    ensures Decode(Encode(s)) == Some(s)
  {
    hide EncodeChar, DecodeFirst;
    if s != [] {
      var c, rest := EncodeChar(s[0]), Encode(s[1..]);
      DecodeFirstOfEncoded(s[0], rest);
      assert (c + rest)[|c|..] == rest;
      DecodeEncode(s[1..]);
      assert [s[0]] + s[1..] == s;
    }
  }

  /** Whatever decodes re-encodes to the same bytes. */
  lemma {:induction false} EncodeDecode(b: seq<byte>)
    ensures Decode(b).Some? ==> Encode(Decode(b).value) == b
    decreases |b|
  {
    hide EncodeChar, DecodeFirst;
    if b != [] && Decode(b).Some? {
      EncodeOfDecodedFirst(b);
      var (c, n) := DecodeFirst(b).value;
      EncodeDecode(b[n..]);
      assert b == b[..n] + b[n..];
      var s := Decode(b).value;
      assert s[1..] == Decode(b[n..]).value;
    }
  }

  /** `str::is_char_boundary`. */
  predicate IsBoundary(b: seq<byte>, i: nat) {
    i == 0 || i == |b| || (i < |b| && !Continuation(b[i]))
  }

  /** The byte offset of character i. */
  function Offset(s: string, i: nat): (n: nat)
    requires i <= |s|
  {
    |Encode(s[..i])|
  }

  lemma {:induction false} EncodeConcat(s: string, t: string)
    ensures Encode(s + t) == Encode(s) + Encode(t)
  {
    if s == [] {
      assert s + t == t;
    } else {
      assert (s + t)[1..] == s[1..] + t;
      EncodeConcat(s[1..], t);
    }
  }

  /** The bytes from character i on are the encoding of the characters from i on. */
  lemma SuffixAt(s: string, i: nat)
    requires i <= |s|
    ensures Offset(s, i) <= |Encode(s)| && Encode(s)[Offset(s, i)..] == Encode(s[i..])
    ensures Encode(s)[..Offset(s, i)] == Encode(s[..i])
  {
    assert s == s[..i] + s[i..];
    EncodeConcat(s[..i], s[i..]);
  }

  lemma OffsetBetween(s: string, i: nat, j: nat)
    requires i <= j <= |s|
    ensures Offset(s, j) == Offset(s, i) + |Encode(s[i..j])|
  {
    assert s[..j] == s[..i] + s[i..j];
    EncodeConcat(s[..i], s[i..j]);
  }

  lemma OffsetNext(s: string, i: nat)
    requires i < |s|
    ensures Offset(s, i + 1) == Offset(s, i) + |EncodeChar(s[i])|
  {
    OffsetBetween(s, i, i + 1);
    assert s[i..i + 1] == [s[i]];
    assert Encode([s[i]]) == EncodeChar(s[i]) + Encode([]);
  }

  lemma OffsetEnds(s: string)
    ensures Offset(s, 0) == 0 && Offset(s, |s|) == |Encode(s)|
  {
    assert s[..|s|] == s;
  }

  lemma {:induction false} EncodeLength(s: string)
    ensures |Encode(s)| >= |s|
  {
    if s != [] { EncodeLength(s[1..]); }
  }

  /** Offsets order as characters do. */
  lemma OffsetMonotone(s: string, i: nat, j: nat)
    requires i <= |s| && j <= |s|
    ensures i <= j <==> Offset(s, i) <= Offset(s, j)
    ensures i == j <==> Offset(s, i) == Offset(s, j)
  {
    if i <= j {
      OffsetBetween(s, i, j);
      EncodeLength(s[i..j]);
    } else {
      OffsetBetween(s, j, i);
      EncodeLength(s[j..i]);
    }
  }

  lemma FirstByteNotContinuation(c: char, rest: seq<byte>)
    ensures !Continuation((EncodeChar(c) + rest)[0])
  {
  }

  /** Character offsets are boundaries. */
  lemma OffsetIsBoundary(s: string, i: nat)
    requires i <= |s|
    ensures IsBoundary(Encode(s), Offset(s, i))
  {
    SuffixAt(s, i);
    if i < |s| {
      FirstByteNotContinuation(s[i], Encode(s[i..][1..]));
      assert Encode(s)[Offset(s, i)..][0] == Encode(s)[Offset(s, i)];
    } else {
      OffsetEnds(s);
    }
  }

  /** ... and every boundary is a character offset. */
  lemma {:induction false} BoundaryIsOffset(s: string, n: nat) returns (i: nat)
    requires n <= |Encode(s)| && IsBoundary(Encode(s), n)
    ensures i <= |s| && Offset(s, i) == n
    decreases |s|
  {
    if n == 0 {
      i := 0;
    } else {
      var k := |EncodeChar(s[0])|;
      var b := Encode(s);
      TailBytes(s[0]);
      assert n >= k;
      assert b[k..] == Encode(s[1..]);
      var j := BoundaryIsOffset(s[1..], n - k);
      i := j + 1;
      assert s[..i][1..] == s[1..][..j];
      assert Encode(s[..i]) == EncodeChar(s[0]) + Encode(s[1..][..j]);
    }
  }

  lemma TailBytes(c: char)
    ensures forall i | 1 <= i < |EncodeChar(c)| :: Continuation(EncodeChar(c)[i])
  {
  }

  // ---------- comparing text in place ----------

  function LowerByte(b: byte): (r: byte) { if 0x41 <= b <= 0x5A then b + 32 else b }

  function LowerChar(c: char): (r: char) { if 'A' <= c <= 'Z' then (c as int + 32) as char else c }

  predicate SameBytes(a: seq<byte>, b: seq<byte>, insensitive: bool) {
    |a| == |b| && forall i | 0 <= i < |a| :: a[i] == b[i] || (insensitive && LowerByte(a[i]) == LowerByte(b[i]))
  }

  predicate SameChar(a: char, b: char, insensitive: bool) {
    a == b || (insensitive && LowerChar(a) == LowerChar(b))
  }

  predicate SameText(s: string, t: string, insensitive: bool) {
    |s| == |t| && forall i | 0 <= i < |s| :: SameChar(s[i], t[i], insensitive)
  }

  /** Encodings that start with the same bytes, up to ASCII case, start with the same character. */
  lemma SameCharBytes(a: char, b: char, x: seq<byte>, insensitive: bool)
    requires var n := |EncodeChar(b)|;
             n <= |EncodeChar(a) + x| && SameBytes((EncodeChar(a) + x)[..n], EncodeChar(b), insensitive)
    ensures SameChar(a, b, insensitive) && |EncodeChar(a)| == |EncodeChar(b)|
  {
    var n := |EncodeChar(b)|;
    var l := EncodeChar(a) + x;
    assert l[..n][0] == l[0] == EncodeChar(a)[0];
    if b as int >= 0x80 {
      HighBytes(b);
      assert l[..n] == EncodeChar(b);
      assert l == EncodeChar(b) + l[n..];
      DecodeFirstOfEncoded(b, l[n..]);
      DecodeFirstOfEncoded(a, x);
    }
  }

  lemma HighBytes(c: char)
    requires c as int >= 0x80
    ensures forall i | 0 <= i < |EncodeChar(c)| :: EncodeChar(c)[i] >= 0x80
  {
  }

  lemma CharBytesSame(a: char, b: char, insensitive: bool)
    requires SameChar(a, b, insensitive)
    ensures SameBytes(EncodeChar(a), EncodeChar(b), insensitive)
  {
  }

  predicate StartsWithBytes(s: seq<byte>, t: seq<byte>, insensitive: bool) {
    |t| <= |s| && SameBytes(s[..|t|], t, insensitive)
  }

  predicate StartsWithText(s: string, t: string, insensitive: bool) {
    |t| <= |s| && SameText(s[..|t|], t, insensitive)
  }

  /** The rest after equal first pieces. */
  lemma SplitBytes(a: seq<byte>, x: seq<byte>, b: seq<byte>, y: seq<byte>, insensitive: bool)
    requires |a| == |b|
    ensures StartsWithBytes(a + x, b + y, insensitive)
       <==> SameBytes(a, b, insensitive) && StartsWithBytes(x, y, insensitive)
  {
    var l, r := a + x, b + y;
    if |y| <= |x| {
      var p := l[..|r|];
      assert forall i | 0 <= i < |a| :: p[i] == a[i] && r[i] == b[i];
      assert forall i | 0 <= i < |y| :: p[|a| + i] == x[..|y|][i] && r[|a| + i] == y[i];
    }
  }

  lemma FirstCharSame(s: string, t: string, insensitive: bool)
    requires s != [] && t != [] && StartsWithBytes(Encode(s), Encode(t), insensitive)
    ensures SameChar(s[0], t[0], insensitive) && |EncodeChar(s[0])| == |EncodeChar(t[0])|
  {
    var n, b := |EncodeChar(t[0])|, Encode(t);
    assert forall i | 0 <= i < n :: EncodeChar(t[0])[i] == b[i] && Encode(s)[..n][i] == Encode(s)[..|b|][i];
    SameCharBytes(s[0], t[0], Encode(s[1..]), insensitive);
  }

  /** A byte-wise comparison at a character offset is a character-wise comparison, and equal
      text ends on a character boundary. */
  lemma {:induction false} SamePrefix(s: string, t: string, insensitive: bool)
    ensures StartsWithBytes(Encode(s), Encode(t), insensitive) <==> StartsWithText(s, t, insensitive)
    ensures StartsWithText(s, t, insensitive) ==> |Encode(t)| == |Encode(s[..|t|])|
    decreases |t|
  {
    if t != [] && s != [] {
      SamePrefix(s[1..], t[1..], insensitive);
      SameTextCons(s, t, insensitive);
      if StartsWithBytes(Encode(s), Encode(t), insensitive) { FirstCharSame(s, t, insensitive); }
      if SameChar(s[0], t[0], insensitive) {
        CharBytesSame(s[0], t[0], insensitive);
        SplitBytes(EncodeChar(s[0]), Encode(s[1..]), EncodeChar(t[0]), Encode(t[1..]), insensitive);
      }
      if |t| <= |s| { assert s[..|t|][1..] == s[1..][..|t| - 1]; }
    } else if t != [] {
      assert |EncodeChar(t[0])| >= 1;
    }
  }

  lemma SameTextCons(s: string, t: string, insensitive: bool)
    requires s != [] && t != []
    ensures StartsWithText(s, t, insensitive)
       <==> SameChar(s[0], t[0], insensitive) && StartsWithText(s[1..], t[1..], insensitive)
  {
    if |t| <= |s| {
      assert forall i | 0 <= i < |t| - 1 :: s[1..][..|t| - 1][i] == s[..|t|][i + 1] && t[1..][i] == t[i + 1];
      if SameChar(s[0], t[0], insensitive) && SameText(s[1..][..|t| - 1], t[1..], insensitive) {
        forall i | 0 <= i < |t| ensures SameChar(s[..|t|][i], t[i], insensitive) {
          if i > 0 { assert SameChar(s[1..][..|t| - 1][i - 1], t[1..][i - 1], insensitive); }
        }
      }
    }
  }
}
