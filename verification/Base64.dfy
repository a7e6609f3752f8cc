/** The variant's base64 (section 4 of RFC 4648), with the interface of the library it replaces. */
module Base64 {
  import opened Bytes

  const PAD: byte := 61  // '='

  /** The alphabet: A-Z, a-z, 0-9, '+', '/'. */
  function Letter(v: nat): byte
    requires v < 64
  {
    if v < 26 then 65 + v
    else if v < 52 then 97 + (v - 26)
    else if v < 62 then 48 + (v - 52)
    else if v == 62 then 43
    else 47
  }

  /** The value of a letter; anything else, the padding included, contributes no bits. */
  function Index(c: byte): (v: nat)
    ensures v < 64
  {
    if 65 <= c <= 90 then c - 65
    else if 97 <= c <= 122 then c - 97 + 26
    else if 48 <= c <= 57 then c - 48 + 52
    else if c == 43 then 62
    else if c == 47 then 63
    else 0
  }

  predicate IsLetter(c: byte) {
    65 <= c <= 90 || 97 <= c <= 122 || 48 <= c <= 57 || c == 43 || c == 47
  }

  lemma LetterIndex(v: nat, c: byte)
    requires v < 64
    ensures IsLetter(Letter(v)) && Index(Letter(v)) == v
    ensures IsLetter(c) ==> Letter(Index(c)) == c && c != PAD
  {
  }

  function EncodedLength(n: nat): nat {
    (n + 2) / 3 * 4
  }

  function DecodedBound(n: nat): nat {
    n / 4 * 3
  }

  /** Up to three bytes as one 24-bit number, and its six-bit digits as letters. */
  function Number(x: seq<byte>): (v: nat)
    ensures v < 0x100_0000
  {
    0x1_0000 * ByteAt(x, 0) + 0x100 * ByteAt(x, 1) + ByteAt(x, 2)
  }

  function Quad(x: seq<byte>): (q: seq<byte>)
    requires 1 <= |x| <= 3
    ensures |q| == 4
  {
    var v := Number(x);
    [Letter(v / 0x4_0000), Letter(v / 0x1000 % 64),
     if |x| >= 2 then Letter(v / 64 % 64) else PAD,
     if |x| >= 3 then Letter(v % 64) else PAD]
  }

  function Encode(x: seq<byte>): seq<byte> {
    if x == [] then [] else Quad(x[..Min(|x|, 3)]) + Encode(x[Min(|x|, 3)..])
  }

  /** Four letters as one 24-bit number, and its bytes, as many as the padding leaves. */
  function Digits(q: seq<byte>): (v: nat)
    requires |q| == 4
    ensures v < 0x100_0000
  {
    0x4_0000 * Index(q[0]) + 0x1000 * Index(q[1]) + 64 * Index(q[2]) + Index(q[3])
  }

  function Triple(q: seq<byte>): (x: seq<byte>)
    requires |q| == 4
    ensures 1 <= |x| <= 3
  {
    var v := Digits(q);
    [v / 0x1_0000] + (if q[2] != PAD then [v / 256 % 256] else []) + (if q[3] != PAD then [v % 256] else [])
  }

  function Decode(s: seq<byte>): seq<byte> {
    if |s| < 4 then [] else Triple(s[..4]) + Decode(s[4..])
  }

  // ---- round trips ----

  /** Four letters that some bytes encode to: full, or padded with the unused bits zero. */
  predicate CanonicalQuad(q: seq<byte>) {
    && |q| == 4 && IsLetter(q[0]) && IsLetter(q[1])
    && (|| (IsLetter(q[2]) && IsLetter(q[3]))
        || (IsLetter(q[2]) && q[3] == PAD && Index(q[2]) % 4 == 0)
        || (q[2] == q[3] == PAD && Index(q[1]) % 16 == 0))
  }

  /** Whole quads, padding only in the last one. */
  predicate Canonical(s: seq<byte>) {
    s == [] || (|s| >= 4 && CanonicalQuad(s[..4]) && (s[3] == PAD ==> |s| == 4) && Canonical(s[4..]))
  }

  /** The six-bit digits of a 24-bit number, and its bytes. */
  lemma SixBits(v: nat, d0: nat, d1: nat, d2: nat, d3: nat)
    requires d0 < 64 && d1 < 64 && d2 < 64 && d3 < 64
    ensures v == 0x4_0000 * d0 + 0x1000 * d1 + 64 * d2 + d3
            ==> v / 0x4_0000 == d0 && v / 0x1000 % 64 == d1 && v / 64 % 64 == d2 && v % 64 == d3
    ensures v < 0x100_0000 ==> v == 0x4_0000 * (v / 0x4_0000) + 0x1000 * (v / 0x1000 % 64) + 64 * (v / 64 % 64) + v % 64
  {
    assert v / 0x1000 == v / 64 / 64 && v / 0x4_0000 == v / 64 / 64 / 64;
  }

  lemma EightBits(v: nat, a: nat, b: nat, c: nat)
    requires a < 256 && b < 256 && c < 256
    ensures v == 0x1_0000 * a + 0x100 * b + c ==> v / 0x1_0000 == a && v / 256 % 256 == b && v % 256 == c
    ensures v < 0x100_0000 ==> v == 0x1_0000 * (v / 0x1_0000) + 0x100 * (v / 256 % 256) + v % 256
  {
    assert v / 0x1_0000 == v / 256 / 256;
  }

  /** Bytes that are not there leave zero digits, and zero bits in the last digit that is. */
  lemma MissingBytes(a: nat, b: nat)
    requires a < 256 && b < 256
    ensures (0x1_0000 * a + 0x100 * b) % 64 == 0 && (0x1_0000 * a + 0x100 * b) / 64 % 64 % 4 == 0
    ensures 0x1_0000 * a / 64 % 64 == 0 && 0x1_0000 * a / 0x1000 % 64 % 16 == 0
  {
    assert (0x1_0000 * a + 0x100 * b) / 64 == 1024 * a + 4 * b;
    assert 0x1_0000 * a / 0x1000 == 16 * a;
    FourthOf(256 * a + b);
    SixteenthOf(a);
    assert (1024 * a) % 64 == 0;
  }

  lemma FourthOf(k: nat)
    ensures 4 * k % 64 % 4 == 0
  {
    assert 4 * k == 64 * (4 * k / 64) + 4 * k % 64;
  }

  lemma SixteenthOf(k: nat)
    ensures 16 * k % 64 % 16 == 0
  {
    assert 16 * k == 64 * (16 * k / 64) + 16 * k % 64;
  }

  lemma QuadTriple(x: seq<byte>)
    requires 1 <= |x| <= 3
    ensures Triple(Quad(x)) == x && CanonicalQuad(Quad(x)) && (Quad(x)[3] == PAD <==> |x| < 3)
  {
    EightBits(Number(x), x[0], ByteAt(x, 1), ByteAt(x, 2));
    QuadDigits(x);
    hide Quad, Digits, CanonicalQuad;
  }

  lemma QuadDigits(x: seq<byte>)
    requires 1 <= |x| <= 3
    ensures Digits(Quad(x)) == Number(x) && CanonicalQuad(Quad(x))
    ensures (Quad(x)[2] == PAD <==> |x| < 2) && (Quad(x)[3] == PAD <==> |x| < 3)
  {
    var v := Number(x);
    SixBits(v, 0, 0, 0, 0);
    MissingBytes(x[0], ByteAt(x, 1));
    LetterIndex(v / 0x4_0000, 0);
    LetterIndex(v / 0x1000 % 64, 0);
    LetterIndex(v / 64 % 64, 0);
    LetterIndex(v % 64, 0);
    LetterIndex(0, PAD);
    assert Index(PAD) == 0;
    hide Letter, Index, IsLetter;
  }

  lemma TripleQuad(q: seq<byte>)
    requires CanonicalQuad(q)
    ensures Quad(Triple(q)) == q && (|Triple(q)| == 3 <==> q[3] != PAD)
  {
    var v := Digits(q);
    SixBits(v, Index(q[0]), Index(q[1]), Index(q[2]), Index(q[3]));
    EightBits(v, 0, 0, 0);
    LetterIndex(0, q[0]);
    LetterIndex(0, q[1]);
    LetterIndex(0, q[2]);
    LetterIndex(0, q[3]);
    assert Index(PAD) == 0;
    hide Letter, Index, IsLetter;
    ZeroTail(v, Index(q[1]), Index(q[2]), Index(q[0]));
    assert Number(Triple(q)) == v;
  }

  lemma ZeroTail(v: nat, d1: nat, d2: nat, d0: nat)
    requires d0 < 64 && d1 < 64 && d2 < 64
    ensures v == 0x4_0000 * d0 + 0x1000 * d1 + 64 * d2 && d2 % 4 == 0 ==> v % 256 == 0
    ensures v == 0x4_0000 * d0 + 0x1000 * d1 && d1 % 16 == 0 ==> v % 256 == 0 && v / 256 % 256 == 0
  {
    assert d2 == 4 * (d2 / 4) + d2 % 4 && d1 == 16 * (d1 / 16) + d1 % 16;
    EightBits(v, 4 * d0 + d1 / 16, 16 * (d1 % 16) + d2 / 4, 64 * (d2 % 4));
  }

  lemma LengthStep(n: nat)
    requires n >= 1
    ensures EncodedLength(n) == 4 + EncodedLength(n - Min(n, 3))
    ensures n >= 4 ==> DecodedBound(n) == 3 + DecodedBound(n - 4)
  {
    assert n >= 3 ==> (n + 2) / 3 == 1 + (n - 1) / 3;
    assert n >= 4 ==> n / 4 == 1 + (n - 4) / 4;
  }

  /** Decoding gives back every byte string; the encoding has the promised length and form. */
  lemma {:induction false} DecodeEncode(x: seq<byte>)
    ensures Decode(Encode(x)) == x && |Encode(x)| == EncodedLength(|x|) && Canonical(Encode(x))
    decreases |x|
  {
    hide Quad, Triple, CanonicalQuad, DecodedBound;
    if x != [] {
      var n := Min(|x|, 3);
      QuadTriple(x[..n]);
      DecodeEncode(x[n..]);
      LengthStep(|x|);
      hide EncodedLength;
      var q := Quad(x[..n]);
      assert Encode(x) == q + Encode(x[n..]);
      assert Encode(x)[..4] == q && Encode(x)[4..] == Encode(x[n..]);
      assert x == x[..n] + x[n..];
      if n < 3 {
        assert x[n..] == [];
      }
    }
  }

  lemma {:induction false} EncodeDecodeCanonical(s: seq<byte>)
    requires Canonical(s)
    ensures Encode(Decode(s)) == s
    decreases |s|
  {
    if s != [] {
      TripleQuad(s[..4]);
      EncodeDecodeCanonical(s[4..]);
      hide Quad, Triple, CanonicalQuad;
      var t, rest := Triple(s[..4]), Decode(s[4..]);
      assert s == s[..4] + s[4..];
      if s[3] != PAD {
        assert (t + rest)[..3] == t && (t + rest)[3..] == rest;
      } else {
        assert s[4..] == [] && t + rest == t;
        assert t[..|t|] == t && t[|t|..] == [];
      }
    }
  }

  /** Encoding gives back a string after decoding it if and only if the string is canonical. */
  lemma EncodeDecodeIff(s: seq<byte>)
    ensures Encode(Decode(s)) == s <==> Canonical(s)
  {
    DecodeEncode(Decode(s));
    if Canonical(s) {
      EncodeDecodeCanonical(s);
    }
  }

  /** Whatever the input, decoding never yields more than the bound a caller allocates by. */
  lemma {:induction false} DecodeFits(s: seq<byte>)
    ensures |Decode(s)| <= DecodedBound(|s|)
    decreases |s|
  {
    if |s| >= 4 {
      DecodeFits(s[4..]);
      LengthStep(|s|);
      hide DecodedBound;
    }
  }

  /** The two lengths: four letters for every three bytes begun, three bytes for every four letters complete. */
  lemma Lengths(n: nat, more: nat)
    ensures EncodedLength(3 * n) == 4 * n && (1 <= more <= 3 ==> EncodedLength(3 * n + more) == 4 * n + 4)
    ensures more < 4 ==> DecodedBound(4 * n + more) == 3 * n
  {
  }

  /** The alphabet in its order, and the padding. */
  lemma Alphabet(v: nat)
    requires v < 64
    ensures 0 <= v < 26 ==> Letter(v) == 'A' as int + v
    ensures 26 <= v < 52 ==> Letter(v) == 'a' as int + v - 26
    ensures 52 <= v < 62 ==> Letter(v) == '0' as int + v - 52
    ensures v == 62 ==> Letter(v) == '+' as int
    ensures v == 63 ==> Letter(v) == '/' as int
    ensures PAD == '=' as int
  {
  }

  /** "f", "fo" and "foo" are "Zg==", "Zm8=" and "Zm9v", as in section 10 of RFC 4648. */
  lemma OneByte()
    ensures Quad([102]) == [90, 103, 61, 61]
  {
  }

  lemma TwoBytes()
    ensures Quad([102, 111]) == [90, 109, 56, 61]
  {
  }

  lemma ThreeBytes()
    ensures Quad([102, 111, 111]) == [90, 109, 57, 118]
  {
  }

  lemma ThreeMore()
    ensures Quad([98, 97, 114]) == [89, 109, 70, 121]
  {
  }

  lemma EncodeOnward(g: seq<byte>, more: seq<byte>)
    requires |g| == 3
    ensures Encode(g + more) == Quad(g) + Encode(more)
  {
    hide Quad;
    assert (g + more)[..3] == g && (g + more)[3..] == more;
  }

  /** And "foobar" is "Zm9vYmFy". */
  lemma Foobar()
    ensures Encode([102, 111, 111, 98, 97, 114]) == [90, 109, 57, 118, 89, 109, 70, 121]
    ensures Decode([90, 109, 57, 118, 89, 109, 70, 121]) == [102, 111, 111, 98, 97, 114]
  {
    hide Quad, Decode, Encode;
    var x := [102, 111, 111, 98, 97, 114];
    ThreeBytes();
    ThreeMore();
    EncodeOnward([102, 111, 111], [98, 97, 114]);
    EncodeOnward([98, 97, 114], []);
    EncodeNothing();
    DecodeEncode(x);
    assert [102, 111, 111] + [98, 97, 114] == x && [98, 97, 114] + [] == [98, 97, 114];
    assert [90, 109, 57, 118] + ([89, 109, 70, 121] + []) == [90, 109, 57, 118, 89, 109, 70, 121];
  }

  lemma EncodeNothing()
    ensures Encode([]) == []
  {
  }

  // ---- the loops ----

  lemma QuadOf(x: seq<byte>, i: nat, v: nat)
    requires i < |x|
    requires v == 0x1_0000 * (x[i] as nat) + 0x100 * (ByteAt(x, i + 1) as nat) + ByteAt(x, i + 2)
    ensures Quad(x[i..Min(i + 3, |x|)]) == [Letter(v / 0x4_0000 % 64), Letter(v / 0x1000 % 64),
                                            if i + 1 < |x| then Letter(v / 64 % 64) else PAD,
                                            if i + 2 < |x| then Letter(v % 64) else PAD]
  {
    hide Letter;
    var g := x[i..Min(i + 3, |x|)];
    assert ByteAt(g, 0) == x[i];
    assert (i + 1 < |x| ==> ByteAt(g, 1) == x[i + 1]) && (i + 2 < |x| ==> ByteAt(g, 2) == x[i + 2]);
    assert Number(g) == v;
  }

  /** One pass of the encoder's loop: the group at i as four letters at o. */
  method PutQuad(input: array<byte>, i: nat, output: array<byte>, o: nat)
    requires input != output && i < input.Length && o + 4 <= output.Length
    modifies output
    ensures output[..o + 4] == old(output[..o]) + Quad(input[i..Min(i + 3, input.Length)])
    ensures output[o + 4..] == old(output[o + 4..])
  {
    hide Letter, Quad, Number;
    ghost var g := input[i..Min(i + 3, input.Length)];
    var two, three := i + 1 < input.Length, i + 2 < input.Length;
    var v: nat := 0x1_0000 * (input[i] as nat);
    if two {
      v := v + 0x100 * (input[i + 1] as nat);
    }
    if three {
      v := v + input[i + 2];
    }
    QuadOf(input[..], i, v);
    assert input[..][i..Min(i + 3, input.Length)] == g;
    output[o] := Letter(v / 0x4_0000 % 64);
    output[o + 1] := Letter(v / 0x1000 % 64);
    output[o + 2] := if two then Letter(v / 64 % 64) else PAD;
    output[o + 3] := if three then Letter(v % 64) else PAD;
    assert output[o..o + 4] == Quad(g);
    assert output[..o + 4] == output[..o] + output[o..o + 4];
  }

  /** Encode into a buffer with room for the result and for a NUL, which is written but not counted. */
  method EncodeBase64(input: array<byte>, output: array<byte>) returns (o: nat)
    requires input != output && output.Length > EncodedLength(input.Length)
    modifies output
    ensures o == EncodedLength(input.Length) && output[..o] == Encode(input[..]) && output[o] == 0
    ensures output[o + 1..] == old(output[o + 1..])
  {
    hide EncodedLength, Quad, Encode, Min;
    ghost var x := input[..];
    DecodeEncode(x);
    o := 0;
    var i := 0;
    while i < input.Length
      invariant o + |EncodeFrom(x, i)| == |Encode(x)|
      invariant output[..o] + EncodeFrom(x, i) == Encode(x)
      invariant output[o..] == old(output[o..])
    {
      EncodeNext(x, i);
      assert x[i..Min(i + 3, |x|)] == input[i..Min(i + 3, input.Length)];
      PutQuad(input, i, output, o);
      o := o + 4;
      i := i + 3;
    }
    output[o] := 0;
  }

  /** What is left to write when the loop stands at i. */
  function EncodeFrom(x: seq<byte>, i: nat): (e: seq<byte>)
    ensures i == 0 ==> e == Encode(x)
    ensures i >= |x| ==> e == []
  {
    assert x[0..] == x;
    Encode(if i < |x| then x[i..] else [])
  }

  lemma EncodeNext(x: seq<byte>, i: nat)
    requires i < |x|
    ensures i < Min(i + 3, |x|) <= |x|
    ensures EncodeFrom(x, i) == Quad(x[i..Min(i + 3, |x|)]) + EncodeFrom(x, i + 3)
  {
    hide Quad;
    var left := x[i..];
    assert left[..Min(|left|, 3)] == x[i..Min(i + 3, |x|)];
    assert left[Min(|left|, 3)..] == if i + 3 < |x| then x[i + 3..] else [];
  }

  /** One pass of the decoder's loop: the four letters at i as up to three bytes at o. */
  method PutTriple(input: array<byte>, i: nat, output: array<byte>, o: nat) returns (next: nat)
    requires input != output && i + 4 <= input.Length && o + |Triple(input[i..i + 4])| <= output.Length
    modifies output
    ensures next == o + |Triple(input[i..i + 4])|
    ensures output[..next] == old(output[..o]) + Triple(input[i..i + 4])
    ensures output[next..] == old(output[next..])
  {
    hide Index;
    ghost var q := input[i..i + 4];
    assert q[0] == input[i] && q[1] == input[i + 1] && q[2] == input[i + 2] && q[3] == input[i + 3];
    var v := 0x4_0000 * Index(input[i]) + 0x1000 * Index(input[i + 1]) + 64 * Index(input[i + 2]) + Index(input[i + 3]);
    assert v == Digits(q);
    hide Digits;
    next := o;
    output[next] := v / 0x1_0000;
    next := next + 1;
    if input[i + 2] != PAD {
      output[next] := v / 256 % 256;
      next := next + 1;
    }
    if input[i + 3] != PAD {
      output[next] := v % 256;
      next := next + 1;
    }
    assert output[o..next] == Triple(q);
    assert output[..next] == output[..o] + output[o..next];
  }

  /** Decode into a buffer allocated by the bound. */
  method DecodeBase64(input: array<byte>, output: array<byte>) returns (o: nat)
    requires input != output && output.Length >= DecodedBound(input.Length)
    modifies output
    ensures o == |Decode(input[..])| <= DecodedBound(input.Length) && output[..o] == Decode(input[..])
    ensures output[o..] == old(output[o..])
  {
    hide Triple, DecodedBound;
    ghost var s := input[..];
    DecodeFits(s);
    o := 0;
    var i := 0;
    assert s[0..] == s;
    while i + 3 < input.Length
      invariant i <= input.Length && o + |Decode(s[i..])| == |Decode(s)|
      invariant output[..o] + Decode(s[i..]) == Decode(s)
      invariant output[o..] == old(output[o..])
    {
      assert s[i..][..4] == input[i..i + 4] && s[i..][4..] == s[i + 4..];
      assert Decode(s[i..]) == Triple(input[i..i + 4]) + Decode(s[i + 4..]);
      o := PutTriple(input, i, output, o);
      i := i + 4;
    }
  }
}
