/** Well-formed UTF-8 (section 4 of RFC 3629), and decoding that replaces what is not. */
module Utf8 {
  import opened Basics

  predicate InRange(b: byte, low: byte, high: byte)
  {
    low <= b <= high
  }

  /** A byte that only continues a character. */
  predicate Continues(b: byte)
  {
    InRange(b, 0x80, 0xBF)
  }

  /** The first two bytes of a character of three. */
  predicate LeadOfThree(a: byte, b: byte)
  {
    || (a == 0xE0 && InRange(b, 0xA0, 0xBF))
    || ((InRange(a, 0xE1, 0xEC) || InRange(a, 0xEE, 0xEF)) && InRange(b, 0x80, 0xBF))
    || (a == 0xED && InRange(b, 0x80, 0x9F))
  }

  /** The first two bytes of a character of four. */
  predicate LeadOfFour(a: byte, b: byte)
  {
    || (a == 0xF0 && InRange(b, 0x90, 0xBF))
    || (InRange(a, 0xF1, 0xF3) && InRange(b, 0x80, 0xBF))
    || (a == 0xF4 && InRange(b, 0x80, 0x8F))
  }

  /** How many bytes the character at the start of `s` has; 0 when there is none. */
  function CharLength(s: seq<byte>): (n: nat)
    ensures n <= 4 && n <= |s|
    ensures forall i :: 1 <= i < n ==> Continues(s[i])
    ensures n > 0 ==> !Continues(s[0])
  {
    if |s| >= 1 && InRange(s[0], 0, 0x7F) then 1
    else if |s| >= 2 && InRange(s[0], 0xC2, 0xDF) && Continues(s[1]) then 2
    else if |s| >= 3 && LeadOfThree(s[0], s[1]) && Continues(s[2]) then 3
    else if |s| >= 4 && LeadOfFour(s[0], s[1]) && Continues(s[2]) && Continues(s[3]) then 4
    else 0
  }

  predicate IsUtf8(s: seq<byte>)
  {
    s == [] || (CharLength(s) > 0 && IsUtf8(s[CharLength(s)..]))
  }

  /** How many bytes are replaced together where no character starts: the longest start of one. */
  function BadLength(s: seq<byte>): (n: nat)
    requires s != []
    ensures 1 <= n <= 3 && n <= |s|
  {
    if |s| >= 2 && LeadOfThree(s[0], s[1]) then 2
    else if |s| >= 2 && LeadOfFour(s[0], s[1]) then if |s| >= 3 && Continues(s[2]) then 3 else 2
    else 1
  }

  /** U+FFFD. */
  const REPLACEMENT: seq<byte> := [0xEF, 0xBF, 0xBD]

  /** String::from_utf8_lossy, as the bytes of the resulting text. */
  function Lossy(s: seq<byte>): (r: seq<byte>)
    ensures |r| >= |s|
    decreases |s|
  {
    if s == [] then []
    else if CharLength(s) > 0 then s[..CharLength(s)] + Lossy(s[CharLength(s)..])
    else REPLACEMENT + Lossy(s[BadLength(s)..])
  }

  lemma ReplacementIsAChar(s: seq<byte>)
    ensures REPLACEMENT <= s ==> CharLength(s) == 3
  {
  }

  /** Nothing is replaced exactly in well-formed text. */
  lemma {:induction false} LossyIsExactIff(s: seq<byte>)
    ensures Lossy(s) == s <==> IsUtf8(s)
    decreases |s|
  {
    if s != [] {
      var n := CharLength(s);
      if n > 0 {
        LossyIsExactIff(s[n..]);
        assert s == s[..n] + s[n..];
        assert Lossy(s)[n..] == Lossy(s[n..]);
      } else {
        ReplacementIsAChar(s);
        assert REPLACEMENT <= Lossy(s);
      }
    }
  }

  /** The decoded text is well formed in any case. */
  lemma {:induction false} LossyIsUtf8(s: seq<byte>)
    ensures IsUtf8(Lossy(s))
    decreases |s|
  {
    if s != [] {
      var n := CharLength(s);
      if n > 0 {
        LossyIsUtf8(s[n..]);
        CharThenText(s[..n], Lossy(s[n..]));
      } else {
        LossyIsUtf8(s[BadLength(s)..]);
        CharThenText(REPLACEMENT, Lossy(s[BadLength(s)..]));
      }
    }
  }

  lemma CharThenText(c: seq<byte>, s: seq<byte>)
    requires c != [] && CharLength(c) == |c| && IsUtf8(s)
    ensures IsUtf8(c + s)
  {
    assert CharLength(c + s) == |c|;
    assert (c + s)[|c|..] == s;
  }

  predicate StartsInside(s: seq<byte>)
  {
    s != [] && Continues(s[0])
  }

  /** A cut keeps both sides well formed exactly if the whole is and the cut is not inside a character. */
  lemma {:induction false} CutIsCleanIff(a: seq<byte>, b: seq<byte>)
    ensures IsUtf8(a) && IsUtf8(b) <==> IsUtf8(a + b) && !StartsInside(b)
    decreases |a|
  {
    if a == [] {
      assert a + b == b;
    } else {
      var n, m := CharLength(a), CharLength(a + b);
      if n > 0 {
        SameFirst(a, b);
        assert a[n..] + b == (a + b)[n..];
        CutIsCleanIff(a[n..], b);
      } else if m > |a| {
        assert Continues((a + b)[|a|]) && (a + b)[|a|] == b[0];
      } else if m > 0 {
        SameFirst(a, b);
      }
    }
  }

  /** Whether a character starts here is decided by its own bytes. */
  lemma SameFirst(a: seq<byte>, b: seq<byte>)
    ensures CharLength(a) > 0 ==> CharLength(a + b) == CharLength(a)
    ensures 0 < CharLength(a + b) <= |a| ==> CharLength(a) == CharLength(a + b)
  {
  }

  // ---------------------------------------------------------------- the characters themselves

  /** A Unicode scalar value: a code point that is not a surrogate. */
  predicate IsScalar(n: nat)
  {
    n < 0xD800 || 0xE000 <= n < 0x11_0000
  }

  /** The bytes of a scalar value, by the table of section 3 of RFC 3629. */
  function Encode(n: nat): (s: seq<byte>)
    requires IsScalar(n)
  {
    if n < 0x80 then [n as byte]
    else if n < 0x800 then [(0xC0 + n / 64) as byte, Six(n)]
    else if n < 0x1_0000 then [(0xE0 + n / 4096) as byte, Six(n / 64), Six(n)]
    else [(0xF0 + n / 262144) as byte, Six(n / 4096), Six(n / 64), Six(n)]
  }

  /** A continuation byte for the six low bits. */
  function Six(n: nat): (b: byte)
    ensures Continues(b)
  {
    (0x80 + n % 64) as byte
  }

  /** The scalar value of the character at the start of `s`. */
  function Decode(s: seq<byte>): (n: nat)
    requires CharLength(s) > 0
    ensures IsScalar(n)
  {
    match CharLength(s)
    case 1 => s[0] as nat
    case 2 => 64 * (s[0] as nat - 0xC0) + (s[1] as nat - 0x80)
    case 3 => 4096 * (s[0] as nat - 0xE0) + 64 * (s[1] as nat - 0x80) + (s[2] as nat - 0x80)
    case _ => 262144 * (s[0] as nat - 0xF0) + 4096 * (s[1] as nat - 0x80) + 64 * (s[2] as nat - 0x80) + (s[3] as nat - 0x80)
  }

  /** Every scalar value is one character, and reads back. */
  lemma EncodedIsOneChar(n: nat)
    requires IsScalar(n)
    ensures CharLength(Encode(n)) == |Encode(n)| > 0 && Decode(Encode(n)) == n
  {
    SixBits(n);
    SixBits(n / 64);
    SixBits(n / 4096);
  }

  lemma SixBits(n: nat)
    ensures n == 64 * (n / 64) + n % 64 && n % 64 < 64 && n / 64 / 64 == n / 4096 && n / 4096 / 64 == n / 262144
  {
  }

  /** Every character is the encoding of its scalar value: no overlong form, no surrogate, nothing else. */
  lemma CharIsEncoded(s: seq<byte>)
    requires CharLength(s) > 0
    ensures s[..CharLength(s)] == Encode(Decode(s))
  {
    var n := Decode(s);
    match CharLength(s)
    case 1 =>
    case 2 => Low(s[0] as nat - 0xC0, s[1]);
    case 3 =>
      Low(64 * (s[0] as nat - 0xE0) + (s[1] as nat - 0x80), s[2]);
      Low(s[0] as nat - 0xE0, s[1]);
      SixBits(n);
    case _ =>
      var high := 64 * (s[0] as nat - 0xF0) + (s[1] as nat - 0x80);
      Low(64 * high + (s[2] as nat - 0x80), s[3]);
      Low(high, s[2]);
      Low(s[0] as nat - 0xF0, s[1]);
      SixBits(n);
      SixBits(n / 64);
  }

  lemma Low(high: nat, b: byte)
    requires Continues(b)
    ensures var n := 64 * high + (b as nat - 0x80);
            n / 64 == high && Six(n) == b
  {
  }

  function EncodeAll(scalars: seq<nat>): (s: seq<byte>)
    requires forall i :: 0 <= i < |scalars| ==> IsScalar(scalars[i])
  {
    if scalars == [] then [] else Encode(scalars[0]) + EncodeAll(scalars[1..])
  }

  ghost predicate AllScalars(scalars: seq<nat>)
  {
    forall i :: 0 <= i < |scalars| ==> IsScalar(scalars[i])
  }

  /** Bytes are UTF-8 exactly if they encode a sequence of scalar values. */
  lemma {:induction false} IsUtf8IffEncoded(s: seq<byte>)
    ensures IsUtf8(s) <==> exists scalars :: AllScalars(scalars) && EncodeAll(scalars) == s
  {
    if IsUtf8(s) {
      var scalars := Scalars(s);
    }
    forall scalars | AllScalars(scalars) && EncodeAll(scalars) == s
      ensures IsUtf8(s)
    {
      EncodedIsUtf8(scalars);
    }
  }

  lemma {:induction false} Scalars(s: seq<byte>) returns (scalars: seq<nat>)
    requires IsUtf8(s)
    ensures AllScalars(scalars) && EncodeAll(scalars) == s
    decreases |s|
  {
    if s == [] {
      scalars := [];
    } else {
      var n := CharLength(s);
      var rest := Scalars(s[n..]);
      CharIsEncoded(s);
      scalars := [Decode(s)] + rest;
      assert scalars[1..] == rest && s == s[..n] + s[n..];
    }
  }

  lemma {:induction false} EncodedIsUtf8(scalars: seq<nat>)
    requires AllScalars(scalars)
    ensures IsUtf8(EncodeAll(scalars))
    decreases |scalars|
  {
    if scalars != [] {
      EncodedIsUtf8(scalars[1..]);
      EncodedIsOneChar(scalars[0]);
      hide Encode, Decode, CharLength;
      CharThenText(Encode(scalars[0]), EncodeAll(scalars[1..]));
    }
  }

  // ---------------------------------------------------------------- what is replaced together

  /** More bytes could make a character of these. */
  ghost predicate StartsChar(p: seq<byte>)
  {
    exists more: seq<byte> :: more != [] && CharLength(p + more) == |p + more|
  }

  /** The replaced stretch is the longest start of a character there is, or one byte when there is none. */
  lemma BadLengthIsLongestStart(s: seq<byte>)
    requires s != [] && CharLength(s) == 0
    ensures BadLength(s) > 1 ==> StartsChar(s[..BadLength(s)])
    ensures forall k :: BadLength(s) < k <= |s| ==> !StartsChar(s[..k])
  {
    var n := BadLength(s);
    if n == 2 {
      if LeadOfThree(s[0], s[1]) {
        assert CharLength(s[..2] + [0x80]) == 3;
      } else {
        assert CharLength(s[..2] + [0x80, 0x80]) == 4;
      }
    } else if n == 3 {
      assert CharLength(s[..3] + [0x80]) == 4;
    }
    forall k | n < k <= |s|
      ensures !StartsChar(s[..k])
    {
      LongerIsNoStart(s, k);
    }
  }

  lemma LongerIsNoStart(s: seq<byte>, k: nat)
    requires s != [] && CharLength(s) == 0 && BadLength(s) < k <= |s|
    ensures !StartsChar(s[..k])
  {
    forall more: seq<byte> | more != []
      ensures CharLength(s[..k] + more) != |s[..k] + more|
    {
      var x := s[..k] + more;
      assert |x| > k && x[0] == s[0] && x[1] == s[1];
      assert k > 2 ==> x[2] == s[2];
      assert k > 3 ==> |x| > 4;
    }
  }
}
