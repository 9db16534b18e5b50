/** UTF-8 by its definition (RFC 3629, section 3): the byte tests of `Utf8` accept exactly the encodings. */
module Utf8Meaning {
  import opened Basics
  import opened Utf8

  /** A code point that has an encoding: at most 10FFFF, and no surrogate. */
  predicate Scalar(c: nat) {
    c < 0xD800 || 0xE000 <= c < 0x11_0000
  }

  /** A continuation byte with the six bits of `c` above the low `shift` ones. */
  function Six(c: nat): Byte {
    0x80 + c % 64
  }

  function Encode(c: nat): (bytes: seq<Byte>)
    requires Scalar(c)
    ensures 1 <= |bytes| <= 4
  {
    if c < 0x80 then [c]
    else if c < 0x800 then [0xC0 + c / 64, Six(c)]
    else if c < 0x1_0000 then [0xE0 + c / 4096, Six(c / 64), Six(c)]
    else [0xF0 + c / 262144, Six(c / 4096), Six(c / 64), Six(c)]
  }

  ghost predicate AllScalars(cs: seq<nat>) {
    forall i :: 0 <= i < |cs| ==> Scalar(cs[i])
  }

  function Encoded(cs: seq<nat>): seq<Byte>
    requires AllScalars(cs)
  {
    if cs == [] then [] else Encode(cs[0]) + Encoded(cs[1..])
  }

  lemma EncodingIsHead(c: nat, rest: seq<Byte>)
    requires Scalar(c)
    ensures Utf8Head(Encode(c) + rest) == |Encode(c)|
  {
    var e := Encode(c);
    assert (e + rest)[0] == e[0];
    assert |e| >= 2 ==> (e + rest)[1] == e[1];
    assert |e| >= 3 ==> (e + rest)[2] == e[2];
    assert |e| >= 4 ==> (e + rest)[3] == e[3];
    if c >= 0x1_0000 {
      assert c / 4096 == 64 * (c / 262144) + (c / 4096) % 64;
    } else if c >= 0x800 {
      assert c / 64 == 64 * (c / 4096) + (c / 64) % 64;
    }
  }

  /** What a byte holds above the mark that its position gives it. */
  function Bits(s: seq<Byte>, i: nat, mark: nat): nat
    requires i < |s| && mark <= s[i]
  {
    s[i] as nat - mark
  }

  /** The code point whose encoding stands at the front. */
  function Decode(s: seq<Byte>): nat
    requires s != [] && Utf8Head(s) > 0
  {
    match Utf8Head(s)
    case 1 => s[0]
    case 2 => Bits(s, 0, 0xC0) * 64 + Bits(s, 1, 0x80)
    case 3 => Bits(s, 0, 0xE0) * 4096 + Bits(s, 1, 0x80) * 64 + Bits(s, 2, 0x80)
    case _ => Bits(s, 0, 0xF0) * 262144 + Bits(s, 1, 0x80) * 4096 + Bits(s, 2, 0x80) * 64 + Bits(s, 3, 0x80)
  }

  lemma LastSix(high: nat, low: nat)
    requires low < 64
    ensures (64 * high + low) / 64 == high && (64 * high + low) % 64 == low
  {
  }

  lemma TwoOfHead(s: seq<Byte>)
    requires s != [] && Utf8Head(s) == 2
    ensures Scalar(Decode(s)) && s[..2] == Encode(Decode(s))
  {
    LastSix(Bits(s, 0, 0xC0), Bits(s, 1, 0x80));
  }

  lemma ThreeOfHead(s: seq<Byte>)
    requires s != [] && Utf8Head(s) == 3
    ensures Scalar(Decode(s)) && s[..3] == Encode(Decode(s))
  {
    var c, high := Decode(s), 64 * Bits(s, 0, 0xE0) + Bits(s, 1, 0x80);
    LastSix(Bits(s, 0, 0xE0), Bits(s, 1, 0x80));
    LastSix(high, Bits(s, 2, 0x80));
    assert c == 64 * high + Bits(s, 2, 0x80);
    assert c / 4096 == c / 64 / 64;
  }

  lemma FourOfHead(s: seq<Byte>)
    requires s != [] && Utf8Head(s) == 4
    ensures Scalar(Decode(s)) && s[..4] == Encode(Decode(s))
  {
    var c, high := Decode(s), 64 * Bits(s, 0, 0xF0) + Bits(s, 1, 0x80);
    var higher := 64 * high + Bits(s, 2, 0x80);
    LastSix(Bits(s, 0, 0xF0), Bits(s, 1, 0x80));
    LastSix(high, Bits(s, 2, 0x80));
    LastSix(higher, Bits(s, 3, 0x80));
    assert c == 64 * higher + Bits(s, 3, 0x80);
    assert c / 4096 == c / 64 / 64 && c / 262144 == c / 64 / 64 / 64;
  }

  /** Whatever stands at the front of a text is the encoding of one code point. */
  lemma HeadIsEncoding(s: seq<Byte>)
    requires s != [] && Utf8Head(s) > 0
    ensures Scalar(Decode(s)) && s[..Utf8Head(s)] == Encode(Decode(s))
  {
    match Utf8Head(s)
    case 1 =>
    case 2 => TwoOfHead(s);
    case 3 => ThreeOfHead(s);
    case _ => FourOfHead(s);
  }

  lemma {:induction false} EncodedIsValid(cs: seq<nat>)
    requires AllScalars(cs)
    ensures ValidUtf8(Encoded(cs))
    decreases |cs|
  {
    if cs != [] {
      var e, rest := Encode(cs[0]), Encoded(cs[1..]);
      EncodingIsHead(cs[0], rest);
      EncodedIsValid(cs[1..]);
      assert (e + rest)[|e|..] == rest;
    }
  }

  lemma {:induction false} ValidIsEncoded(s: seq<Byte>) returns (cs: seq<nat>)
    requires ValidUtf8(s)
    ensures AllScalars(cs) && s == Encoded(cs)
    decreases |s|
  {
    if s == [] {
      cs := [];
    } else {
      var n := Utf8Head(s);
      var rest := ValidIsEncoded(s[n..]);
      HeadIsEncoding(s);
      cs := [Decode(s)] + rest;
      assert cs[1..] == rest;
      assert s == s[..n] + s[n..];
    }
  }

  /** A text passes the byte tests exactly when it is the encoding of some sequence of code points. */
  lemma ValidMeaning(s: seq<Byte>)
    ensures ValidUtf8(s) <==> exists cs :: AllScalars(cs) && s == Encoded(cs)
  {
    if ValidUtf8(s) {
      var cs := ValidIsEncoded(s);
    }
    if cs :| AllScalars(cs) && s == Encoded(cs) {
      EncodedIsValid(cs);
    }
  }

  // -------------------------------------------------------- what is replaced, and how much of it

  /** The start of some encoding, or all of it. */
  ghost predicate Starts(p: seq<Byte>) {
    exists c :: Scalar(c) && p <= Encode(c)
  }

  lemma StartOf(p: seq<Byte>, s: seq<Byte>)
    requires s != [] && Utf8Head(s) == |s| && p <= s
    ensures Starts(p)
  {
    HeadIsEncoding(s);
    assert s[..|s|] == s;
    assert p <= Encode(Decode(s));
  }

  lemma NoLongerStart(s: seq<Byte>, k: nat)
    requires s != [] && Utf8Head(s) == 0 && BadLength(s) < k <= |s|
    ensures !Starts(s[..k])
  {
    if c :| Scalar(c) && s[..k] <= Encode(c) {
      var e := Encode(c);
      EncodingIsHead(c, []);
      assert e + [] == e;
      assert s[0] == e[0] && s[1] == e[1];
      assert k >= 3 ==> s[2] == e[2];
      assert k >= 4 ==> s[3] == e[3];
    }
  }

  /**
   One replacement character stands for the longest start of an encoding that broke off, or for a single byte that
   starts none.
   */
  lemma BrokenOffExactly(s: seq<Byte>)
    requires s != [] && Utf8Head(s) == 0
    ensures BadLength(s) == 1 || Starts(s[..BadLength(s)])
    ensures forall k :: BadLength(s) < k <= |s| ==> !Starts(s[..k])
  {
    var n, b := BadLength(s), s[0];
    var p := s[..n];
    if n == 2 && b < 0xF0 {
      StartOf(p, p + [0x80]);
    } else if n == 2 {
      StartOf(p, p + [0x80, 0x80]);
    } else if n == 3 {
      StartOf(p, p + [0x80]);
    }
    forall k | n < k <= |s| ensures !Starts(s[..k]) {
      NoLongerStart(s, k);
    }
  }

  lemma FrontStays(good: seq<Byte>, n: nat, rest: seq<Byte>)
    requires n <= |good|
    ensures good[..n] + (good[n..] + rest) == good + rest
  {
  }

  /** Broken text becomes the replacement character U+FFFD, and everything around it stays as it is. */
  lemma {:induction false} LossyAround(good: seq<Byte>, bad: seq<Byte>)
    requires ValidUtf8(good) && bad != [] && Utf8Head(bad) == 0
    ensures Lossy(good + bad) == good + (Encode(0xFFFD) + Lossy(bad[BadLength(bad)..]))
    decreases |good|
  {
    assert Encode(0xFFFD) == REPLACEMENT;
    if good == [] {
      assert good + bad == bad;
    } else {
      var n := Utf8Head(good);
      HeadOfConcat(good, bad);
      DropConcat(good, bad, n);
      LossyAround(good[n..], bad);
      assert (good + bad)[..n] == good[..n];
      FrontStays(good, n, Encode(0xFFFD) + Lossy(bad[BadLength(bad)..]));
    }
  }
}
