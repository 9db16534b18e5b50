/** Well-formed UTF-8, and the conversion that replaces what is not well-formed. */
module Utf8 {
  import opened Basics
  import opened Splitting

  predicate Continuation(b: Byte) {
    0x80 <= b < 0xC0
  }

  /** Length of the UTF-8 sequence at the front of `s`, or 0 when it is malformed. */
  function Utf8Head(s: seq<Byte>): (n: nat)
    requires s != []
    ensures n <= |s|
  {
    var b := s[0];
    if b < 0x80 then 1
    else if 0xC2 <= b < 0xE0 then
      if |s| >= 2 && Continuation(s[1]) then 2 else 0
    else if 0xE0 <= b < 0xF0 then
      if |s| >= 3 && SecondOfThree(b, s[1]) && Continuation(s[2]) then 3 else 0
    else if 0xF0 <= b < 0xF5 then
      if |s| >= 4 && SecondOfFour(b, s[1]) && Continuation(s[2]) && Continuation(s[3]) then 4 else 0
    else 0
  }

  /** The second byte of a three-byte sequence: no overlong forms, no surrogates. */
  predicate SecondOfThree(first: Byte, second: Byte) {
    Continuation(second) && (first == 0xE0 ==> second >= 0xA0) && (first == 0xED ==> second < 0xA0)
  }

  /** The second byte of a four-byte sequence: no overlong forms, nothing past the last code point. */
  predicate SecondOfFour(first: Byte, second: Byte) {
    Continuation(second) && (first == 0xF0 ==> second >= 0x90) && (first == 0xF4 ==> second < 0x90)
  }

  predicate ValidUtf8(s: seq<Byte>) {
    s == [] || (Utf8Head(s) > 0 && ValidUtf8(s[Utf8Head(s)..]))
  }

  // ----------------------------------------------------------------- lossy conversion

  /** How many bytes one replacement character stands for: the longest start of a sequence that broke off. */
  function BadLength(s: seq<Byte>): (n: nat)
    requires s != []
    ensures 1 <= n <= |s|
  {
    var b := s[0];
    if |s| >= 2 && 0xE0 <= b < 0xF0 && SecondOfThree(b, s[1]) then 2
    else if |s| >= 2 && 0xF0 <= b < 0xF5 && SecondOfFour(b, s[1]) then
      if |s| >= 3 && Continuation(s[2]) then 3 else 2
    else 1
  }

  const REPLACEMENT: seq<Byte> := [0xEF, 0xBF, 0xBD]

  function Lossy(s: seq<Byte>): seq<Byte>
    decreases |s|
  {
    if s == [] then []
    else if Utf8Head(s) > 0 then s[..Utf8Head(s)] + Lossy(s[Utf8Head(s)..])
    else REPLACEMENT + Lossy(s[BadLength(s)..])
  }

  // ------------------------------------------------------------------------ concatenation

  /** The head of a text depends on nothing behind it. */
  lemma HeadOfConcat(s: seq<Byte>, t: seq<Byte>)
    requires s != []
    ensures Utf8Head(s) > 0 ==> Utf8Head(s + t) == Utf8Head(s)
    ensures 0 < Utf8Head(s + t) <= |s| ==> Utf8Head(s) == Utf8Head(s + t)
  {
    var u := s + t;
    assert u[0] == s[0];
    assert |s| >= 2 ==> u[1] == s[1];
    assert |s| >= 3 ==> u[2] == s[2];
    assert |s| >= 4 ==> u[3] == s[3];
  }

  lemma DropConcat(s: seq<Byte>, t: seq<Byte>, n: nat)
    requires n <= |s|
    ensures (s + t)[n..] == s[n..] + t
  {
  }

  lemma {:induction false} ValidConcat(a: seq<Byte>, b: seq<Byte>)
    requires ValidUtf8(a) && ValidUtf8(b)
    ensures ValidUtf8(a + b)
    decreases |a|
  {
    if a == [] {
      assert a + b == b;
    } else {
      var n := Utf8Head(a);
      HeadOfConcat(a, b);
      DropConcat(a, b, n);
      ValidConcat(a[n..], b);
    }
  }

  /** An ASCII byte stands between two texts that are well-formed on their own. */
  lemma {:induction false} AsciiSeparates(a: seq<Byte>, c: Byte, b: seq<Byte>)
    requires c < 0x80
    ensures ValidUtf8(a + ([c] + b)) <==> ValidUtf8(a) && ValidUtf8(b)
    decreases |a|
  {
    var s := a + ([c] + b);
    if a == [] {
      assert s == [c] + b && s[1..] == b;
    } else {
      HeadOfConcat(a, [c] + b);
      var n := Utf8Head(s);
      assert s[|a|] == c;
      if n > 0 {
        HeadHasContinuations(s);
        assert n <= |a|;
        DropConcat(a, [c] + b, n);
        AsciiSeparates(a[n..], c, b);
      }
    }
  }

  /** All but the first byte of a sequence are continuation bytes. */
  lemma HeadHasContinuations(s: seq<Byte>)
    requires s != []
    ensures forall i :: 1 <= i < Utf8Head(s) ==> Continuation(s[i])
  {
  }

  lemma {:induction false} JoinedPartsAreValid(parts: seq<seq<Byte>>, sep: Byte)
    requires sep < 0x80 && ValidUtf8(Join(parts, sep))
    ensures forall i :: 0 <= i < |parts| ==> ValidUtf8(parts[i])
    decreases |parts|
  {
    if |parts| > 1 {
      var rest := Join(parts[1..], sep);
      assert Join(parts, sep) == parts[0] + ([sep] + rest);
      AsciiSeparates(parts[0], sep, rest);
      JoinedPartsAreValid(parts[1..], sep);
      forall i | 0 <= i < |parts| ensures ValidUtf8(parts[i]) {
        if i > 0 {
          assert parts[i] == parts[1..][i - 1];
        }
      }
    }
  }

  /** Splitting a well-formed text at an ASCII byte gives well-formed parts. */
  lemma SplitIsValid(s: seq<Byte>, sep: Byte)
    requires sep < 0x80 && ValidUtf8(s)
    ensures forall i :: 0 <= i < |Split(s, sep)| ==> ValidUtf8(Split(s, sep)[i])
  {
    JoinOfSplit(s, sep);
    JoinedPartsAreValid(Split(s, sep), sep);
  }

  lemma {:induction false} JoinIsValid(parts: seq<seq<Byte>>, sep: Byte)
    requires sep < 0x80 && forall i :: 0 <= i < |parts| ==> ValidUtf8(parts[i])
    ensures ValidUtf8(Join(parts, sep))
    decreases |parts|
  {
    if |parts| > 1 {
      var rest := Join(parts[1..], sep);
      JoinIsValid(parts[1..], sep);
      AsciiSeparates(parts[0], sep, rest);
      assert Join(parts, sep) == parts[0] + ([sep] + rest);
    }
  }

  // -------------------------------------------------------------- the conversion's meaning

  lemma OneCharacterIsValid(s: seq<Byte>)
    requires s != [] && Utf8Head(s) > 0
    ensures ValidUtf8(s[..Utf8Head(s)])
  {
    var n := Utf8Head(s);
    var c := s[..n];
    assert s == c + s[n..];
    HeadOfConcat(c, s[n..]);
    assert Utf8Head(c) == n && c[n..] == [];
  }

  lemma ReplacementIsValid()
    ensures ValidUtf8(REPLACEMENT)
  {
    assert Utf8Head(REPLACEMENT) == 3 && REPLACEMENT[3..] == [];
  }

  /** The result of the conversion is always well-formed. */
  lemma {:induction false} LossyIsValid(s: seq<Byte>)
    ensures ValidUtf8(Lossy(s))
    decreases |s|
  {
    if s != [] {
      var n := Utf8Head(s);
      if n > 0 {
        LossyIsValid(s[n..]);
        OneCharacterIsValid(s);
        ValidConcat(s[..n], Lossy(s[n..]));
      } else {
        LossyIsValid(s[BadLength(s)..]);
        ReplacementIsValid();
        ValidConcat(REPLACEMENT, Lossy(s[BadLength(s)..]));
      }
    }
  }

  lemma {:induction false} LossyKeepsValid(s: seq<Byte>)
    requires ValidUtf8(s)
    ensures Lossy(s) == s
    decreases |s|
  {
    if s != [] {
      LossyKeepsValid(s[Utf8Head(s)..]);
      assert s == s[..Utf8Head(s)] + s[Utf8Head(s)..];
    }
  }

  /** The conversion changes a text exactly when it is not well-formed. */
  lemma LossyIsIdentityExactly(s: seq<Byte>)
    ensures Lossy(s) == s <==> ValidUtf8(s)
  {
    LossyIsValid(s);
    if ValidUtf8(s) {
      LossyKeepsValid(s);
    }
  }
}
