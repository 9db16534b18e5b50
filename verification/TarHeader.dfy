/** The 512-byte ustar header: octal fields, name/prefix split, checksum (src/transfer/tar.rs). */
module TarHeader {
  import opened Basics
  import opened Utf8

  const BLOCK := 512
  const NUL: Byte := 0
  const BLANK: Byte := 32
  const PLUS: Byte := 43
  const SLASH: Byte := 47
  const ZERO: Byte := 48
  const DIR_FLAG: Byte := 53
  const FILE_FLAG: Byte := 48
  const U64_MAX: nat := 0xFFFF_FFFF_FFFF_FFFF

  const USTAR: seq<Byte> := [117, 115, 116, 97, 114, 0]
  const VERSION: seq<Byte> := [48, 48]

  type Block = b: seq<Byte> | |b| == BLOCK witness seq(512, _ => 0)

  // --------------------------------------------------------------- octal numbers

  function Pow8(n: nat): (p: nat)
    ensures p >= 1
  {
    if n == 0 then 1 else 8 * Pow8(n - 1)
  }

  predicate IsOctal(b: Byte) {
    ZERO <= b < ZERO + 8
  }

  ghost predicate AllOctal(s: seq<Byte>) {
    forall i :: 0 <= i < |s| ==> IsOctal(s[i])
  }

  /** The low `width` octal digits of `value`. */
  function OctalDigits(value: nat, width: nat): (s: seq<Byte>)
    ensures |s| == width && AllOctal(s)
  {
    if width == 0 then [] else OctalDigits(value / 8, width - 1) + [ZERO + value % 8]
  }

  /** The number an octal digit string denotes, or `None` at the first other byte. */
  function DigitsValue(s: seq<Byte>): Option<nat> {
    if s == [] then Some(0)
    else
      var high := DigitsValue(s[..|s| - 1]);
      var last := s[|s| - 1];
      if high.None? || !IsOctal(last) then None else Some(8 * high.value + (last - ZERO))
  }

  predicate IsFiller(b: Byte) {
    b == NUL || b == BLANK
  }

  function TrimLeft(s: seq<Byte>): seq<Byte> {
    if s != [] && IsFiller(s[0]) then TrimLeft(s[1..]) else s
  }

  function TrimRight(s: seq<Byte>): seq<Byte> {
    if s != [] && IsFiller(s[|s| - 1]) then TrimRight(s[..|s| - 1]) else s
  }

  /** Reads a numeric field: fillers around octal digits, an optional plus sign, at most 64 bits. */
  function ParseOctal(field: seq<Byte>): Option<nat> {
    var s := TrimRight(TrimLeft(field));
    if s == [] then Some(0)
    else
      var digits := if s[0] == PLUS then s[1..] else s;
      if digits == [] then None
      else
        var value := DigitsValue(digits);
        if value.Some? && value.value > U64_MAX then None else value
  }

  lemma ModSplit(value: nat, p: nat)
    requires p >= 1
    ensures value % (8 * p) == 8 * ((value / 8) % p) + value % 8
  {
    var q, r := (value / 8) / p, (value / 8) % p;
    assert value / 8 == p * q + r;
    assert value == 8 * (value / 8) + value % 8;
    assert value == (8 * p) * q + (8 * r + value % 8) by {
      assert 8 * (p * q + r) == (8 * p) * q + 8 * r;
    }
    assert 8 * r + value % 8 < 8 * p;
    RemainderUnique(value, 8 * p, q, 8 * r + value % 8);
  }

  lemma RemainderUnique(value: nat, m: nat, q: nat, r: nat)
    requires m > 0 && r < m && value == m * q + r
    ensures value % m == r
  {
    assert m * (value / m - q) == r - value % m;
    MultipleBelow(m, value / m - q);
  }

  lemma MultipleBelow(m: int, d: int)
    requires m > 0 && -m < m * d < m
    ensures d == 0
  {
  }

  /** Writing then reading digits keeps the number modulo the width of the field. */
  lemma {:induction false} DigitsRoundTrip(value: nat, width: nat)
    ensures DigitsValue(OctalDigits(value, width)) == Some(value % Pow8(width))
  {
    if width > 0 {
      DigitsRoundTrip(value / 8, width - 1);
      var s := OctalDigits(value, width);
      assert s[..|s| - 1] == OctalDigits(value / 8, width - 1);
      ModSplit(value, Pow8(width - 1));
    }
  }

  lemma {:induction false} TrimRightFillers(digits: seq<Byte>, fillers: seq<Byte>)
    requires digits != [] && AllOctal(digits)
    requires forall i :: 0 <= i < |fillers| ==> IsFiller(fillers[i])
    ensures TrimRight(digits + fillers) == digits
  {
    if fillers == [] {
      assert digits + fillers == digits;
    } else {
      var s := digits + fillers;
      assert s[..|s| - 1] == digits + fillers[..|fillers| - 1];
      TrimRightFillers(digits, fillers[..|fillers| - 1]);
    }
  }

  lemma Pow8Eleven()
    ensures Pow8(11) == 0x2_0000_0000 && Pow8(6) == 0x4_0000
  {
    assert Pow8(3) == 512;
    assert Pow8(6) == 8 * (8 * (8 * Pow8(3)));
    assert Pow8(9) == 8 * (8 * (8 * Pow8(6)));
  }

  /** A written numeric field reads back as the value modulo the field's capacity. */
  lemma FieldRoundTrip(value: nat, width: nat, fillers: seq<Byte>)
    requires 0 < width <= 11
    requires forall i :: 0 <= i < |fillers| ==> IsFiller(fillers[i])
    ensures ParseOctal(OctalDigits(value, width) + fillers) == Some(value % Pow8(width))
  {
    var digits := OctalDigits(value, width);
    assert (digits + fillers)[0] == digits[0];
    TrimRightFillers(digits, fillers);
    DigitsRoundTrip(value, width);
    Pow8Monotone(width, 11);
    Pow8Eleven();
  }

  lemma {:induction false} Pow8Monotone(a: nat, b: nat)
    requires a <= b
    ensures Pow8(a) <= Pow8(b)
    decreases b - a
  {
    if a < b {
      Pow8Monotone(a, b - 1);
    }
  }

  /** A field is exact for the values it has digits for (8^11 for the size field) and for no others. */
  lemma FieldExactBelowCapacity(value: nat, width: nat)
    requires 0 < width <= 11
    ensures ParseOctal(OctalDigits(value, width) + [NUL]) == Some(value) <==> value < Pow8(width)
  {
    FieldRoundTrip(value, width, [NUL]);
    ModIsIdentityBelow(value, Pow8(width));
  }

  lemma ModIsIdentityBelow(value: nat, p: nat)
    requires p > 0
    ensures value % p == value <==> value < p
  {
  }

  /** The digit loop that fills an octal field, with its early exit once the value is used up. */
  method WriteOctal(value: nat, width: nat) returns (field: seq<Byte>)
    ensures field == OctalDigits(value, width) + [NUL]
  {
    var buf: seq<Byte> := seq(width, _ => ZERO);
    var v, i := value, width;
    while i > 0
      invariant 0 <= i <= |buf| == width
      invariant OctalDigits(value, width) == OctalDigits(v, i) + buf[i..]
      invariant forall j :: 0 <= j < i ==> buf[j] == ZERO
    {
      i := i - 1;
      buf := buf[i := ZERO + v % 8];
      assert OctalDigits(v, i + 1) == OctalDigits(v / 8, i) + [buf[i]];
      assert [buf[i]] + buf[i + 1..] == buf[i..];
      v := v / 8;
      if v == 0 {
        break;
      }
    }
    if v == 0 {
      ZeroDigits(i);
      assert buf[..i] == OctalDigits(0, i);
    }
    assert buf[..i] + buf[i..] == buf;
    return buf + [NUL];
  }

  lemma {:induction false} ZeroDigits(width: nat)
    ensures OctalDigits(0, width) == seq(width, _ => ZERO)
  {
    if width > 0 {
      ZeroDigits(width - 1);
    }
  }

  // ----------------------------------------------------------------- path split

  function LastSlash(path: seq<Byte>): (k: Option<nat>)
    ensures k.Some? ==> k.value < |path| && path[k.value] == SLASH
    ensures k.Some? ==> forall i :: k.value < i < |path| ==> path[i] != SLASH
    ensures k.None? ==> forall i :: 0 <= i < |path| ==> path[i] != SLASH
  {
    if path == [] then None
    else if path[|path| - 1] == SLASH then Some(|path| - 1)
    else LastSlash(path[..|path| - 1])
  }

  /** The name and prefix fields for a path, or `None` when it does not fit. */
  function SplitUstar(path: seq<Byte>): Option<(seq<Byte>, seq<Byte>)> {
    if |path| <= 100 then Some((path, []))
    else
      var k := LastSlash(path);
      if k.Some? && |path| - k.value - 1 <= 100 && k.value <= 155
      then Some((path[k.value + 1..], path[..k.value]))
      else None
  }

  // -------------------------------------------------------------------- header

  /** The bytes of `s` followed by zeros. */
  function Padded(s: seq<Byte>, i: nat): Byte {
    if i < |s| then s[i] else NUL
  }

  datatype Fields = Fields(name: seq<Byte>, prefix: seq<Byte>, size: nat, mode: nat, mtime: nat, flag: Byte)

  /** Every byte of the header outside the checksum field. */
  function PlainByte(f: Fields, i: nat): Byte {
    if i < 100 then Padded(f.name, i)
    else if i < 108 then Padded(OctalDigits(f.mode, 7), i - 100)
    else if i < 116 then Padded(OctalDigits(0, 7), i - 108)
    else if i < 124 then Padded(OctalDigits(0, 7), i - 116)
    else if i < 136 then Padded(OctalDigits(f.size, 11), i - 124)
    else if i < 148 then Padded(OctalDigits(f.mtime, 11), i - 136)
    else if i < 156 then BLANK
    else if i == 156 then f.flag
    else if i < 257 then NUL
    else if i < 263 then USTAR[i - 257]
    else if i < 265 then VERSION[i - 263]
    else if i < 345 then NUL
    else if i < 500 then Padded(f.prefix, i - 345)
    else NUL
  }

  function Blanked(f: Fields): (b: Block) {
    seq(BLOCK, i requires 0 <= i < BLOCK => PlainByte(f, i))
  }

  function InChecksum(i: int): bool {
    148 <= i < 156
  }

  /** The sum of the first `n` bytes, counting the checksum field as blanks. */
  function MaskedSum(b: seq<Byte>, n: nat): (sum: nat)
    requires n <= |b|
    ensures sum <= 255 * n
  {
    if n == 0 then 0 else MaskedSum(b, n - 1) + (if InChecksum(n - 1) then BLANK else b[n - 1])
  }

  function Checksum(b: Block): nat {
    MaskedSum(b, BLOCK)
  }

  function ChecksumField(sum: nat): (s: seq<Byte>)
    ensures |s| == 8
  {
    OctalDigits(sum, 6) + [NUL, BLANK]
  }

  function Header(f: Fields): (b: Block) {
    var plain := Blanked(f);
    plain[..148] + ChecksumField(Checksum(plain)) + plain[156..]
  }

  lemma {:induction false} MaskedSumIgnoresField(a: seq<Byte>, b: seq<Byte>, n: nat)
    requires n <= |a| && n <= |b|
    requires forall i :: 0 <= i < n && !InChecksum(i) ==> a[i] == b[i]
    ensures MaskedSum(a, n) == MaskedSum(b, n)
  {
    if n > 0 {
      MaskedSumIgnoresField(a, b, n - 1);
    }
  }

  /** The checksum of any header fits the six digits of its field. */
  lemma ChecksumFits(b: Block)
    ensures Checksum(b) <= 255 * 512 < Pow8(6)
  {
    Pow8Eleven();
  }

  lemma HeaderBytes(f: Fields)
    ensures forall i :: 0 <= i < BLOCK && !InChecksum(i) ==> Header(f)[i] == PlainByte(f, i)
    ensures Header(f)[148..156] == ChecksumField(Checksum(Blanked(f)))
  {
  }

  // ------------------------------------------------------------------- parsing

  datatype Parsed = Parsed(path: seq<Byte>, size: nat, flag: Byte)

  datatype TarError = BadChecksum | BadNumber | BadPath | BadEntry | Truncated | FsConflict

  function CString(field: seq<Byte>): seq<Byte> {
    if field == [] || field[0] == NUL then [] else [field[0]] + CString(field[1..])
  }

  predicate AllZero(b: seq<Byte>) {
    forall i :: 0 <= i < |b| ==> b[i] == NUL
  }

  predicate IsUstar(b: Block) {
    var magic, version := b[257..263], b[263..265];
    && (magic == USTAR || magic == [117, 115, 116, 97, 114, 32])
    && (version == [48, 48] || version == [32, 32] || version == [0, 0] || version == [48, 0] || version == [48, 32])
  }

  /** Whether the block is an acceptable header, and if so whether it has a prefix field. */
  function Validate(b: Block): Result<bool, TarError> {
    if AllZero(b) then Ok(true)
    else
      var stored := ParseOctal(b[148..156]);
      if stored.None? then Err(BadNumber)
      else if stored.value != Checksum(b) then Err(BadChecksum)
      else Ok(IsUstar(b))
  }

  function Parse(b: Block): Result<Parsed, TarError> {
    var valid := Validate(b);
    if valid.Err? then Err(valid.error)
    else
      var name := Lossy(CString(b[0..100]));
      var prefix := if valid.value then Lossy(CString(b[345..500])) else [];
      var path := if prefix != [] then prefix + [SLASH] + name else name;
      var size := ParseOctal(b[124..136]);
      if size.None? then Err(BadNumber) else Ok(Parsed(path, size.value, b[156]))
  }

  ghost predicate NoNul(s: seq<Byte>) {
    forall i :: 0 <= i < |s| ==> s[i] != NUL
  }

  lemma {:induction false} CStringOfPadded(field: seq<Byte>, s: seq<Byte>)
    requires |s| <= |field| && NoNul(s)
    requires forall i :: 0 <= i < |field| ==> field[i] == Padded(s, i)
    ensures CString(field) == s
  {
    if s == [] {
      assert field != [] ==> field[0] == NUL;
    } else {
      assert field[0] == s[0];
      forall i | 0 <= i < |field[1..]| ensures field[1..][i] == Padded(s[1..], i) {
        assert field[1..][i] == field[i + 1];
      }
      CStringOfPadded(field[1..], s[1..]);
      assert s == [s[0]] + s[1..];
    }
  }

  lemma StoredChecksum(f: Fields)
    ensures ParseOctal(Header(f)[148..156]) == Some(Checksum(Header(f)))
  {
    var h, plain := Header(f), Blanked(f);
    HeaderBytes(f);
    MaskedSumIgnoresField(h, plain, BLOCK);
    ChecksumFits(plain);
    FieldRoundTrip(Checksum(plain), 6, [NUL, BLANK]);
    ModIsIdentityBelow(Checksum(plain), Pow8(6));
  }

  lemma CarriesMagic(f: Fields)
    ensures IsUstar(Header(f)) && !AllZero(Header(f))
  {
    var h := Header(f);
    HeaderBytes(f);
    assert h[257] == 117;
    assert h[257..263] == USTAR;
    assert h[263..265] == VERSION;
  }

  /** A written header is never taken for an end-of-archive block and passes its own checks. */
  lemma HeaderIsValid(f: Fields)
    ensures !AllZero(Header(f)) && Validate(Header(f)) == Ok(true)
  {
    StoredChecksum(f);
    CarriesMagic(f);
  }

  lemma SizeField(f: Fields)
    ensures ParseOctal(Header(f)[124..136]) == Some(f.size % Pow8(11))
  {
    HeaderBytes(f);
    assert Header(f)[124..136] == OctalDigits(f.size, 11) + [NUL];
    FieldRoundTrip(f.size, 11, [NUL]);
  }

  lemma NameFields(f: Fields)
    requires |f.name| <= 100 && |f.prefix| <= 155 && NoNul(f.name) && NoNul(f.prefix)
    ensures CString(Header(f)[0..100]) == f.name && CString(Header(f)[345..500]) == f.prefix
  {
    HeaderBytes(f);
    var h := Header(f);
    forall i | 0 <= i < 100 ensures h[0..100][i] == Padded(f.name, i) {
      assert h[0..100][i] == h[i];
    }
    CStringOfPadded(h[0..100], f.name);
    forall i | 0 <= i < 155 ensures h[345..500][i] == Padded(f.prefix, i) {
      assert h[345..500][i] == h[345 + i];
    }
    CStringOfPadded(h[345..500], f.prefix);
  }

  /** The header a writer produces for a path it accepts. */
  function HeaderFor(path: seq<Byte>, size: nat, mode: nat, mtime: nat, flag: Byte): Option<Block> {
    var parts := SplitUstar(path);
    if parts.None? then None
    else Some(Header(Fields(parts.value.0, parts.value.1, size, mode, mtime, flag)))
  }

  /** A long path whose only slash is its first byte: the empty prefix is not told from no prefix. */
  predicate LosesSlash(path: seq<Byte>) {
    |path| > 100 && LastSlash(path) == Some(0)
  }

  lemma CutAt(path: seq<Byte>, k: nat)
    requires k < |path| && path[k] == SLASH
    ensures path == path[..k] + ([SLASH] + path[k + 1..]) == path[..k] + [SLASH] + path[k + 1..]
  {
  }

  lemma SplitParts(path: seq<Byte>, k: nat)
    requires k < |path| && path[k] == SLASH && NoNul(path) && ValidUtf8(path)
    ensures NoNul(path[..k]) && NoNul(path[k + 1..]) && ValidUtf8(path[..k]) && ValidUtf8(path[k + 1..])
    ensures k > 0 ==> path == path[..k] + [SLASH] + path[k + 1..]
    ensures k == 0 ==> path != path[k + 1..] && path[..k] == []
  {
    CutAt(path, k);
    AsciiSeparates(path[..k], SLASH, path[k + 1..]);
    assert |path[k + 1..]| < |path|;
  }

  /** An accepted split fits both fields, and joins back to the path unless it loses a leading slash. */
  lemma SplitUstarJoins(path: seq<Byte>)
    requires SplitUstar(path).Some? && NoNul(path) && ValidUtf8(path)
    ensures
      var (name, prefix) := SplitUstar(path).value;
      && |name| <= 100 && |prefix| <= 155 && NoNul(name) && NoNul(prefix)
      && ValidUtf8(name) && ValidUtf8(prefix)
      && (path == (if prefix != [] then prefix + [SLASH] + name else name) <==> !LosesSlash(path))
  {
    if |path| > 100 {
      SplitParts(path, LastSlash(path).value);
    }
  }

  /** Reading back a written header gives its type and its size modulo 8^11, and its path exactly when no slash is lost. */
  lemma HeaderRoundTrip(path: seq<Byte>, size: nat, mode: nat, mtime: nat, flag: Byte)
    requires HeaderFor(path, size, mode, mtime, flag).Some? && NoNul(path) && ValidUtf8(path)
    ensures
      var parsed := Parse(HeaderFor(path, size, mode, mtime, flag).value);
      && parsed.Ok? && parsed.value.size == size % Pow8(11) && parsed.value.flag == flag
      && (parsed.value.path == path <==> !LosesSlash(path))
  {
    var (name, prefix) := SplitUstar(path).value;
    var f := Fields(name, prefix, size, mode, mtime, flag);
    SplitUstarJoins(path);
    ParsedHeader(f);
  }

  lemma ParsedHeader(f: Fields)
    requires |f.name| <= 100 && |f.prefix| <= 155 && NoNul(f.name) && NoNul(f.prefix)
    requires ValidUtf8(f.name) && ValidUtf8(f.prefix)
    ensures
      var path := if f.prefix != [] then f.prefix + [SLASH] + f.name else f.name;
      Parse(Header(f)) == Ok(Parsed(path, f.size % Pow8(11), f.flag))
  {
    HeaderIsValid(f);
    SizeField(f);
    NameFields(f);
    LossyKeepsValid(f.name);
    LossyKeepsValid(f.prefix);
    assert Header(f)[156] == f.flag by { HeaderBytes(f); }
  }

  /** Whatever block is parsed, its path is well-formed text. */
  lemma ParsedPathIsValid(b: Block)
    requires Parse(b).Ok?
    ensures ValidUtf8(Parse(b).value.path)
  {
    var name := Lossy(CString(b[0..100]));
    var prefix := if Validate(b).value then Lossy(CString(b[345..500])) else [];
    LossyIsValid(CString(b[0..100]));
    LossyIsValid(CString(b[345..500]));
    AsciiSeparates(prefix, SLASH, name);
    assert prefix + ([SLASH] + name) == prefix + [SLASH] + name;
  }

  // ------------------------------------------------------------ writing in place

  method WriteOctalChecksum(value: nat) returns (field: seq<Byte>)
    ensures field == ChecksumField(value)
  {
    var digits: seq<Byte> := [];
    var v := value;
    for i := 0 to 6
      invariant OctalDigits(value, 6) == OctalDigits(v, 6 - i) + digits
    {
      assert OctalDigits(v, 6 - i) == OctalDigits(v / 8, 6 - i - 1) + [ZERO + v % 8];
      digits := [ZERO + v % 8] + digits;
      v := v / 8;
    }
    return digits + [NUL, BLANK];
  }

  method PutBytes(header: array<Byte>, at: nat, src: seq<Byte>)
    requires at + |src| <= header.Length
    modifies header
    ensures forall i :: 0 <= i < header.Length ==>
              header[i] == if at <= i < at + |src| then src[i - at] else old(header[i])
  {
    for k := 0 to |src|
      invariant forall i :: 0 <= i < header.Length ==>
                  header[i] == if at <= i < at + k then src[i - at] else old(header[i])
    {
      header[at + k] := src[k];
    }
  }

  /** Fills the numeric fields of a zeroed block, the checksum field still blank. */
  method PutNumbers(header: array<Byte>, f: Fields)
    requires header.Length == BLOCK
    requires forall i :: 100 <= i < 156 ==> header[i] == NUL
    modifies header
    ensures forall i :: 0 <= i < BLOCK ==>
              header[i] == if 100 <= i < 156 then PlainByte(f, i) else old(header[i])
  {
    var mode := WriteOctal(f.mode, 7);
    PutBytes(header, 100, mode);
    var zero := WriteOctal(0, 7);
    PutBytes(header, 108, zero);
    PutBytes(header, 116, zero);
    var size := WriteOctal(f.size, 11);
    PutBytes(header, 124, size);
    var mtime := WriteOctal(f.mtime, 11);
    PutBytes(header, 136, mtime);
    PutBytes(header, 148, seq(8, _ => BLANK));
  }

  /** The header as the writer builds it: fields written into a zeroed block, then the checksum. */
  method WriteHeader(path: seq<Byte>, size: nat, mode: nat, mtime: nat, flag: Byte) returns (block: Option<Block>)
    ensures block == HeaderFor(path, size, mode, mtime, flag)
  {
    var parts := SplitUstar(path);
    if parts.None? {
      return None;
    }
    var (name, prefix) := parts.value;
    var f := Fields(name, prefix, size, mode, mtime, flag);
    var header := new Byte[BLOCK](_ => NUL);
    PutBytes(header, 0, name);
    PutNumbers(header, f);
    PutBytes(header, 156, [flag]);
    PutBytes(header, 257, USTAR);
    PutBytes(header, 263, VERSION);
    PutBytes(header, 345, prefix);
    assert header[..] == Blanked(f);
    var sum: nat := 0;
    for i := 0 to BLOCK
      invariant header[..] == Blanked(f) && sum == MaskedSum(header[..], i)
    {
      assert InChecksum(i) ==> header[i] == BLANK;
      sum := sum + header[i];
    }
    var field := WriteOctalChecksum(sum);
    PutBytes(header, 148, field);
    assert header[..] == Header(f);
    return Some(header[..]);
  }
}
