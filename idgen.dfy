/** Random identifiers (internal/idgen.go): `RandomID(n)` reads ⌈n/2⌉ random bytes
  * and returns the first `n` characters of their lowercase hexadecimal encoding.
  * The entropy source is a parameter: the bytes it can supply before it fails. */
module IdGen {
  newtype byte = x: int | 0 <= x < 256

  const HexDigits := "0123456789abcdef"

  /** The lowercase hexadecimal digit of a nibble, as `%x` writes it. */
  function HexDigit(v: int): (c: char)
    requires 0 <= v < 16
    ensures c in HexDigits && ('0' <= c <= '9' || 'a' <= c <= 'f')
  {
    HexDigits[v]
  }

  predicate IsLowerHex(c: char)
  {
    '0' <= c <= '9' || 'a' <= c <= 'f'
  }

  /** The value of a lowercase hexadecimal digit. */
  function DigitValue(c: char): (v: int)
    requires IsLowerHex(c)
    ensures 0 <= v < 16 && HexDigit(v) == c
  {
    if c <= '9' then c as int - '0' as int else c as int - 'a' as int + 10
  }

  lemma DigitValueOfHexDigit(v: int)
    requires 0 <= v < 16
    ensures DigitValue(HexDigit(v)) == v
  {
  }

  /** `fmt.Sprintf("%x", b)`: two digits per byte, high nibble first. */
  function Hex(b: seq<byte>): (s: string)
    ensures |s| == 2 * |b|
  {
    if b == [] then []
    else [HexDigit(b[0] as int / 16), HexDigit(b[0] as int % 16)] + Hex(b[1..])
  }

  /** Byte `i` becomes characters `2i` (its high nibble) and `2i + 1` (its low
    * nibble). */
  lemma {:induction false} HexAt(b: seq<byte>, i: nat)
    requires i < |b|
    ensures Hex(b)[2 * i] == HexDigit(b[i] as int / 16)
    ensures Hex(b)[2 * i + 1] == HexDigit(b[i] as int % 16)
  {
    if i > 0 {
      HexAt(b[1..], i - 1);
    }
  }

  /** Every character of the encoding is a lowercase hexadecimal digit. */
  lemma HexAlphabet(b: seq<byte>)
    ensures forall k :: 0 <= k < |Hex(b)| ==> IsLowerHex(Hex(b)[k])
  {
    forall k | 0 <= k < |Hex(b)|
      ensures IsLowerHex(Hex(b)[k])
    {
      HexAt(b, k / 2);
    }
  }

  /** A string `Unhex` can read: lowercase hexadecimal digits only. */
  predicate HexAlphabetOk(s: string)
  {
    forall k :: 0 <= k < |s| ==> IsLowerHex(s[k])
  }

  /** Reads a lowercase hexadecimal string back into bytes, two digits per byte. */
  function Unhex(s: string): (b: seq<byte>)
    requires HexAlphabetOk(s)
  {
    if |s| < 2 then []
    else
      assert IsLowerHex(s[0]) && IsLowerHex(s[1]);
      assert HexAlphabetOk(s[2..]) by {
        forall k | 0 <= k < |s| - 2
          ensures IsLowerHex(s[2..][k])
        {
          assert s[2..][k] == s[k + 2];
        }
      }
      [ByteOf(DigitValue(s[0]), DigitValue(s[1]))] + Unhex(s[2..])
  }

  /** The byte with high nibble `hi` and low nibble `lo`. */
  function ByteOf(hi: int, lo: int): (x: byte)
    requires 0 <= hi < 16 && 0 <= lo < 16
    ensures x as int / 16 == hi && x as int % 16 == lo
  {
    (16 * hi + lo) as byte
  }

  lemma UnhexCons(s: string)
    requires HexAlphabetOk(s) && |s| >= 2
    ensures HexAlphabetOk(s[2..]) && IsLowerHex(s[0]) && IsLowerHex(s[1])
    ensures Unhex(s) == [ByteOf(DigitValue(s[0]), DigitValue(s[1]))] + Unhex(s[2..])
  {
    assert IsLowerHex(s[0]) && IsLowerHex(s[1]);
    forall k | 0 <= k < |s| - 2
      ensures IsLowerHex(s[2..][k])
    {
      assert s[2..][k] == s[k + 2];
    }
  }

  /** A byte is made of its two nibbles. */
  lemma ByteOfNibbles(x: byte)
    ensures ByteOf(x as int / 16, x as int % 16) == x
  {
  }

  /** The encoding loses nothing: reading it back yields the bytes. */
  lemma {:induction false} UnhexHex(b: seq<byte>)
    ensures HexAlphabetOk(Hex(b))
    ensures Unhex(Hex(b)) == b
  {
    HexAlphabet(b);
    if b != [] {
      var hi, lo := b[0] as int / 16, b[0] as int % 16;
      var s, t := Hex(b), Hex(b[1..]);
      assert s == [HexDigit(hi), HexDigit(lo)] + t;
      assert s[2..] == t && s[0] == HexDigit(hi) && s[1] == HexDigit(lo);
      UnhexHex(b[1..]);
      DigitValueOfHexDigit(hi);
      DigitValueOfHexDigit(lo);
      ByteOfNibbles(b[0]);
      UnhexCons(s);
      assert DigitValue(s[0]) == hi && DigitValue(s[1]) == lo;
      assert Unhex(s) == [b[0]] + Unhex(t);
      assert b == [b[0]] + b[1..];
    }
  }

  /** The buffer length `n/2 + (n&1)`, with Go's division truncating toward zero;
    * `n&1` on a two's-complement integer is its remainder modulo 2, always 0 or 1.
    * For a non-negative length that is ⌈n/2⌉ bytes, whose encoding is long enough to
    * cut `n` characters from. For a negative length the division rounds toward zero,
    * so only -1 and -3 give a buffer that can be allocated (of one byte and of
    * none). */
  function BufferLen(n: int): (len: int)
    ensures n >= 0 ==> len == (n + 1) / 2 && n <= 2 * len <= n + 1
    ensures n < 0 ==> (0 <= len <==> n == -1 || n == -3)
    ensures n == -1 ==> len == 1
    ensures n == -3 ==> len == 0
  {
    var half := if n >= 0 then n / 2 else -((-n) / 2);
    half + n % 2
  }

  /** The identifier cut from buffer `b`: the first `n` characters of its hex
    * encoding. */
  function FormatID(n: nat, b: seq<byte>): (id: string)
    requires n <= 2 * |b|
    ensures |id| == n
    ensures id <= Hex(b)
  {
    Hex(b)[..n]
  }

  /** Characters `2j` and `2j + 1` of the identifier, as far as it reaches, are the
    * high and the low nibble of byte `j`. */
  lemma FormatIDAt(n: nat, b: seq<byte>, j: nat)
    requires n <= 2 * |b| && j < |b|
    ensures 2 * j < n ==> FormatID(n, b)[2 * j] == HexDigit(b[j] as int / 16)
    ensures 2 * j + 1 < n ==> FormatID(n, b)[2 * j + 1] == HexDigit(b[j] as int % 16)
  {
    HexAt(b, j);
  }

  /** Why `RandomID` panics. */
  datatype Panic = MakeLenOutOfRange | ReadFailed | SliceOutOfRange

  datatype IdOutcome = Id(id: string) | Panicked(reason: Panic)

  /** `rand.Read(b)`: fills all of `b` from the entropy source, or fails when the
    * source runs out first. An empty buffer reads nothing and succeeds. */
  method ReadFull(b: array<byte>, entropy: seq<byte>) returns (ok: bool)
    modifies b
    ensures ok <==> b.Length <= |entropy|
    ensures ok ==> b[..] == entropy[..b.Length]
    ensures !ok ==> b[..] == old(b[..])
  {
    if b.Length > |entropy| {
      return false;
    }
    forall k | 0 <= k < b.Length {
      b[k] := entropy[k];
    }
    return true;
  }

  /** `RandomID(n)`: allocates the buffer, fills it, encodes it and cuts it to `n`
    * characters. It panics when the buffer length is negative, when the read fails,
    * and when `n` is negative and so cannot be a slice bound. */
  method RandomID(n: int, entropy: seq<byte>) returns (r: IdOutcome)
    ensures BufferLen(n) < 0 ==> r == Panicked(MakeLenOutOfRange)
    ensures 0 <= BufferLen(n) && |entropy| < BufferLen(n) ==> r == Panicked(ReadFailed)
    ensures 0 <= BufferLen(n) <= |entropy| && n < 0 ==> r == Panicked(SliceOutOfRange)
    ensures r.Id? <==> n >= 0 && BufferLen(n) <= |entropy|
    ensures r.Id? ==> n <= 2 * BufferLen(n) && r.id == FormatID(n, entropy[..BufferLen(n)])
  {
    var len := BufferLen(n);
    if len < 0 {
      return Panicked(MakeLenOutOfRange);
    }
    var b := new byte[len];
    var ok := ReadFull(b, entropy);
    if !ok {
      return Panicked(ReadFailed);
    }
    var s := Hex(b[..]);
    if n < 0 || n > |s| {
      return Panicked(SliceOutOfRange);
    }
    return Id(s[..n]);
  }

  /** An identifier, whenever one is returned, has exactly `n` characters, all
    * lowercase hex digits, and is a prefix of the hex encoding of the bytes read. */
  lemma RandomIDShape(n: nat, b: seq<byte>)
    requires |b| == BufferLen(n)
    ensures n <= 2 * |b|
    ensures |FormatID(n, b)| == n
    ensures forall i :: 0 <= i < n ==> IsLowerHex(FormatID(n, b)[i])
    ensures FormatID(n, b) <= Hex(b)
  {
    HexAlphabet(b);
    forall i | 0 <= i < n
      ensures IsLowerHex(FormatID(n, b)[i])
    {
      assert FormatID(n, b)[i] == Hex(b)[i];
    }
  }
}
