/** The two string helpers of internal/utils/utils.go: `RandomString`, which
    maps random bytes onto a 62-character alphabet in place, and
    `ReplacePersianDigits`, which turns Extended Arabic-Indic digits into
    ASCII digits. Strings are sequences of runes. */
module Utils {
  type byte = x: int | 0 <= x < 256

  /** `n` consecutive byte values from `first`. */
  function Range(first: byte, n: nat): (r: seq<byte>)
    requires first + n <= 256
    ensures |r| == n && forall k :: 0 <= k < n ==> r[k] == first + k
  {
    seq(n, k requires 0 <= k < n => first + k as byte)
  }

  /** The alphabet of `RandomString`, "a".."z" then "A".."Z" then "0".."9", as bytes. */
  const Charset: seq<byte> := Range('a' as int, 26) + Range('A' as int, 26) + Range('0' as int, 10)

  predicate IsAlphanumeric(b: int) {
    ('a' as int <= b <= 'z' as int) || ('A' as int <= b <= 'Z' as int) || ('0' as int <= b <= '9' as int)
  }

  /** The alphabet has 62 distinct letters and digits, and holds every one of them. */
  lemma CharsetAlphabet()
    ensures |Charset| == 62
    ensures forall k :: 0 <= k < |Charset| ==> IsAlphanumeric(Charset[k])
    ensures forall k, l :: 0 <= k < l < |Charset| ==> Charset[k] != Charset[l]
    ensures forall b :: IsAlphanumeric(b) ==> b in Charset
  {
    forall k | 0 <= k < 62 ensures Charset[k] == CharsetAt(k) {
      CharsetLayout(k);
    }
    forall b | IsAlphanumeric(b) ensures b in Charset {
      var k := if b >= 'a' as int then b - 'a' as int
               else if b >= 'A' as int then b - 'A' as int + 26
               else b - '0' as int + 52;
      CharsetLayout(k);
    }
  }

  /** Position k of the alphabet, by range: lower case, upper case, digits. */
  function CharsetAt(k: int): int {
    if k < 26 then 'a' as int + k else if k < 52 then 'A' as int + k - 26 else '0' as int + k - 52
  }

  lemma CharsetLayout(k: int)
    requires 0 <= k < 62
    ensures Charset[k] == CharsetAt(k)
  {
    var lower, upper, digits := Range('a' as int, 26), Range('A' as int, 26), Range('0' as int, 10);
    if k < 26 {
      assert Charset[k] == lower[k];
    } else if k < 52 {
      assert Charset[k] == (lower + upper)[k] == upper[k - 26];
    } else {
      assert Charset[k] == digits[k - 52];
    }
  }

  /** The character the mapping loop puts in place of byte b. */
  function Encode(b: byte): (c: byte)
    ensures IsAlphanumeric(c)
  {
    CharsetAlphabet();
    Charset[b % |Charset|]
  }

  /** `RandomString`: fill a buffer of `length` bytes from the random source
      (`random(i)` is the i-th byte it yields; `readFails` says whether the
      read returns an error), then replace each byte b in place by
      `charset[b % 62]`. On a read error the result is the empty string.
      The length is a `nat`: for a negative length Go's `make` panics before
      any byte is read, a case this model does not include. */
  method RandomString(length: nat, readFails: bool, random: nat -> byte) returns (s: seq<byte>, err: bool)
    ensures err <==> readFails
    ensures err ==> s == []
    ensures !err ==> |s| == length && forall i :: 0 <= i < length ==> s[i] == Encode(random(i))
    ensures forall i :: 0 <= i < |s| ==> IsAlphanumeric(s[i])
  {
    var bytes := new byte[length](i => random(i));
    if readFails {
      return [], true;
    }
    var i := 0;
    while i < bytes.Length
      invariant 0 <= i <= bytes.Length
      invariant forall k :: 0 <= k < i ==> bytes[k] == Encode(random(k))
      invariant forall k :: i <= k < bytes.Length ==> bytes[k] == random(k)
    {
      bytes[i] := Charset[bytes[i] % |Charset|];
      i := i + 1;
    }
    return bytes[..], false;
  }

  // ---------------------------------------------------------------------
  // ReplacePersianDigits
  // ---------------------------------------------------------------------

  /** Extended Arabic-Indic digit zero (U+06F0); digit i is U+06F0 + i. */
  const PersianZero: char := '\U{06F0}'

  predicate IsPersianDigit(c: char) {
    PersianZero <= c <= '\U{06F9}'
  }

  /** The ASCII digit for a Persian digit; every other rune unchanged. */
  function ToAscii(c: char): (d: char)
    ensures !IsPersianDigit(d)
    ensures IsPersianDigit(c) ==> '0' <= d <= '9' && d as int - '0' as int == c as int - PersianZero as int
    ensures !IsPersianDigit(c) ==> d == c
  {
    if IsPersianDigit(c) then ((c as int - PersianZero as int) + '0' as int) as char else c
  }

  /** The string with every Persian digit replaced by its ASCII digit. */
  function Ascii(s: string): (r: string)
    ensures |r| == |s| && forall i :: 0 <= i < |s| ==> r[i] == ToAscii(s[i])
  {
    seq(|s|, i requires 0 <= i < |s| => ToAscii(s[i]))
  }

  /** `strings.ReplaceAll(s, string(p), string(e))` for single runes p and e. */
  function ReplaceAll(s: string, p: char, e: char): (r: string)
    ensures |r| == |s| && forall i :: 0 <= i < |s| ==> r[i] == if s[i] == p then e else s[i]
  {
    if s == [] then [] else [if s[0] == p then e else s[0]] + ReplaceAll(s[1..], p, e)
  }

  /** The rune after the first `done` replacements of the loop. */
  function PartlyAscii(c: char, done: nat): char {
    if IsPersianDigit(c) && c as int - PersianZero as int < done then ToAscii(c) else c
  }

  /** `ReplacePersianDigits`: for each digit i in turn, replace every Persian
      digit i of `s` by the ASCII digit i. */
  method ReplacePersianDigits(s: string) returns (r: string)
    ensures r == Ascii(s)
  {
    r := s;
    var i := 0;
    while i < 10
      invariant 0 <= i <= 10
      invariant |r| == |s| && forall k :: 0 <= k < |s| ==> r[k] == PartlyAscii(s[k], i)
    {
      r := ReplaceAll(r, (PersianZero as int + i) as char, ('0' as int + i) as char);
      i := i + 1;
    }
  }

  /** Runes are kept one for one and no Persian digit survives. */
  lemma AsciiHasNoPersianDigit(s: string)
    ensures |Ascii(s)| == |s|
    ensures forall i :: 0 <= i < |s| ==> !IsPersianDigit(Ascii(s)[i])
  {
  }

  /** Replacing twice is replacing once. */
  lemma AsciiIdempotent(s: string)
    ensures Ascii(Ascii(s)) == Ascii(s)
  {
  }
}
