/**
 Truncating text to a number of UTF-8 bytes without cutting a code point in two.

 A character is a Unicode scalar value; its UTF-8 form is the one of section 3 of RFC 3629.
*/
module Normalizer {
  import opened Wrappers

  const MAX_MEMORY_SIZE: int := 100_000

  /** A byte as a number. */
  type Byte = b: int | 0 <= b < 256

  function EncodeChar(c: char): seq<Byte> {
    var n := c as int;
    if n < 0x80 then [n]
    else if n < 0x800 then [0xC0 + n / 64, 0x80 + n % 64]
    else if n < 0x10000 then [0xE0 + n / 4096, 0x80 + n / 64 % 64, 0x80 + n % 64]
    else [0xF0 + n / 262144, 0x80 + n / 4096 % 64, 0x80 + n / 64 % 64, 0x80 + n % 64]
  }

  /** The UTF-8 form of the first `k` characters. */
  function EncodeUpTo(text: string, k: nat): seq<Byte>
    requires k <= |text|
  {
    if k == 0 then [] else EncodeUpTo(text, k - 1) + EncodeChar(text[k - 1])
  }

  function CharSize(c: char): (size: nat)
    ensures 1 <= size <= 4
  {
    var n := c as int;
    if n < 0x80 then 1 else if n < 0x800 then 2 else if n < 0x10000 then 3 else 4
  }

  /** The byte length of the first `k` characters. */
  function Size(text: string, k: nat): nat
    requires k <= |text|
  {
    if k == 0 then 0 else Size(text, k - 1) + CharSize(text[k - 1])
  }

  /** What six bits of a continuation byte add to what was read before. */
  function Joined(before: int, continuation: int): int {
    before * 64 + (continuation - 0x80)
  }

  /** Reads a UTF-8 form back: the payload of the lead byte, then six bits a byte. */
  function DecodeChar(bytes: seq<Byte>): int {
    match |bytes|
    case 1 => bytes[0] as int
    case 2 => Joined(bytes[0] - 0xC0 as int, bytes[1])
    case 3 => Joined(Joined(bytes[0] - 0xE0 as int, bytes[1]), bytes[2])
    case 4 => Joined(Joined(Joined(bytes[0] - 0xF0 as int, bytes[1]), bytes[2]), bytes[3])
    case _ => -1
  }

  lemma SplitsOnce(n: nat)
    ensures Joined(n / 64, 0x80 + n % 64) == n
  {
  }

  lemma SplitsTwice(n: nat)
    ensures n / 64 / 64 == n / 4096
    ensures n / 4096 / 64 == n / 262144
  {
  }

  /** The UTF-8 form of a character can be read back. */
  lemma EncodingDecodes(c: char)
    ensures DecodeChar(EncodeChar(c)) == c as int && |EncodeChar(c)| == CharSize(c)
  {
    var n := c as int;
    SplitsTwice(n);
    SplitsOnce(n);
    SplitsOnce(n / 64);
    SplitsOnce(n / 4096);
  }

  lemma {:induction false} SizeIsEncodedLength(text: string, k: nat)
    requires k <= |text|
    ensures |EncodeUpTo(text, k)| == Size(text, k)
  {
    if 0 < k {
      SizeIsEncodedLength(text, k - 1);
    }
  }

  lemma {:induction false} SizeGrows(text: string, j: nat, k: nat)
    requires j <= k <= |text|
    ensures Size(text, j) + (k - j) <= Size(text, k) <= Size(text, j) + 4 * (k - j)
  {
    if j < k {
      SizeGrows(text, j, k - 1);
    }
  }

  lemma {:induction false} EncodeGrows(text: string, j: nat, k: nat)
    requires j <= k <= |text|
    ensures EncodeUpTo(text, j) <= EncodeUpTo(text, k)
  {
    if j < k {
      EncodeGrows(text, j, k - 1);
    }
  }

  lemma {:induction false} EncodePrefix(text: string, m: nat, k: nat)
    requires k <= m <= |text|
    ensures EncodeUpTo(text[..m], k) == EncodeUpTo(text, k)
    ensures Size(text[..m], k) == Size(text, k)
  {
    if 0 < k {
      EncodePrefix(text, m, k - 1);
    }
  }

  /** max_size, or the default where none (or zero) is given. */
  function Limit(maxSize: Option<int>): int {
    if maxSize.None? || maxSize.value == 0 then MAX_MEMORY_SIZE else maxSize.value
  }

  method ValidateSize(text: string, maxSize: Option<int>) returns (r: Result<bool, string>)
    ensures r == if Fits(text, maxSize) then Ok(true) else Err("Text size exceeds limit")
  {
    var limit := Limit(maxSize);
    var size := |EncodeUpTo(text, |text|)|;
    SizeIsEncodedLength(text, |text|);
    if size > limit {
      return Err("Text size exceeds limit");
    }
    return Ok(true);
  }

  predicate Fits(text: string, maxSize: Option<int>) {
    Size(text, |text|) <= Limit(maxSize)
  }

  /** How many whole characters of the first `k` fit into `limit` bytes: the reference answer. */
  function FitCount(text: string, limit: int, k: nat): (count: nat)
    requires k <= |text|
    ensures count <= k
  {
    if k == 0 || Size(text, k) <= limit then k else FitCount(text, limit, k - 1)
  }

  function Truncated(text: string, limit: int): string {
    text[..FitCount(text, limit, |text|)]
  }

  /** For a limit that is not negative, a prefix fits exactly when it is no longer than the answer. */
  lemma {:induction false} FitCountIsLongest(text: string, limit: int, k: nat, j: nat)
    requires 0 <= limit && j <= k <= |text|
    ensures Size(text, j) <= limit <==> j <= FitCount(text, limit, k)
  {
    var count := FitCount(text, limit, k);
    FitCountFits(text, limit, k);
    if j <= count {
      SizeGrows(text, j, count);
    } else {
      SizeGrows(text, count + 1, j);
    }
  }

  lemma {:induction false} FitCountFits(text: string, limit: int, k: nat)
    requires k <= |text|
    ensures var count := FitCount(text, limit, k);
      && (count == 0 || Size(text, count) <= limit)
      && (count < k ==> limit < Size(text, count + 1))
  {
    if 0 < k && limit < Size(text, k) {
      FitCountFits(text, limit, k - 1);
    }
  }

  /** The binary search for the truncation point. */
  method Truncate(text: string, maxSize: Option<int>) returns (result: string)
    ensures result == Truncated(text, Limit(maxSize))
    ensures maxSize.Some? && maxSize.value != 0 ==> result == Truncated(text, maxSize.value)
    ensures maxSize.None? || maxSize.value == 0 ==> result == Truncated(text, 100_000)
  {
    var limit := Limit(maxSize);
    if Size(text, |text|) <= limit {
      assert text[..|text|] == text;
      return text;
    }
    var low, high := 0, |text|;
    while low < high
      invariant 0 <= low <= high <= |text|
      invariant low == 0 || Size(text, low) <= limit
      invariant high < |text| ==> limit < Size(text, high + 1)
    {
      var mid := (low + high + 1) / 2;
      if Size(text, mid) <= limit {
        low := mid;
      } else {
        high := mid - 1;
      }
    }
    CountUnique(text, limit, low);
    return text[..low];
  }

  lemma CountUnique(text: string, limit: int, low: nat)
    requires low <= |text| && limit < Size(text, |text|)
    requires low == 0 || Size(text, low) <= limit
    requires low < |text| ==> limit < Size(text, low + 1)
    ensures FitCount(text, limit, |text|) == low
  {
    var count := FitCount(text, limit, |text|);
    FitCountFits(text, limit, |text|);
    if low < count {
      SizeGrows(text, low + 1, count);
    } else if count < low {
      SizeGrows(text, count + 1, low);
    }
  }

  // ------------------------------------------------------------------ what truncation promises

  /** Which texts are accepted: with a positive size those of at most that many bytes; with none, or zero,
      those of at most 100000; with a negative one, none at all, and truncation leaves nothing. */
  lemma AcceptedExactly(text: string, maxSize: Option<int>)
    ensures var bytes := |EncodeUpTo(text, |text|)|;
      && (maxSize.Some? && maxSize.value > 0 ==> (Fits(text, maxSize) <==> bytes <= maxSize.value))
      && (maxSize.Some? && maxSize.value < 0 ==> !Fits(text, maxSize) && Truncated(text, maxSize.value) == "")
      && (maxSize.None? || maxSize.value == 0 ==> (Fits(text, maxSize) <==> bytes <= 100_000))
  {
    SizeIsEncodedLength(text, |text|);
    if maxSize.Some? {
      FitCountFits(text, maxSize.value, |text|);
    }
  }

  /** With a positive limit the result is the longest prefix of whole characters within it; when
      anything is cut off, fewer than four of the allowed bytes stay unused; and its bytes are a
      prefix of the text's bytes. */
  lemma TruncatedIsLongestPrefix(text: string, limit: int)
    requires 0 < limit
    ensures var result := Truncated(text, limit);
      && result <= text
      && Size(result, |result|) <= limit
      && EncodeUpTo(result, |result|) <= EncodeUpTo(text, |text|)
      && (forall j: nat :: j <= |text| ==> (Size(text, j) <= limit <==> j <= |result|))
      && (result != text ==> limit - 4 < Size(result, |result|))
  {
    var count := FitCount(text, limit, |text|);
    EncodePrefix(text, count, count);
    FitCountFits(text, limit, |text|);
    EncodeGrows(text, count, |text|);
    forall j: nat | j <= |text| ensures Size(text, j) <= limit <==> j <= count {
      FitCountIsLongest(text, limit, |text|, j);
    }
    if count < |text| {
      SizeGrows(text, count, count + 1);
    }
  }

  lemma TruncateIdempotent(text: string, limit: int)
    ensures Truncated(Truncated(text, limit), limit) == Truncated(text, limit)
  {
    var result := Truncated(text, limit);
    FitCountFits(text, limit, |text|);
    EncodePrefix(text, |result|, |result|);
    assert FitCount(result, limit, |result|) == |result|;
  }

  /** A truncated text passes the size check with the same argument exactly when that argument is
      not a negative number. */
  lemma TruncatedFitsExactly(text: string, maxSize: Option<int>)
    ensures Fits(Truncated(text, Limit(maxSize)), maxSize) <==> maxSize.None? || 0 <= maxSize.value
  {
    var limit := Limit(maxSize);
    if 0 < limit {
      TruncatedIsLongestPrefix(text, limit);
    }
  }
}
