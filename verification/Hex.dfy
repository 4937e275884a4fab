/** The hexadecimal codecs of utils_common.c over character buffers. */
module Hex {
  import opened Common

  predicate IsHex(ch: Byte) {
    '0' as int <= ch <= '9' as int || 'a' as int <= ch <= 'f' as int || 'A' as int <= ch <= 'F' as int
  }

  /** The value of a hexadecimal character. */
  function Num(ch: Byte): (n: nat)
    ensures n < 16
  {
    if '0' as int <= ch <= '9' as int then ch - '0' as int
    else if 'a' as int <= ch <= 'f' as int then ch - 'a' as int + 10
    else if 'A' as int <= ch <= 'F' as int then ch - 'A' as int + 10
    else 0
  }

  function Digit(n: nat): (ch: Byte)
    requires n < 16
    ensures IsHex(ch) && Num(ch) == n
  {
    if n < 10 then '0' as int + n else 'a' as int + n - 10
  }

  function LowerChar(ch: Byte): Byte {
    if 'A' as int <= ch <= 'Z' as int then ch + 32 else ch
  }

  lemma DigitOfNum(ch: Byte)
    requires IsHex(ch)
    ensures Digit(Num(ch)) == LowerChar(ch)
  {}

  // ----- what the codecs compute -----

  /** The characters of the first n bytes. */
  function Encoded(b: Bytes, n: nat): (s: Bytes)
    requires n <= |b|
    ensures |s| == 2 * n
  {
    if n == 0 then [] else Encoded(b, n - 1) + [Digit(b[n - 1] / 16), Digit(b[n - 1] % 16)]
  }

  function Join(high: nat, low: nat): Byte
    requires high < 16 && low < 16
  {
    high * 16 + low
  }

  function PairAt(s: Bytes, k: nat): Byte
    requires 2 * k + 1 < |s|
  {
    Join(Num(s[2 * k]), Num(s[2 * k + 1]))
  }

  /** The bytes of the first n pairs of characters. */
  function Decoded(s: Bytes, n: nat): (b: Bytes)
    requires 2 * n <= |s|
    ensures |b| == n && forall k :: 0 <= k < n ==> b[k] == PairAt(s, k)
  {
    seq(n, k requires 0 <= k < n => PairAt(s, k))
  }

  function PairBack(s: Bytes, k: nat): Byte
    requires 2 * k + 1 < |s|
  {
    Join(Num(s[|s| - 2 * k - 2]), Num(s[|s| - 2 * k - 1]))
  }

  /** The bytes of the last n pairs of characters, the last pair first. */
  function DecodedBack(s: Bytes, n: nat): (b: Bytes)
    requires 2 * n <= |s|
    ensures |b| == n && forall k :: 0 <= k < n ==> b[k] == PairBack(s, k)
  {
    seq(n, k requires 0 <= k < n => PairBack(s, k))
  }

  predicate HexAt(s: Bytes, k: nat)
    requires 2 * k + 1 < |s|
  {
    IsHex(s[2 * k]) && IsHex(s[2 * k + 1])
  }

  predicate AllHex(s: Bytes) {
    forall k :: 0 <= k < |s| ==> IsHex(s[k])
  }

  function Lower(s: Bytes, n: nat): (r: Bytes)
    requires n <= |s|
    ensures |r| == n
  {
    if n == 0 then [] else Lower(s, n - 1) + [LowerChar(s[n - 1])]
  }

  function Reversed(b: Bytes): (r: Bytes)
    ensures |r| == |b| && forall k :: 0 <= k < |b| ==> r[k] == b[|b| - 1 - k]
  {
    seq(|b|, k requires 0 <= k < |b| => b[|b| - 1 - k])
  }

  // ----- the laws -----

  lemma {:induction false} EncodedAt(b: Bytes, n: nat, k: nat)
    requires k < n <= |b|
    ensures Encoded(b, n)[2 * k] == Digit(b[k] / 16) && Encoded(b, n)[2 * k + 1] == Digit(b[k] % 16)
  {
    if k == n - 1 {
    } else {
      EncodedAt(b, n - 1, k);
    }
  }

  lemma {:induction false} LowerAt(s: Bytes, n: nat, k: nat)
    requires k < n <= |s|
    ensures Lower(s, n)[k] == LowerChar(s[k])
  {
    if k == n - 1 {
    } else {
      LowerAt(s, n - 1, k);
    }
  }

  lemma {:induction false} EncodedIsHex(b: Bytes, n: nat)
    requires n <= |b|
    ensures AllHex(Encoded(b, n))
  {
    if n == 0 {
    } else {
      EncodedIsHex(b, n - 1);
    }
  }

  /** Text with the right two characters for each byte is the encoding. */
  lemma {:induction false} EncodedIs(b: Bytes, n: nat, s: Bytes)
    requires n <= |b| && |s| == 2 * n
    requires forall k :: 0 <= k < n ==> s[2 * k] == Digit(b[k] / 16) && s[2 * k + 1] == Digit(b[k] % 16)
    ensures s == Encoded(b, n)
  {
    if n == 0 {
    } else {
      EncodedIs(b, n - 1, s[..2 * n - 2]);
      assert s == s[..2 * n - 2] + [s[2 * n - 2], s[2 * n - 1]];
    }
  }

  /** Decoding what was encoded gives the bytes back. */
  lemma DecodeEncode(b: Bytes)
    ensures Decoded(Encoded(b, |b|), |b|) == b
  {
    var s := Encoded(b, |b|);
    forall k | 0 <= k < |b| ensures Decoded(s, |b|)[k] == b[k] {
      EncodedAt(b, |b|, k);
    }
  }

  /** Encoding what was decoded gives the characters in lower case. */
  lemma EncodeDecode(s: Bytes)
    requires |s| % 2 == 0 && AllHex(s)
    ensures var n := |s| / 2; Encoded(Decoded(s, n), n) == Lower(s, |s|)
  {
    var n := |s| / 2;
    var b, t := Decoded(s, n), Lower(s, |s|);
    forall k | 0 <= k < n ensures t[2 * k] == Digit(b[k] / 16) && t[2 * k + 1] == Digit(b[k] % 16) {
      LowerAt(s, |s|, 2 * k);
      LowerAt(s, |s|, 2 * k + 1);
      DigitOfNum(s[2 * k]);
      DigitOfNum(s[2 * k + 1]);
      SplitJoin(Num(s[2 * k]), Num(s[2 * k + 1]));
    }
    EncodedIs(b, n, t);
  }

  lemma SplitJoin(high: nat, low: nat)
    requires high < 16 && low < 16
    ensures Join(high, low) / 16 == high && Join(high, low) % 16 == low
  {}

  /** Decoding backwards gives the bytes reversed. */
  lemma DecodeBackReverses(s: Bytes)
    requires |s| % 2 == 0
    ensures DecodedBack(s, |s| / 2) == Reversed(Decoded(s, |s| / 2))
  {
    var n := |s| / 2;
    forall k | 0 <= k < n ensures DecodedBack(s, n)[k] == Reversed(Decoded(s, n))[k] {
      assert |s| - 2 * k - 2 == 2 * (n - 1 - k);
    }
  }

  // ----- the codecs -----

  /** Arguments that UtilsUnhexify and UtilsUnhexifyR take up. */
  predicate Decodes(hasIn: bool, inLen: nat, hasOut: bool, outLen: nat) {
    hasIn && hasOut && 0 < inLen && inLen % 2 == 0 && inLen / 2 <= outLen
  }

  ghost function Text(buf: array?<Byte>, len: nat): Bytes
    reads buf
  {
    if buf != null && len <= buf.Length then buf[..len] else []
  }

  /** The buffer has the data at its front and is otherwise as it was. */
  predicate Wrote(now: Bytes, before: Bytes, data: Bytes) {
    && |data| <= |now| == |before|
    && (forall k :: 0 <= k < |data| ==> now[k] == data[k])
    && (forall k :: |data| <= k < |now| ==> now[k] == before[k])
  }

  /** The number of good pairs before the first bad one, counting from pair k. */
  function GoodPairs(s: Bytes, k: nat): (n: nat)
    requires 2 * k <= |s|
    ensures k <= n && 2 * n <= |s|
    decreases |s| - 2 * k
  {
    if 2 * k + 1 < |s| && HexAt(s, k) then GoodPairs(s, k + 1) else k
  }

  /** The number of good pairs after the last bad one, the last k pairs being good. */
  function GoodPairsBack(s: Bytes, k: nat): (n: nat)
    requires 2 * k <= |s|
    ensures k <= n && 2 * n <= |s|
    decreases |s| - 2 * k
  {
    if 2 * k + 1 < |s| && IsHex(s[|s| - 2 * k - 1]) && IsHex(s[|s| - 2 * k - 2]) then GoodPairsBack(s, k + 1) else k
  }

  lemma {:induction false} AllGood(s: Bytes, k: nat)
    requires |s| % 2 == 0 && AllHex(s) && 2 * k <= |s|
    ensures GoodPairs(s, k) == |s| / 2 && GoodPairsBack(s, k) == |s| / 2
    decreases |s| - 2 * k
  {
    if 2 * k < |s| { AllGood(s, k + 1); }
  }

  /** Whatever the one decodes the other decodes, with the bytes reversed. */
  lemma UnhexifyRReverses(s: Bytes)
    requires |s| % 2 == 0 && AllHex(s)
    ensures Decoded(s, GoodPairs(s, 0)) == Decoded(s, |s| / 2)
    ensures DecodedBack(s, GoodPairsBack(s, 0)) == Reversed(Decoded(s, |s| / 2))
  {
    AllGood(s, 0);
    DecodeBackReverses(s);
  }

  /** Succeeds exactly on non-empty even-length hexadecimal text that fits. In any case the buffer has
      the bytes of the pairs before the first bad one, and is otherwise as it was. */
  method Unhexify(inBuf: array?<Byte>, inLen: nat, outBuf: array?<Byte>, outLen: nat) returns (ok: bool)
    requires inBuf != null ==> inLen <= inBuf.Length
    requires outBuf != null ==> outLen <= outBuf.Length && inBuf != outBuf
    modifies outBuf
    ensures ok <==> Decodes(inBuf != null, inLen, outBuf != null, outLen) && AllHex(Text(inBuf, inLen))
    ensures outBuf != null ==>
      var n := if Decodes(inBuf != null, inLen, true, outLen) then GoodPairs(Text(inBuf, inLen), 0) else 0;
      Wrote(Text(outBuf, outBuf.Length), old(Text(outBuf, outBuf.Length)), Decoded(Text(inBuf, inLen), n))
  {
    if inBuf == null || inLen == 0 || outBuf == null || outLen == 0 || inLen % 2 != 0 || inLen / 2 > outLen {
      return false;
    }
    ghost var s := inBuf[..inLen];
    var i := 0;
    while i < inLen / 2
      invariant 0 <= i <= inLen / 2
      invariant forall k :: 0 <= k < i ==> outBuf[k] == PairAt(s, k)
      invariant forall k :: i <= k < outBuf.Length ==> outBuf[k] == old(outBuf[k])
      invariant GoodPairs(s, 0) == GoodPairs(s, i) && forall k :: 0 <= k < 2 * i ==> IsHex(s[k])
    {
      if !IsHex(inBuf[2 * i]) || !IsHex(inBuf[2 * i + 1]) {
        return false;
      }
      outBuf[i] := Join(Num(inBuf[2 * i]), Num(inBuf[2 * i + 1]));
      i := i + 1;
    }
    ok := true;
  }

  /** The same from the back: succeeds on the same arguments. */
  method UnhexifyR(inBuf: array?<Byte>, inLen: nat, outBuf: array?<Byte>, outLen: nat) returns (ok: bool)
    requires inBuf != null ==> inLen <= inBuf.Length
    requires outBuf != null ==> outLen <= outBuf.Length && inBuf != outBuf
    modifies outBuf
    ensures ok <==> Decodes(inBuf != null, inLen, outBuf != null, outLen) && AllHex(Text(inBuf, inLen))
    ensures outBuf != null ==>
      var n := if Decodes(inBuf != null, inLen, true, outLen) then GoodPairsBack(Text(inBuf, inLen), 0) else 0;
      Wrote(Text(outBuf, outBuf.Length), old(Text(outBuf, outBuf.Length)), DecodedBack(Text(inBuf, inLen), n))
  {
    if inBuf == null || inLen == 0 || outBuf == null || outLen == 0 || inLen % 2 != 0 || inLen / 2 > outLen {
      return false;
    }
    ghost var s := inBuf[..inLen];
    var i := 0;
    while i < inLen / 2
      invariant 0 <= i <= inLen / 2
      invariant forall k :: 0 <= k < i ==> outBuf[k] == PairBack(s, k)
      invariant forall k :: i <= k < outBuf.Length ==> outBuf[k] == old(outBuf[k])
      invariant GoodPairsBack(s, 0) == GoodPairsBack(s, i) && forall k :: inLen - 2 * i <= k < inLen ==> IsHex(s[k])
    {
      if !IsHex(inBuf[inLen - 1 - 2 * i]) || !IsHex(inBuf[inLen - 2 - 2 * i]) {
        return false;
      }
      outBuf[i] := Join(Num(inBuf[inLen - 2 - 2 * i]), Num(inBuf[inLen - 1 - 2 * i]));
      i := i + 1;
    }
    ok := true;
  }

  /** Succeeds exactly on non-empty input whose text fits; otherwise nothing is written. */
  method Hexify(inBuf: array?<Byte>, inLen: nat, outBuf: array?<Byte>, outLen: nat) returns (ok: bool)
    requires inBuf != null ==> inLen <= inBuf.Length
    requires outBuf != null ==> outLen <= outBuf.Length && inBuf != outBuf
    modifies outBuf
    ensures ok <==> inBuf != null && outBuf != null && 0 < inLen && 2 * inLen <= outLen
    ensures outBuf != null ==>
      var n := if ok then inLen else 0;
      Wrote(Text(outBuf, outBuf.Length), old(Text(outBuf, outBuf.Length)), Encoded(Text(inBuf, inLen), n))
  {
    if inBuf == null || inLen == 0 || outBuf == null || outLen == 0 || inLen > outLen / 2 {
      return false;
    }
    ghost var b := inBuf[..inLen];
    var i := 0;
    while i < inLen
      invariant 0 <= i <= inLen
      invariant forall k :: 0 <= k < i ==> outBuf[2 * k] == Digit(b[k] / 16) && outBuf[2 * k + 1] == Digit(b[k] % 16)
      invariant forall k :: 2 * i <= k < outBuf.Length ==> outBuf[k] == old(outBuf[k])
    {
      outBuf[2 * i] := Digit(inBuf[i] / 16);
      outBuf[2 * i + 1] := Digit(inBuf[i] % 16);
      i := i + 1;
    }
    EncodedIs(b, inLen, outBuf[..2 * inLen]);
    ok := true;
  }
}
