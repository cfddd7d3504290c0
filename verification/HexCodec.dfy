/**
 Hexadecimal text: bytes_to_hex and hex_to_bytes. The decoder's table maps some characters
 that are no hexadecimal digits to zero, and it takes digits of both cases.
 */
module HexCodec {
  import opened CTypes

  function HexDigit(n: nat): char
    requires n < 16
  {
    if n < 10 then '0' + n as char else 'a' + (n - 10) as char
  }

  /** The %02x conversion of each byte. */
  function Encode(bytes: seq<Byte>): (text: string)
    ensures |text| == 2 * |bytes|
  {
    if bytes == [] then ""
    else
      var b := bytes[|bytes| - 1] as nat;
      Encode(bytes[..|bytes| - 1]) + [HexDigit(b / 16), HexDigit(b % 16)]
  }

  method BytesToHex(input: array<Byte>, out: array<char>, len: nat)
    requires len <= input.Length && 2 * len < out.Length
    modifies out
    ensures out[..2 * len] == Encode(input[..len]) && out[2 * len] == '\0'
    ensures out[2 * len + 1..] == old(out[2 * len + 1..])
  {
    var i := 0;
    while i < len
      invariant 0 <= i <= len && out[..2 * i] == Encode(input[..i])
      invariant out[2 * len + 1..] == old(out[2 * len + 1..])
    {
      var b := input[i] as nat;
      out[2 * i] := HexDigit(b / 16);
      out[2 * i + 1] := HexDigit(b % 16);
      out[2 * i + 2] := '\0';
      assert input[..i + 1][..i] == input[..i];
      assert out[..2 * i + 2] == out[..2 * i] + [HexDigit(b / 16), HexDigit(b % 16)];
      i := i + 1;
    }
    out[2 * len] := '\0';
  }

  predicate InTable(c: char) { 0x30 <= c as int <= 0x66 }

  /** map_table. */
  function Table(c: char): (n: nat)
    requires InTable(c)
    ensures n < 16
  {
    if '0' <= c <= '9' then c as int - '0' as int
    else if 'A' <= c <= 'F' then c as int - 'A' as int + 10
    else if 'a' <= c <= 'f' then c as int - 'a' as int + 10
    else 0
  }

  function PairValue(hi: char, lo: char): Byte
    requires InTable(hi) && InTable(lo)
  {
    (16 * Table(hi) + Table(lo)) as Byte
  }

  predicate PairOk(s: string, k: nat)
    requires 2 * k + 1 < |s|
  {
    InTable(s[2 * k]) && InTable(s[2 * k + 1])
  }

  /** The values of the first `n` pairs, up to the first that has a character outside the table. */
  function Decoded(s: string, n: nat): (bytes: seq<Byte>)
    requires 2 * n <= |s|
    ensures |bytes| <= n && (|bytes| < n ==> !PairOk(s, |bytes|))
    ensures forall k :: 0 <= k < |bytes| ==> PairOk(s, k) && bytes[k] == PairValue(s[2 * k], s[2 * k + 1])
  {
    if n == 0 then []
    else
      var before := Decoded(s, n - 1);
      if |before| == n - 1 && PairOk(s, n - 1) then before + [PairValue(s[2 * n - 2], s[2 * n - 1])] else before
  }

  function Pairs(s: string, maxlen: nat): nat { if |s| / 2 > maxlen then maxlen else |s| / 2 }

  /**
   hex_to_bytes of a string. On an odd length nothing is written, on a character outside the
   table what precedes it is; in both cases the caller's length is left as it was.
   */
  method HexToBytes(input: string, out: array<Byte>, maxlen: nat, oldLen: nat) returns (len: nat)
    requires maxlen <= out.Length
    modifies out
    ensures var n := if |input| % 2 == 1 then 0 else Pairs(input, maxlen);
            var bytes := Decoded(input, n);
            out[..|bytes|] == bytes && out[|bytes|..] == old(out[|bytes|..]) &&
            len == if |input| % 2 == 1 || |bytes| < n then oldLen else n
  {
    hide Decoded, PairValue, Table;
    len := oldLen;
    DecodedNothing(input);
    var inl := |input|;
    if inl % 2 == 1 {
      return;
    }
    if inl / 2 > maxlen {
      inl := maxlen * 2;
    }
    var count := 0;
    ghost var k := 0;
    while count < inl
      invariant 0 <= count == 2 * k <= inl
      invariant Decoded(input, k) == out[..k] && out[k..] == old(out[k..])
    {
      var ch1, ch2 := input[count], input[count + 1];
      if ch1 as int < 0x30 || ch1 as int > 0x66 || ch2 as int < 0x30 || ch2 as int > 0x66 {
        assert !PairOk(input, k);
        StopsAt(input, k, inl / 2);
        return;
      }
      DecodedStep(input, k);
      assert count / 2 == k;
      out[count / 2] := PairValue(ch1, ch2);
      assert out[..k + 1] == out[..k] + [PairValue(ch1, ch2)];
      assert out[k + 1..] == old(out[k..])[1..] == old(out[k + 1..]);
      count := count + 2;
      k := k + 1;
    }
    len := inl / 2;
  }

  lemma DecodedNothing(s: string)
    ensures Decoded(s, 0) == []
  {
  }

  lemma DecodedStep(s: string, k: nat)
    requires 2 * k + 1 < |s| && |Decoded(s, k)| == k && PairOk(s, k)
    ensures Decoded(s, k + 1) == Decoded(s, k) + [PairValue(s[2 * k], s[2 * k + 1])]
  {
  }

  lemma {:induction false} StopsAt(s: string, k: nat, n: nat)
    requires k < n && 2 * n <= |s| && |Decoded(s, k)| == k && !PairOk(s, k)
    ensures Decoded(s, n) == Decoded(s, k)
  {
    if k + 1 < n {
      StopsAt(s, k, n - 1);
    }
  }

  lemma {:induction false} EncodeAt(bytes: seq<Byte>, k: nat)
    requires k < |bytes|
    ensures Encode(bytes)[2 * k] == HexDigit(bytes[k] as nat / 16) && Encode(bytes)[2 * k + 1] == HexDigit(bytes[k] as nat % 16)
  {
    if k < |bytes| - 1 {
      EncodeAt(bytes[..|bytes| - 1], k);
    }
  }

  /** The text is made of the lower-case digits of each byte, the high one first. */
  lemma EncodedDigits(bytes: seq<Byte>, k: nat)
    requires k < |bytes|
    ensures Encode(bytes)[2 * k] == "0123456789abcdef"[bytes[k] as nat / 16]
    ensures Encode(bytes)[2 * k + 1] == "0123456789abcdef"[bytes[k] as nat % 16]
  {
    hide Encode;
    EncodeAt(bytes, k);
  }

  /** `c` is the hexadecimal digit `n`, in either case. */
  predicate IsDigitOf(c: char, n: nat) {
    n < 16 && (c == "0123456789abcdef"[n] || c == "0123456789ABCDEF"[n])
  }

  lemma DigitIsRead(c: char, n: nat)
    requires IsDigitOf(c, n)
    ensures InTable(c) && Table(c) == n
  {
    var digits := "0123456789";
    if n < 10 {
      assert "0123456789abcdef"[n] == "0123456789ABCDEF"[n] == digits[n];
    }
  }

  /** A text of digits of either case, two for each byte, is decoded to these bytes, cut to the buffer. */
  lemma {:induction false} DecodeDigits(text: string, bytes: seq<Byte>, n: nat)
    requires |text| == 2 * |bytes| && n <= |bytes|
    requires forall k :: 0 <= k < |bytes| ==>
               IsDigitOf(text[2 * k], bytes[k] as nat / 16) && IsDigitOf(text[2 * k + 1], bytes[k] as nat % 16)
    ensures Decoded(text, n) == bytes[..n]
  {
    hide Decoded, Table, IsDigitOf;
    forall k | 0 <= k < n
      ensures PairOk(text, k) && PairValue(text[2 * k], text[2 * k + 1]) == bytes[k]
    {
      DigitIsRead(text[2 * k], bytes[k] as nat / 16);
      DigitIsRead(text[2 * k + 1], bytes[k] as nat % 16);
    }
    assert |Decoded(text, n)| == n;
  }

  /** One character of an encoded text, with its letters in either case. */
  predicate SameDigit(c: char, e: char) { c == e || ('a' <= e <= 'f' && c == e - 'a' + 'A') }

  /** Decoding ignores the case in which an encoded text is written. */
  lemma DecodeAnyCase(text: string, bytes: seq<Byte>, n: nat)
    requires |text| == 2 * |bytes| && n <= |bytes|
    requires forall i :: 0 <= i < |text| ==> SameDigit(text[i], Encode(bytes)[i])
    ensures Decoded(text, n) == bytes[..n]
  {
    hide Decoded, Encode, SameDigit;
    forall k | 0 <= k < |bytes|
      ensures IsDigitOf(text[2 * k], bytes[k] as nat / 16) && IsDigitOf(text[2 * k + 1], bytes[k] as nat % 16)
    {
      EncodedDigits(bytes, k);
      SameDigitIs(text[2 * k], bytes[k] as nat / 16);
      SameDigitIs(text[2 * k + 1], bytes[k] as nat % 16);
    }
    DecodeDigits(text, bytes, n);
  }

  lemma SameDigitIs(c: char, n: nat)
    requires n < 16 && SameDigit(c, "0123456789abcdef"[n])
    ensures IsDigitOf(c, n)
  {
  }

  ghost predicate IsNoDigit(c: char) { forall n :: 0 <= n < 16 ==> !IsDigitOf(c, n) }

  /** A character from '0' to 'f' that is no digit counts as the digit 0. */
  ghost predicate CountsAs(c: char, n: nat) {
    '0' <= c <= 'f' && (IsDigitOf(c, n) || (IsNoDigit(c) && n == 0))
  }

  /** Every pair of characters from '0' to 'f' is decoded to the byte of its digits, and no other pair is decoded. */
  lemma PairIsDecoded(hi: char, lo: char, h: nat, l: nat)
    ensures CountsAs(hi, h) && CountsAs(lo, l) ==> h < 16 && l < 16 && Decoded([hi, lo], 1) == [(16 * h + l) as Byte]
    ensures !('0' <= hi <= 'f' && '0' <= lo <= 'f') ==> Decoded([hi, lo], 1) == []
  {
    hide Decoded, Table, IsDigitOf, IsNoDigit;
    assert InTable(hi) <==> '0' <= hi <= 'f';
    assert InTable(lo) <==> '0' <= lo <= 'f';
    var bytes := Decoded([hi, lo], 1);
    assert |bytes| == 1 ==> PairOk([hi, lo], 0);
    assert |bytes| < 1 ==> bytes == [] && !PairOk([hi, lo], |bytes|);
    if CountsAs(hi, h) && CountsAs(lo, l) {
      CountIsRead(hi, h);
      CountIsRead(lo, l);
    }
  }

  lemma CountIsRead(c: char, n: nat)
    requires CountsAs(c, n)
    ensures n < 16 && InTable(c) && Table(c) == n
  {
    if IsDigitOf(c, n) {
      DigitIsRead(c, n);
    } else {
      NoDigit(c);
    }
  }

  lemma NoDigit(c: char)
    requires IsNoDigit(c)
    ensures InTable(c) <==> '0' <= c <= 'f'
    ensures InTable(c) ==> Table(c) == 0
  {
    if InTable(c) && Table(c) != 0 {
      assert IsDigitOf(c, Table(c));
    }
  }

  lemma DigitOfTable(c: char)
    ensures IsLowerHex(c) <==> InTable(c) && HexDigit(Table(c)) == c
  {
  }

  lemma TableOfDigit(n: nat)
    requires n < 16
    ensures InTable(HexDigit(n)) && Table(HexDigit(n)) == n && IsLowerHex(HexDigit(n))
  {
  }

  /** Decoding what was encoded gives the bytes back, cut to the buffer. */
  lemma {:induction false} DecodeEncode(bytes: seq<Byte>, maxlen: nat)
    ensures var n := Pairs(Encode(bytes), maxlen);
            |Encode(bytes)| % 2 == 0 && n == (if |bytes| > maxlen then maxlen else |bytes|) &&
            Decoded(Encode(bytes), n) == bytes[..n]
  {
    hide Decoded, Encode, HexDigit, Table;
    var text, n := Encode(bytes), Pairs(Encode(bytes), maxlen);
    forall k | 0 <= k < n
      ensures PairOk(text, k) && PairValue(text[2 * k], text[2 * k + 1]) == bytes[k]
    {
      EncodeAt(bytes, k);
      TableOfDigit(bytes[k] as nat / 16);
      TableOfDigit(bytes[k] as nat % 16);
    }
    assert |Decoded(text, n)| == n;
  }

  predicate IsLowerHex(c: char) { '0' <= c <= '9' || 'a' <= c <= 'f' }

  /** A decoded pair is written back as it was exactly when both characters are lower-case digits. */
  lemma PairBack(s: string, n: nat, k: nat)
    requires 2 * n <= |s| && k < |Decoded(s, n)|
    ensures var text := Encode(Decoded(s, n));
            text[2 * k] == s[2 * k] && text[2 * k + 1] == s[2 * k + 1] <==> IsLowerHex(s[2 * k]) && IsLowerHex(s[2 * k + 1])
  {
    hide Encode, Decoded, HexDigit, Table, IsLowerHex;
    EncodeAt(Decoded(s, n), k);
    DigitOfTable(s[2 * k]);
    DigitOfTable(s[2 * k + 1]);
  }

  ghost predicate AllLowerHex(s: string) { forall i :: 0 <= i < |s| ==> IsLowerHex(s[i]) }

  lemma LowerHexDecodes(s: string)
    requires |s| % 2 == 0 && AllLowerHex(s)
    ensures |Decoded(s, |s| / 2)| == |s| / 2
  {
    hide Decoded, Table, IsLowerHex;
    var d := Decoded(s, |s| / 2);
    if |d| < |s| / 2 {
      DigitOfTable(s[2 * |d|]);
      DigitOfTable(s[2 * |d| + 1]);
    }
  }

  lemma LowerHexIsWritten(s: string)
    requires |s| % 2 == 0 && AllLowerHex(s)
    ensures Encode(Decoded(s, |s| / 2)) == s
  {
    hide Encode, Decoded, HexDigit, Table, IsLowerHex, InTable, PairOk, PairValue, AllLowerHex;
    LowerHexDecodes(s);
    forall i | 0 <= i < |s|
      ensures Encode(Decoded(s, |s| / 2))[i] == s[i]
    {
      PairBack(s, |s| / 2, i / 2);
      LowerHexAt(s, 2 * (i / 2));
      LowerHexAt(s, 2 * (i / 2) + 1);
    }
  }

  /** Encoding what was decoded gives the text back exactly when it is made of lower-case digits. */
  lemma EncodeDecode(s: string)
    requires |s| % 2 == 0
    ensures Encode(Decoded(s, |s| / 2)) == s <==> AllLowerHex(s)
  {
    hide Encode, Decoded, HexDigit, Table, IsLowerHex, InTable, PairOk, PairValue, AllLowerHex;
    if AllLowerHex(s) {
      LowerHexIsWritten(s);
    } else if Encode(Decoded(s, |s| / 2)) == s {
      var i := NotLowerHex(s);
      PairBack(s, |s| / 2, i / 2);
    }
  }

  lemma LowerHexAt(s: string, i: nat)
    requires i < |s| && AllLowerHex(s)
    ensures IsLowerHex(s[i])
  {
  }

  lemma NotLowerHex(s: string) returns (i: nat)
    requires !AllLowerHex(s)
    ensures i < |s| && !IsLowerHex(s[i])
  {
    i :| 0 <= i < |s| && !IsLowerHex(s[i]);
  }
}
