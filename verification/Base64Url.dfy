/**
 The base64url alphabet and framing of RFC 4648, section 5, as the OAuth helpers use them:
 padded for stored secrets, with the padding stripped for PKCE and relay state.
 */
module Base64Url {
  import opened Options
  import opened Strings

  type Byte = b: int | 0 <= b < 256
  type Bytes = seq<Byte>
  type Sextet = n: int | 0 <= n < 64

  function Letter(n: Sextet): char {
    if n < 26 then (n + 'A' as int) as char
    else if n < 52 then (n - 26 + 'a' as int) as char
    else if n < 62 then (n - 52 + '0' as int) as char
    else if n == 62 then '-'
    else '_'
  }

  predicate IsLetter(c: char) {
    'A' <= c <= 'Z' || 'a' <= c <= 'z' || '0' <= c <= '9' || c == '-' || c == '_'
  }

  function Number(c: char): Sextet
    requires IsLetter(c)
  {
    if 'A' <= c <= 'Z' then c as int - 'A' as int
    else if 'a' <= c <= 'z' then c as int - 'a' as int + 26
    else if '0' <= c <= '9' then c as int - '0' as int + 52
    else if c == '-' then 62
    else 63
  }

  /**
   The letters are those of table 2 of RFC 4648: three runs in order, and the two signs that need no
   escaping in a URL.
   */
  lemma {:induction false} LettersAreTheUrlSafeAlphabet()
    ensures Letter(0) == 'A' && Letter(26) == 'a' && Letter(52) == '0' && Letter(62) == '-' && Letter(63) == '_'
    ensures forall n: Sextet :: 0 < n < 62 && n != 26 && n != 52 ==> Letter(n) as int == Letter(n - 1) as int + 1
  {}

  lemma {:induction false} NumberOfLetter(n: Sextet)
    ensures IsLetter(Letter(n)) && Number(Letter(n)) == n
  {}

  // ---------------------------------------------------------------- encoding

  function EncodeUnpadded(bytes: Bytes): string {
    if bytes == [] then ""
    else if |bytes| == 1 then
      [Letter(bytes[0] / 4), Letter(bytes[0] % 4 * 16)]
    else if |bytes| == 2 then
      [Letter(bytes[0] / 4), Letter(bytes[0] % 4 * 16 + bytes[1] / 16), Letter(bytes[1] % 16 * 4)]
    else
      [Letter(bytes[0] / 4), Letter(bytes[0] % 4 * 16 + bytes[1] / 16),
       Letter(bytes[1] % 16 * 4 + bytes[2] / 64), Letter(bytes[2] % 64)] + EncodeUnpadded(bytes[3..])
  }

  /** What completes a text to a multiple of four characters. */
  function Padding(length: nat): string {
    if length % 4 == 2 then "==" else if length % 4 == 3 then "=" else ""
  }

  function Encode(bytes: Bytes): string {
    EncodeUnpadded(bytes) + Padding(|EncodeUnpadded(bytes)|)
  }

  predicate IsPadding(c: char) {
    c == '='
  }

  // ---------------------------------------------------------------- decoding

  /** The bytes of the leading letters of one group of four characters. */
  function DecodeGroup(a: char, b: char, c: char, d: char): Option<Bytes> {
    if !IsLetter(a) || !IsLetter(b) then None
    else
      var first := Number(a) * 4 + Number(b) / 16;
      if IsPadding(c) && IsPadding(d) then Some([first])
      else if !IsLetter(c) then None
      else
        var second := Number(b) % 16 * 16 + Number(c) / 4;
        if IsPadding(d) then Some([first, second])
        else if !IsLetter(d) then None
        else Some([first, second, Number(c) % 4 * 64 + Number(d)])
  }

  /** Groups of four; only the last one may be padded, and a text of any other length is malformed. */
  function Decode(text: string): Option<Bytes> {
    if text == "" then Some([])
    else if |text| < 4 then None
    else
      var head := DecodeGroup(text[0], text[1], text[2], text[3]);
      if head.None? then None
      else if |text| == 4 then head
      else if |head.value| != 3 then None
      else
        var tail := Decode(text[4..]);
        if tail.None? then None else Some(head.value + tail.value)
  }

  // ---------------------------------------------------------------- laws

  /** Two adjacent bit fields of a byte, and the byte put together again, one lemma for each cut. */
  lemma {:induction false} FirstByte(x: Byte, high: int)
    requires 0 <= high < 16
    ensures x / 4 * 4 + (x % 4 * 16 + high) / 16 == x
  {
    assert (x % 4 * 16 + high) / 16 == x % 4;
  }

  lemma {:induction false} SecondByte(low: int, y: Byte, high: int)
    requires 0 <= high < 4
    ensures (low * 16 + y / 16) % 16 * 16 + (y % 16 * 4 + high) / 4 == y
  {
    assert (low * 16 + y / 16) % 16 == y / 16;
    assert (y % 16 * 4 + high) / 4 == y % 16;
  }

  lemma {:induction false} ThirdByte(low: int, z: Byte)
    ensures (low * 4 + z / 64) % 4 * 64 + z % 64 == z
  {
    var high := z / 64;
    assert 0 <= high < 4 && (low * 4 + high) % 4 == high;
  }

  /** Four letters, three letters or two letters of a group decode to the fields of their numbers. */
  lemma {:induction false} DecodeLetters(a: Sextet, b: Sextet, c: Sextet, d: Sextet)
    ensures DecodeGroup(Letter(a), Letter(b), Letter(c), Letter(d))
         == Some([a * 4 + b / 16, b % 16 * 16 + c / 4, c % 4 * 64 + d])
    ensures DecodeGroup(Letter(a), Letter(b), Letter(c), '=') == Some([a * 4 + b / 16, b % 16 * 16 + c / 4])
    ensures DecodeGroup(Letter(a), Letter(b), '=', '=') == Some([a * 4 + b / 16])
  {
    NumberOfLetter(a);
    NumberOfLetter(b);
    NumberOfLetter(c);
    NumberOfLetter(d);
  }

  /** Three bytes spread over four letters and back. */
  lemma {:induction false} FullGroup(x: Byte, y: Byte, z: Byte)
    ensures DecodeGroup(Letter(x / 4), Letter(x % 4 * 16 + y / 16), Letter(y % 16 * 4 + z / 64), Letter(z % 64))
         == Some([x, y, z])
  {
    DecodeLetters(x / 4, x % 4 * 16 + y / 16, y % 16 * 4 + z / 64, z % 64);
    FirstByte(x, y / 16);
    SecondByte(x % 4, y, z / 64);
    ThirdByte(y % 16, z);
  }

  lemma {:induction false} TwoByteGroup(x: Byte, y: Byte)
    ensures DecodeGroup(Letter(x / 4), Letter(x % 4 * 16 + y / 16), Letter(y % 16 * 4), '=') == Some([x, y])
  {
    DecodeLetters(x / 4, x % 4 * 16 + y / 16, y % 16 * 4, 0);
    FirstByte(x, y / 16);
    SecondByte(x % 4, y, 0);
  }

  lemma {:induction false} OneByteGroup(x: Byte)
    ensures DecodeGroup(Letter(x / 4), Letter(x % 4 * 16), '=', '=') == Some([x])
  {
    DecodeLetters(x / 4, x % 4 * 16, 0, 0);
    FirstByte(x, 0);
  }

  /** n bytes take ceil(4n / 3) letters, all of them of the alphabet, so never a padding sign. */
  lemma {:induction false} UnpaddedShape(bytes: Bytes)
    ensures |EncodeUnpadded(bytes)| == (4 * |bytes| + 2) / 3
    ensures forall i :: 0 <= i < |EncodeUnpadded(bytes)| ==> IsLetter(EncodeUnpadded(bytes)[i])
  {
    if |bytes| >= 3 {
      UnpaddedShape(bytes[3..]);
      NumberOfLetter(bytes[0] / 4);
      NumberOfLetter(bytes[0] % 4 * 16 + bytes[1] / 16);
      NumberOfLetter(bytes[1] % 16 * 4 + bytes[2] / 64);
      NumberOfLetter(bytes[2] % 64);
    } else if bytes != [] {
      NumberOfLetter(bytes[0] / 4);
      NumberOfLetter(bytes[0] % 4 * 16);
      if |bytes| == 2 {
        NumberOfLetter(bytes[0] % 4 * 16 + bytes[1] / 16);
        NumberOfLetter(bytes[1] % 16 * 4);
      }
    }
  }

  /** The text of one or two last bytes decodes to them. */
  lemma {:induction false} DecodeLastGroup(bytes: Bytes)
    requires |bytes| == 1 || |bytes| == 2
    ensures Decode(Encode(bytes)) == Some(bytes)
  {
    var text := Encode(bytes);
    if |bytes| == 1 {
      OneByteGroup(bytes[0]);
      assert text == [Letter(bytes[0] / 4), Letter(bytes[0] % 4 * 16), '=', '='];
      assert bytes == [bytes[0]];
    } else {
      TwoByteGroup(bytes[0], bytes[1]);
      assert text == [Letter(bytes[0] / 4), Letter(bytes[0] % 4 * 16 + bytes[1] / 16), Letter(bytes[1] % 16 * 4), '='];
      assert bytes == [bytes[0], bytes[1]];
    }
  }

  lemma {:induction false} PaddingRepeats(length: nat)
    ensures Padding(length + 4) == Padding(length)
  {}

  /** A longer text is the group of its first three bytes followed by the text of the others. */
  lemma {:induction false} EncodeSplits(x: Byte, y: Byte, z: Byte, rest: Bytes)
    ensures Encode([x, y, z] + rest)
         == [Letter(x / 4), Letter(x % 4 * 16 + y / 16), Letter(y % 16 * 4 + z / 64), Letter(z % 64)] + Encode(rest)
  {
    var bytes := [x, y, z] + rest;
    var group := [Letter(x / 4), Letter(x % 4 * 16 + y / 16), Letter(y % 16 * 4 + z / 64), Letter(z % 64)];
    assert bytes[3..] == rest && bytes[0] == x && bytes[1] == y && bytes[2] == z;
    var letters := EncodeUnpadded(rest);
    assert EncodeUnpadded(bytes) == group + letters;
    PaddingRepeats(|letters|);
    assert (group + letters) + Padding(|letters|) == group + (letters + Padding(|letters|));
  }

  lemma {:induction false} DecodeFirstGroup(a: char, b: char, c: char, d: char, tail: string, first: Bytes, rest: Bytes)
    requires DecodeGroup(a, b, c, d) == Some(first) && |first| == 3
    requires Decode(tail) == Some(rest)
    ensures Decode([a, b, c, d] + tail) == Some(first + rest)
  {
    var text := [a, b, c, d] + tail;
    assert text[4..] == tail;
    if tail == "" {
      assert first + rest == first;
    }
  }

  /** Decoding undoes encoding, for every byte string. */
  lemma {:induction false} DecodeUndoesEncode(bytes: Bytes)
    ensures Decode(Encode(bytes)) == Some(bytes)
  {
    if bytes == [] {
      assert Encode(bytes) == "";
    } else if |bytes| < 3 {
      DecodeLastGroup(bytes);
    } else {
      DecodeUndoesEncode(bytes[3..]);
      DecodeFullGroup(bytes, bytes[0], bytes[1], bytes[2], bytes[3..]);
    }
  }

  lemma {:induction false} DecodeFullGroup(bytes: Bytes, x: Byte, y: Byte, z: Byte, rest: Bytes)
    requires bytes == [x, y, z] + rest && Decode(Encode(rest)) == Some(rest)
    ensures Decode(Encode(bytes)) == Some(bytes)
  {
    EncodeSplits(x, y, z, rest);
    FullGroup(x, y, z);
    DecodeFirstGroup(Letter(x / 4), Letter(x % 4 * 16 + y / 16), Letter(y % 16 * 4 + z / 64), Letter(z % 64),
                     Encode(rest), [x, y, z], rest);
  }

  lemma {:induction false} TrimOnePadding(text: string)
    ensures TrimRight(text + "=", IsPadding) == TrimRight(text, IsPadding)
  {
    assert (text + "=")[..|text|] == text;
  }

  lemma {:induction false} TrimPadding(letters: string, length: nat)
    requires letters == "" || letters[|letters| - 1] != '='
    ensures TrimRight(letters + Padding(length), IsPadding) == letters
  {
    if length % 4 == 3 {
      TrimOnePadding(letters);
    } else if length % 4 == 2 {
      assert letters + "==" == (letters + "=") + "=";
      TrimOnePadding(letters + "=");
      TrimOnePadding(letters);
    } else {
      assert letters + "" == letters;
    }
  }

  /** Stripping the padding gives exactly the letters back, and completing them again decodes to the bytes. */
  lemma {:induction false} StrippedPaddingIsRestorable(bytes: Bytes)
    ensures TrimRight(Encode(bytes), IsPadding) == EncodeUnpadded(bytes)
    ensures Decode(EncodeUnpadded(bytes) + Padding(|EncodeUnpadded(bytes)|)) == Some(bytes)
  {
    var letters := EncodeUnpadded(bytes);
    UnpaddedShape(bytes);
    DecodeUndoesEncode(bytes);
    assert letters != "" ==> IsLetter(letters[|letters| - 1]);
    TrimPadding(letters, |letters|);
  }

  /** Whole groups of three bytes take whole groups of letters, and what follows is encoded as if it stood alone. */
  lemma {:induction false} TailsAreEncodedAlone(bytes: Bytes, k: nat)
    requires 3 * k <= |bytes|
    ensures 4 * k <= |EncodeUnpadded(bytes)| && EncodeUnpadded(bytes)[4 * k..] == EncodeUnpadded(bytes[3 * k..])
  {
    if k == 0 {
      assert bytes[0..] == bytes;
    } else {
      var rest := EncodeUnpadded(bytes[3..]);
      TailsAreEncodedAlone(bytes[3..], k - 1);
      assert bytes[3..][3 * (k - 1)..] == bytes[3 * k..];
      assert EncodeUnpadded(bytes)[4..] == rest;
      assert EncodeUnpadded(bytes)[4 * k..] == rest[4 * (k - 1)..];
    }
  }

  lemma {:induction false} GroupBits(x: Byte, y: Byte, z: Byte)
    ensures var a, b, c, d := Letter(x / 4), Letter(x % 4 * 16 + y / 16), Letter(y % 16 * 4 + z / 64), Letter(z % 64);
            && IsLetter(a) && IsLetter(b) && IsLetter(c) && IsLetter(d)
            && Number(a) as int * 262144 + Number(b) as int * 4096 + Number(c) as int * 64 + Number(d)
               == x as int * 65536 + y as int * 256 + z
  {
    NumberOfLetter(x / 4);
    NumberOfLetter(x % 4 * 16 + y / 16);
    NumberOfLetter(y % 16 * 4 + z / 64);
    NumberOfLetter(z % 64);
  }

  /** Each four letters are the same 24 bits as the three bytes they stand for, most significant first. */
  lemma {:induction false} LettersAreTheBits(bytes: Bytes, k: nat)
    requires 3 * k + 2 < |bytes|
    ensures var t := EncodeUnpadded(bytes); 4 * k + 3 < |t| && forall i :: 0 <= i < |t| ==> IsLetter(t[i])
    ensures var t := EncodeUnpadded(bytes);
            Number(t[4 * k]) as int * 262144 + Number(t[4 * k + 1]) as int * 4096
            + Number(t[4 * k + 2]) as int * 64 + Number(t[4 * k + 3])
            == bytes[3 * k] as int * 65536 + bytes[3 * k + 1] as int * 256 + bytes[3 * k + 2]
  {
    UnpaddedShape(bytes);
    TailsAreEncodedAlone(bytes, k);
    var tail := bytes[3 * k..];
    GroupBits(tail[0], tail[1], tail[2]);
    assert forall i :: 0 <= i < 4 ==> EncodeUnpadded(bytes)[4 * k + i] == EncodeUnpadded(tail)[i];
  }

  lemma {:induction false} ThirdsOf(n: nat)
    ensures var q := n / 3;
            (4 * n + 2) / 3 == 4 * q + (if n % 3 == 0 then 0 else n % 3 + 1)
            && (n + 2) / 3 == q + (if n % 3 == 0 then 0 else 1)
  {
    var q, r := n / 3, n % 3;
    assert n == 3 * q + r && (4 * n + 2) / 3 == 4 * q + (4 * r + 2) / 3 && (n + 2) / 3 == q + (r + 2) / 3;
  }

  lemma {:induction false} PaddedEnd(letters: string)
    requires forall i :: 0 <= i < |letters| ==> IsLetter(letters[i])
    ensures var text := letters + Padding(|letters|);
            forall i :: 0 <= i < |text| ==> (text[i] == '=' <==> |letters| <= i)
  {}

  lemma {:induction false} PaddedLength(n: nat)
    ensures var m := (4 * n + 2) / 3; m + |Padding(m)| == (n + 2) / 3 * 4
  {
    ThirdsOf(n);
  }

  /** A padded text comes in groups of four, with at most two padding signs and those at its very end. */
  lemma {:induction false} PaddingFillsTheLastGroup(bytes: Bytes)
    ensures |Encode(bytes)| == (|bytes| + 2) / 3 * 4
    ensures forall i :: 0 <= i < |Encode(bytes)| ==> (Encode(bytes)[i] == '=' <==> (4 * |bytes| + 2) / 3 <= i)
  {
    UnpaddedShape(bytes);
    PaddedEnd(EncodeUnpadded(bytes));
    PaddedLength(|bytes|);
  }

  /** One or two bytes that stand alone give two or three letters: their bits, filled up with zeros. */
  lemma {:induction false} LastLettersAreTheBits(x: Byte, y: Byte)
    ensures var t := EncodeUnpadded([x]);
            |t| == 2 && IsLetter(t[0]) && IsLetter(t[1]) && Number(t[0]) as int * 64 + Number(t[1]) == x as int * 16
    ensures var t := EncodeUnpadded([x, y]);
            |t| == 3 && IsLetter(t[0]) && IsLetter(t[1]) && IsLetter(t[2])
            && Number(t[0]) as int * 4096 + Number(t[1]) as int * 64 + Number(t[2]) == (x as int * 256 + y) * 4
  {
    NumberOfLetter(x / 4);
    NumberOfLetter(x % 4 * 16);
    NumberOfLetter(x % 4 * 16 + y / 16);
    NumberOfLetter(y % 16 * 4);
  }

  /** Different byte strings have different encodings, padded or not. */
  lemma {:induction false} EncodingIsInjective(a: Bytes, b: Bytes)
    ensures EncodeUnpadded(a) == EncodeUnpadded(b) ==> a == b
    ensures Encode(a) == Encode(b) ==> a == b
  {
    DecodeUndoesEncode(a);
    DecodeUndoesEncode(b);
  }
}
