/** java.net.URLEncoder.encode(s, UTF_8), and a strict decoder that
    inverts it, over Unicode scalar values. */
module UrlEncoding {
  import opened Wrappers

  /** The characters URLEncoder leaves as they are. */
  predicate Unreserved(c: char) {
    || 'a' <= c <= 'z' || 'A' <= c <= 'Z' || '0' <= c <= '9'
    || c == '.' || c == '-' || c == '*' || c == '_'
  }

  /** An upper-case hexadecimal digit. */
  function HexDigit(n: int): (c: char)
    requires 0 <= n < 16
    ensures '0' <= c <= '9' || 'A' <= c <= 'F'
  {
    if n < 10 then (48 + n) as char else (55 + n) as char
  }

  /** The value of a hexadecimal digit of either case. */
  function HexValue(c: char): (r: Option<int>)
    ensures r.Some? ==> 0 <= r.value < 16
    ensures r.Some? <==> '0' <= c <= '9' || 'A' <= c <= 'F' || 'a' <= c <= 'f'
  {
    if '0' <= c <= '9' then Some(c as int - 48)
    else if 'A' <= c <= 'F' then Some(c as int - 55)
    else if 'a' <= c <= 'f' then Some(c as int - 87)
    else None
  }

  lemma HexValueOfDigit(n: int)
    requires 0 <= n < 16
    ensures HexValue(HexDigit(n)) == Some(n)
  {
  }

  /** A code point in UTF-8, as byte values. */
  function Utf8(c: char): (bytes: seq<int>)
    ensures 1 <= |bytes| <= 4
    ensures forall i :: 0 <= i < |bytes| ==> 0 <= bytes[i] < 256
  {
    var v := c as int;
    if v < 0x80 then [v]
    else if v < 0x800 then [0xC0 + v / 64, 0x80 + v % 64]
    else if v < 0x10000 then [0xE0 + v / 64 / 64, 0x80 + v / 64 % 64, 0x80 + v % 64]
    else [0xF0 + v / 64 / 64 / 64, 0x80 + v / 64 / 64 % 64, 0x80 + v / 64 % 64, 0x80 + v % 64]
  }

  /** "%XY" for one byte. */
  function Percent(b: int): (t: string)
    requires 0 <= b < 256
    ensures |t| == 3 && t[0] == '%'
  {
    ['%', HexDigit(b / 16), HexDigit(b % 16)]
  }

  function Percents(bytes: seq<int>): (t: string)
    requires forall i :: 0 <= i < |bytes| ==> 0 <= bytes[i] < 256
    ensures |t| == 3 * |bytes|
  {
    if bytes == [] then [] else Percent(bytes[0]) + Percents(bytes[1..])
  }

  /** One character as URLEncoder writes it. */
  function EncodeChar(c: char): (t: string)
    ensures 1 <= |t|
  {
    if Unreserved(c) then [c]
    else if c == ' ' then ['+']
    else Percents(Utf8(c))
  }

  /** URLEncoder.encode(s, StandardCharsets.UTF_8). */
  function Encode(s: string): (t: string)
    ensures |s| <= |t|
  {
    if s == [] then [] else EncodeChar(s[0]) + Encode(s[1..])
  }

  // ---------------------------------------------------------------- decoding

  /** The byte written as "%XY" at position i, if there is one. */
  function ByteAt(s: string, i: nat): (r: Option<int>)
    ensures r.Some? ==> i + 3 <= |s| && 0 <= r.value < 256
  {
    if i + 3 <= |s| && s[i] == '%' && HexValue(s[i + 1]).Some? && HexValue(s[i + 2]).Some? then
      Some(16 * HexValue(s[i + 1]).value + HexValue(s[i + 2]).value)
    else None
  }

  /** The length of the UTF-8 sequence a lead byte opens, or 0 when it
      cannot open one. */
  function SequenceLength(b: int): (n: nat)
    ensures n <= 4
  {
    if 0 <= b < 0x80 then 1
    else if 0xC0 <= b < 0xE0 then 2
    else if 0xE0 <= b < 0xF0 then 3
    else if 0xF0 <= b < 0xF8 then 4
    else 0
  }

  predicate IsScalar(v: int) {
    0 <= v < 0xD800 || 0xE000 <= v < 0x110000
  }

  /** The bytes of the first n "%XY" groups of s. */
  function ReadBytes(s: string, n: nat): (r: Option<seq<int>>)
    ensures r.Some? ==> |r.value| == n && 3 * n <= |s|
    ensures r.Some? ==> forall i :: 0 <= i < n ==> 0 <= r.value[i] < 256
  {
    if n == 0 then Some([])
    else
      match ReadBytes(s, n - 1)
      case None => None
      case Some(front) =>
        match ByteAt(s, 3 * (n - 1))
        case None => None
        case Some(b) => Some(front + [b])
  }

  /** The code point a UTF-8 sequence of one to four bytes spells. */
  function CodePoint(b: seq<int>): int
    requires 1 <= |b| <= 4
  {
    if |b| == 1 then b[0]
    else if |b| == 2 then (b[0] - 0xC0) * 64 + (b[1] - 0x80)
    else if |b| == 3 then ((b[0] - 0xE0) * 64 + (b[1] - 0x80)) * 64 + (b[2] - 0x80)
    else (((b[0] - 0xF0) * 64 + (b[1] - 0x80)) * 64 + (b[2] - 0x80)) * 64 + (b[3] - 0x80)
  }

  /** The code point of a percent-encoded UTF-8 sequence at the start of s,
      with the number of characters it spans. */
  function DecodePercent(s: string): (r: Option<(char, nat)>)
    ensures r.Some? ==> 3 <= r.value.1 <= |s|
  {
    var b0 := ByteAt(s, 0);
    if b0.None? || SequenceLength(b0.value) == 0 then None
    else
      var n := SequenceLength(b0.value);
      match ReadBytes(s, n)
      case None => None
      case Some(bytes) =>
        if exists i :: 1 <= i < n && !(0x80 <= bytes[i] < 0xC0) then None
        else if IsScalar(CodePoint(bytes)) then Some((CodePoint(bytes) as char, 3 * n))
        else None
  }

  /** The first character of an encoded text, with the number of characters
      it spans: '+' is a space, "%XY..." a UTF-8 sequence, anything else
      itself. */
  function DecodeUnit(s: string): (r: Option<(char, nat)>)
    requires |s| > 0
    ensures r.Some? ==> 1 <= r.value.1 <= |s|
  {
    if s[0] == '+' then Some((' ', 1))
    else if s[0] == '%' then DecodePercent(s)
    else Some((s[0], 1))
  }

  /** URLDecoder.decode, strict: None where the text is not well formed. */
  function Decode(s: string): (r: Option<string>)
    decreases |s|
  {
    if s == [] then Some([])
    else
      match DecodeUnit(s)
      case None => None
      case Some((c, k)) =>
        match Decode(s[k..])
        case None => None
        case Some(rest) => Some([c] + rest)
  }

  // ------------------------------------------------------------ the round trip

  /** The UTF-8 bytes of a character open with the right lead byte, go on
      with continuation bytes, and spell the character. */
  lemma Utf8Spells(c: char)
    ensures var b := Utf8(c);
            && SequenceLength(b[0]) == |b|
            && (forall i :: 1 <= i < |b| ==> 0x80 <= b[i] < 0xC0)
            && CodePoint(b) == c as int
  {
    var v := c as int;
    var q1, q2, q3 := v / 64, v / 64 / 64, v / 64 / 64 / 64;
    Digits64(v);
    Digits64(q1);
    Digits64(q2);
    if v < 0x80 {
    } else if v < 0x800 {
      assert 2 <= q1 < 32;
    } else if v < 0x10000 {
      assert q2 < 16;
    } else {
      assert q3 < 5;
    }
  }

  /** x written as its last base-64 digit and the rest. */
  lemma Digits64(x: int)
    requires 0 <= x
    ensures x == 64 * (x / 64) + x % 64 && 0 <= x % 64 < 64 && 0 <= x / 64 <= x
  {
  }

  /** The UTF-8 bytes of a character, written as "%XY" groups, decode back
      to the character. */
  lemma DecodePercentOfUtf8(c: char, rest: string)
    requires !Unreserved(c) && c != ' '
    ensures DecodePercent(Percents(Utf8(c)) + rest) == Some((c, |Percents(Utf8(c))|))
  {
    var bytes := Utf8(c);
    var t := Percents(bytes) + rest;
    PercentsAt(bytes, 0, rest);
    ReadBytesOfPercents(bytes, |bytes|, rest);
    assert bytes[..|bytes|] == bytes;
    Utf8Spells(c);
    assert ByteAt(t, 0) == Some(bytes[0]);
    assert ReadBytes(t, SequenceLength(bytes[0])) == Some(bytes);
    assert !exists i :: 1 <= i < |bytes| && !(0x80 <= bytes[i] < 0xC0);
  }

  /** Reading back the first n groups of an encoding gives its first n bytes. */
  lemma {:induction false} ReadBytesOfPercents(bytes: seq<int>, n: nat, rest: string)
    requires forall j :: 0 <= j < |bytes| ==> 0 <= bytes[j] < 256
    requires n <= |bytes|
    ensures ReadBytes(Percents(bytes) + rest, n) == Some(bytes[..n])
  {
    if n > 0 {
      ReadBytesOfPercents(bytes, n - 1, rest);
      PercentsAt(bytes, n - 1, rest);
      assert bytes[..n] == bytes[..n - 1] + [bytes[n - 1]];
    }
  }

  /** The i-th "%XY" group of an encoding reads back as the i-th byte. */
  lemma {:induction false} PercentsAt(bytes: seq<int>, i: nat, rest: string)
    requires forall j :: 0 <= j < |bytes| ==> 0 <= bytes[j] < 256
    requires i < |bytes|
    ensures ByteAt(Percents(bytes) + rest, 3 * i) == Some(bytes[i])
  {
    var t := Percents(bytes) + rest;
    if i == 0 {
      var b := bytes[0];
      HexValueOfDigit(b / 16);
      HexValueOfDigit(b % 16);
      assert t[..3] == Percent(b);
    } else {
      PercentsAt(bytes[1..], i - 1, rest);
      assert t == Percent(bytes[0]) + (Percents(bytes[1..]) + rest);
      assert |Percent(bytes[0])| == 3;
      assert (Percents(bytes[1..]) + rest) == t[3..];
      ByteAtShift(Percents(bytes[1..]) + rest, t, 3 * (i - 1), 3);
    }
  }

  /** ByteAt depends only on the three characters it reads. */
  lemma ByteAtShift(u: string, t: string, j: nat, k: nat)
    requires k <= |t| && u == t[k..]
    ensures ByteAt(u, j) == ByteAt(t, j + k)
  {
  }

  /** Decoding the encoding of a character followed by more text gives the
      character, then whatever the rest decodes to. */
  lemma DecodeUnitOfEncodeChar(c: char, rest: string)
    ensures DecodeUnit(EncodeChar(c) + rest) == Some((c, |EncodeChar(c)|))
  {
    if !Unreserved(c) && c != ' ' {
      DecodePercentOfUtf8(c, rest);
    }
  }

  /** The decoder inverts URLEncoder on every string. */
  lemma {:induction false} DecodeEncode(s: string)
    ensures Decode(Encode(s)) == Some(s)
  {
    if s != [] {
      var t := Encode(s);
      var k := |EncodeChar(s[0])|;
      DecodeUnitOfEncodeChar(s[0], Encode(s[1..]));
      assert t[k..] == Encode(s[1..]);
      DecodeEncode(s[1..]);
      DecodeCons(t, s[0], k, s[1..]);
      assert s == [s[0]] + s[1..];
    }
  }

  /** One decoding step: the first unit, then the rest. */
  lemma DecodeCons(t: string, c: char, k: nat, rest: string)
    requires t != [] && DecodeUnit(t) == Some((c, k)) && k <= |t| && Decode(t[k..]) == Some(rest)
    ensures Decode(t) == Some([c] + rest)
  {
  }

  /** No encoded text holds a '/': URLEncoder writes it as "%2F". */
  lemma {:induction false} EncodeHasNoSlash(s: string)
    ensures '/' !in Encode(s)
  {
    if s != [] {
      EncodeCharHasNoSlash(s[0]);
      EncodeHasNoSlash(s[1..]);
    }
  }

  lemma EncodeCharHasNoSlash(c: char)
    ensures '/' !in EncodeChar(c)
  {
    if !Unreserved(c) && c != ' ' {
      PercentsHaveNoSlash(Utf8(c));
    }
  }

  lemma {:induction false} PercentsHaveNoSlash(bytes: seq<int>)
    requires forall i :: 0 <= i < |bytes| ==> 0 <= bytes[i] < 256
    ensures '/' !in Percents(bytes)
  {
    if bytes != [] {
      PercentsHaveNoSlash(bytes[1..]);
    }
  }
}
