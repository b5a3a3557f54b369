/**
 * Base 64 as defined in section 4 of RFC 4648 (alphabet "A-Za-z0-9+/", "="
 * padding), and Ruby's `Base64.encode64`, which is the same text broken into
 * lines of 60 characters, each line ended by a newline.
 */
module Base64 {
  import opened Wrappers

  type Byte = x: int | 0 <= x < 256

  /** The character for a 6-bit value. */
  function Sextet(i: nat): (c: char)
    requires i < 64
    ensures IsAlphabetChar(c)
  {
    if i < 26 then ('A' as int + i) as char
    else if i < 52 then ('a' as int + (i - 26)) as char
    else if i < 62 then ('0' as int + (i - 52)) as char
    else if i == 62 then '+'
    else '/'
  }

  predicate IsAlphabetChar(c: char)
  {
    'A' <= c <= 'Z' || 'a' <= c <= 'z' || '0' <= c <= '9' || c == '+' || c == '/'
  }

  /** The 6-bit value of an alphabet character. */
  function SextetValue(c: char): (i: nat)
    requires IsAlphabetChar(c)
    ensures i < 64
  {
    if 'A' <= c <= 'Z' then c as int - 'A' as int
    else if 'a' <= c <= 'z' then c as int - 'a' as int + 26
    else if '0' <= c <= '9' then c as int - '0' as int + 52
    else if c == '+' then 62
    else 63
  }

  lemma SextetRoundTrip(i: nat)
    requires i < 64
    ensures SextetValue(Sextet(i)) == i
  {
  }

  predicate IsEncodedChar(c: char)
  {
    IsAlphabetChar(c) || c == '='
  }

  /** Four characters for three bytes. */
  function EncodeGroup(a: Byte, b: Byte, c: Byte): string
  {
    [Sextet(a / 4), Sextet((a % 4) * 16 + b / 16), Sextet((b % 16) * 4 + c / 64), Sextet(c % 64)]
  }

  /** Plain base 64 with padding and without line breaks. */
  function Encode(bytes: seq<Byte>): string
  {
    if |bytes| == 0 then ""
    else if |bytes| == 1 then
      [Sextet(bytes[0] / 4), Sextet((bytes[0] % 4) * 16), '=', '=']
    else if |bytes| == 2 then
      [Sextet(bytes[0] / 4), Sextet((bytes[0] % 4) * 16 + bytes[1] / 16), Sextet((bytes[1] % 16) * 4), '=']
    else
      EncodeGroup(bytes[0], bytes[1], bytes[2]) + Encode(bytes[3..])
  }

  /** The bytes of "<svg />". */
  lemma EncodeExample()
    ensures Encode([60, 115, 118, 103, 32, 47, 62]) == "PHN2ZyAvPg=="
  {
    var b: seq<Byte> := [60, 115, 118, 103, 32, 47, 62];
    EncodeUnfold(b);
    assert b[3..] == [103, 32, 47, 62];
    EncodeUnfold(b[3..]);
    assert b[3..][3..] == [62];
    ExampleGroups();
  }

  lemma ExampleGroups()
    ensures EncodeGroup(60, 115, 118) == "PHN2"
    ensures EncodeGroup(103, 32, 47) == "ZyAv"
    ensures Encode([62]) == "Pg=="
    ensures "PHN2" + ("ZyAv" + "Pg==") == "PHN2ZyAvPg=="
  {
  }

  /** Every character of the encoding is from the alphabet or padding. */
  lemma {:induction false} EncodeChars(bytes: seq<Byte>)
    ensures forall i :: 0 <= i < |Encode(bytes)| ==> IsEncodedChar(Encode(bytes)[i])
    decreases |bytes|
  {
    if |bytes| >= 3 {
      EncodeChars(bytes[3..]);
      var g := EncodeGroup(bytes[0], bytes[1], bytes[2]);
      var r := Encode(bytes);
      assert r == g + Encode(bytes[3..]);
      forall i | 0 <= i < |r| ensures IsEncodedChar(r[i]) {
        if i >= 4 { assert r[i] == Encode(bytes[3..])[i - 4]; }
      }
    }
  }

  /** Three bytes for four alphabet characters. */
  function DecodeGroup(c0: char, c1: char, c2: char, c3: char): seq<Byte>
    requires IsAlphabetChar(c0) && IsAlphabetChar(c1) && IsAlphabetChar(c2) && IsAlphabetChar(c3)
  {
    var i0, i1, i2, i3 := SextetValue(c0), SextetValue(c1), SextetValue(c2), SextetValue(c3);
    [i0 * 4 + i1 / 16, (i1 % 16) * 16 + i2 / 4, (i2 % 4) * 64 + i3]
  }

  /** Reads plain base 64 back into bytes; `None` for text that is not base 64. */
  function Decode(s: string): Option<seq<Byte>>
    decreases |s|
  {
    if |s| == 0 then Some([])
    else if |s| < 4 then None
    else if |s| == 4 && IsAlphabetChar(s[0]) && IsAlphabetChar(s[1]) && s[2] == '=' && s[3] == '=' then
      var i0, i1 := SextetValue(s[0]), SextetValue(s[1]);
      if i1 % 16 == 0 then Some([i0 * 4 + i1 / 16]) else None
    else if |s| == 4 && IsAlphabetChar(s[0]) && IsAlphabetChar(s[1]) && IsAlphabetChar(s[2]) && s[3] == '=' then
      var i0, i1, i2 := SextetValue(s[0]), SextetValue(s[1]), SextetValue(s[2]);
      if i2 % 4 == 0 then Some([i0 * 4 + i1 / 16, (i1 % 16) * 16 + i2 / 4]) else None
    else if IsAlphabetChar(s[0]) && IsAlphabetChar(s[1]) && IsAlphabetChar(s[2]) && IsAlphabetChar(s[3]) then
      var rest :- Decode(s[4..]);
      Some(DecodeGroup(s[0], s[1], s[2], s[3]) + rest)
    else None
  }

  lemma GroupRoundTrip(a: Byte, b: Byte, c: Byte)
    ensures var i0, i1, i2, i3 := a / 4, (a % 4) * 16 + b / 16, (b % 16) * 4 + c / 64, c % 64;
            i0 * 4 + i1 / 16 == a && (i1 % 16) * 16 + i2 / 4 == b && (i2 % 4) * 64 + i3 == c
  {
    var i1 := (a % 4) * 16 + b / 16;
    assert i1 / 16 == a % 4 && i1 % 16 == b / 16;
    var i2 := (b % 16) * 4 + c / 64;
    assert i2 / 4 == b % 16 && i2 % 4 == c / 64;
  }

  lemma DecodeEncodeOne(a: Byte)
    ensures Decode(Encode([a])) == Some([a])
  {
    SextetRoundTrip(a / 4);
    SextetRoundTrip((a % 4) * 16);
  }

  lemma DecodeEncodeTwo(a: Byte, b: Byte)
    ensures Decode(Encode([a, b])) == Some([a, b])
  {
    var s := Encode([a, b]);
    SextetRoundTrip(a / 4);
    SextetRoundTrip((a % 4) * 16 + b / 16);
    SextetRoundTrip((b % 16) * 4);
    GroupRoundTrip(a, b, 0);
    assert s == [Sextet(a / 4), Sextet((a % 4) * 16 + b / 16), Sextet((b % 16) * 4), '='];
    assert ((b % 16) * 4) % 4 == 0;
    assert s[2] != '=';
  }

  lemma DecodeGroupEncodeGroup(a: Byte, b: Byte, c: Byte)
    ensures var g := EncodeGroup(a, b, c); DecodeGroup(g[0], g[1], g[2], g[3]) == [a, b, c]
  {
    SextetRoundTrip(a / 4);
    SextetRoundTrip((a % 4) * 16 + b / 16);
    SextetRoundTrip((b % 16) * 4 + c / 64);
    SextetRoundTrip(c % 64);
    GroupRoundTrip(a, b, c);
  }

  lemma DecodeFullGroup(s: string)
    requires |s| >= 4
    requires IsAlphabetChar(s[0]) && IsAlphabetChar(s[1]) && IsAlphabetChar(s[2]) && IsAlphabetChar(s[3])
    ensures Decode(s) == if Decode(s[4..]).Some? then Some(DecodeGroup(s[0], s[1], s[2], s[3]) + Decode(s[4..]).value) else None
  {
  }

  lemma DecodeAfterGroup(a: Byte, b: Byte, c: Byte, rest: string)
    requires Decode(rest).Some?
    ensures Decode(EncodeGroup(a, b, c) + rest) == Some([a, b, c] + Decode(rest).value)
  {
    var g := EncodeGroup(a, b, c);
    var s := g + rest;
    assert s[4..] == rest;
    assert s[0] == g[0] && s[1] == g[1] && s[2] == g[2] && s[3] == g[3];
    DecodeFullGroup(s);
    DecodeGroupEncodeGroup(a, b, c);
  }

  lemma DecodeEncodeStep(bytes: seq<Byte>)
    requires |bytes| >= 3
    requires Decode(Encode(bytes[3..])) == Some(bytes[3..])
    ensures Decode(Encode(bytes)) == Some(bytes)
  {
    assert Encode(bytes) == EncodeGroup(bytes[0], bytes[1], bytes[2]) + Encode(bytes[3..]);
    DecodeAfterGroup(bytes[0], bytes[1], bytes[2], Encode(bytes[3..]));
    FirstThree(bytes);
  }

  lemma FirstThree(bytes: seq<Byte>)
    requires |bytes| >= 3
    ensures bytes == [bytes[0], bytes[1], bytes[2]] + bytes[3..]
  {
  }

  /** Decoding the encoding of any byte string gives the bytes back. */
  lemma {:induction false} DecodeEncode(bytes: seq<Byte>)
    ensures Decode(Encode(bytes)) == Some(bytes)
    decreases |bytes|
  {
    if |bytes| == 1 {
      DecodeEncodeOne(bytes[0]);
      assert bytes == [bytes[0]];
    } else if |bytes| == 2 {
      DecodeEncodeTwo(bytes[0], bytes[1]);
      assert bytes == [bytes[0], bytes[1]];
    } else if |bytes| >= 3 {
      DecodeEncode(bytes[3..]);
      DecodeEncodeStep(bytes);
    }
  }

  /** The first group of a text of at least three bytes, followed by more bytes. */
  lemma EncodeFirstGroup(x: seq<Byte>, y: seq<Byte>)
    requires |x| >= 3
    ensures Encode(x + y) == EncodeGroup(x[0], x[1], x[2]) + Encode(x[3..] + y)
  {
    var xy := x + y;
    assert xy[3..] == x[3..] + y;
    assert xy[0] == x[0] && xy[1] == x[1] && xy[2] == x[2];
  }

  /** Encoding is compatible with splitting the input at a multiple of three bytes. */
  lemma {:induction false} EncodeAppend(x: seq<Byte>, y: seq<Byte>)
    requires |x| % 3 == 0
    ensures Encode(x + y) == Encode(x) + Encode(y)
    decreases |x|
  {
    if |x| == 0 {
      assert x + y == y;
    } else {
      assert |x[3..]| % 3 == 0 by { assert |x[3..]| == |x| - 3; }
      EncodeAppend(x[3..], y);
      EncodeAppendStep(x, y);
    }
  }

  lemma EncodeAppendStep(x: seq<Byte>, y: seq<Byte>)
    requires |x| >= 3
    requires Encode(x[3..] + y) == Encode(x[3..]) + Encode(y)
    ensures Encode(x + y) == Encode(x) + Encode(y)
  {
    EncodeFirstGroup(x, y);
    EncodeUnfold(x);
    ConcatAssoc(EncodeGroup(x[0], x[1], x[2]), Encode(x[3..]), Encode(y));
  }

  lemma EncodeUnfold(x: seq<Byte>)
    requires |x| >= 3
    ensures Encode(x) == EncodeGroup(x[0], x[1], x[2]) + Encode(x[3..])
  {
  }

  lemma ConcatAssoc(a: string, b: string, c: string)
    ensures a + (b + c) == (a + b) + c
  {
  }

  // ---------------------------------------------------------------------
  // Ruby's Base64.encode64 and the newline stripping applied to it
  // ---------------------------------------------------------------------

  /** Bytes encoded per output line: 45 bytes give 60 characters. */
  const LineBytes: nat := 45

  /** `Base64.encode64`: plain base 64 cut into 60-character lines, each ended by "\n". */
  function Encode64(bytes: seq<Byte>): (r: string)
    ensures r == "" <==> |bytes| == 0
    ensures r != "" ==> r[|r| - 1] == '\n'
    decreases |bytes|
  {
    if |bytes| == 0 then ""
    else if |bytes| <= LineBytes then Encode(bytes) + "\n"
    else Encode(bytes[..LineBytes]) + "\n" + Encode64(bytes[LineBytes..])
  }

  /** `gsub(/\r?\n/, '')`: removes every "\n" together with a "\r" just before it. */
  function StripLineBreaks(s: string): (r: string)
    ensures '\n' !in r
  {
    if |s| == 0 then ""
    else if |s| >= 2 && s[0] == '\r' && s[1] == '\n' then StripLineBreaks(s[2..])
    else if s[0] == '\n' then StripLineBreaks(s[1..])
    else [s[0]] + StripLineBreaks(s[1..])
  }

  lemma {:induction false} StripKeepsEncoded(x: string, rest: string)
    requires forall i :: 0 <= i < |x| ==> IsEncodedChar(x[i])
    ensures StripLineBreaks(x + rest) == x + StripLineBreaks(rest)
    decreases |x|
  {
    if |x| > 0 {
      assert (x + rest)[0] == x[0] && (x + rest)[1..] == x[1..] + rest;
      StripKeepsEncoded(x[1..], rest);
      assert [x[0]] + (x[1..] + StripLineBreaks(rest)) == x + StripLineBreaks(rest);
    } else {
      assert x + rest == rest;
    }
  }

  lemma StrippedOneLine(bytes: seq<Byte>)
    requires 0 < |bytes| <= LineBytes
    ensures StripLineBreaks(Encode64(bytes)) == Encode(bytes)
  {
    EncodeChars(bytes);
    StripKeepsEncoded(Encode(bytes), "\n");
    assert StripLineBreaks("\n") == "";
    assert Encode(bytes) + "" == Encode(bytes);
  }

  lemma StrippedLines(bytes: seq<Byte>)
    requires |bytes| > LineBytes
    requires StripLineBreaks(Encode64(bytes[LineBytes..])) == Encode(bytes[LineBytes..])
    ensures StripLineBreaks(Encode64(bytes)) == Encode(bytes)
  {
    var head, tail := bytes[..LineBytes], bytes[LineBytes..];
    var rest := Encode64(tail);
    Encode64Lines(bytes);
    EncodeChars(head);
    StripKeepsEncoded(Encode(head), "\n" + rest);
    StripLeadingNewline(rest);
    LineEncodeAppend(bytes);
  }

  lemma Encode64Lines(bytes: seq<Byte>)
    requires |bytes| > LineBytes
    ensures Encode64(bytes) == Encode(bytes[..LineBytes]) + ("\n" + Encode64(bytes[LineBytes..]))
  {
  }

  lemma StripLeadingNewline(rest: string)
    ensures StripLineBreaks("\n" + rest) == StripLineBreaks(rest)
  {
    assert ("\n" + rest)[0] == '\n' && ("\n" + rest)[1..] == rest;
  }

  lemma LineEncodeAppend(bytes: seq<Byte>)
    requires |bytes| > LineBytes
    ensures Encode(bytes) == Encode(bytes[..LineBytes]) + Encode(bytes[LineBytes..])
  {
    EncodeAppend(bytes[..LineBytes], bytes[LineBytes..]);
    assert bytes[..LineBytes] + bytes[LineBytes..] == bytes;
  }

  /** With the line breaks stripped, `encode64` is plain RFC 4648 base 64. */
  lemma {:induction false} StrippedEncode64(bytes: seq<Byte>)
    ensures StripLineBreaks(Encode64(bytes)) == Encode(bytes)
    decreases |bytes|
  {
    if 0 < |bytes| <= LineBytes {
      StrippedOneLine(bytes);
    } else if |bytes| > LineBytes {
      StrippedEncode64(bytes[LineBytes..]);
      StrippedLines(bytes);
    }
  }
}
