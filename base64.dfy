/** The browser's `atob`: the "forgiving-base64 decode" of the WHATWG Infra
    standard over the alphabet of section 4 of RFC 4648, returning a binary
    string whose characters are the decoded bytes. The standard encoder of
    section 4 of RFC 4648 (with `=` padding) is defined beside it as its
    partner. */
module Base64 {
  import opened Wrappers

  type Byte = b: int | 0 <= b < 256

  /** ASCII whitespace as the Infra standard defines it: TAB, LF, FF, CR, SPACE. */
  predicate IsAsciiWhitespace(c: char)
  {
    c == '\t' || c == '\n' || c == '\U{C}' || c == '\r' || c == ' '
  }

  /** The 64 characters of the base64 alphabet (RFC 4648, table 1). */
  predicate IsAlphabet(c: char)
  {
    ('A' <= c <= 'Z') || ('a' <= c <= 'z') || ('0' <= c <= '9') || c == '+' || c == '/'
  }

  predicate AllAlphabet(s: string)
  {
    forall i :: 0 <= i < |s| ==> IsAlphabet(s[i])
  }

  /** The 6-bit value of an alphabet character. */
  function Value(c: char): (v: int)
    requires IsAlphabet(c)
    ensures 0 <= v < 64
  {
    if 'A' <= c <= 'Z' then c as int - 'A' as int
    else if 'a' <= c <= 'z' then c as int - 'a' as int + 26
    else if '0' <= c <= '9' then c as int - '0' as int + 52
    else if c == '+' then 62
    else 63
  }

  /** The alphabet character of a 6-bit value: the inverse of Value. */
  function Digit(v: int): (c: char)
    requires 0 <= v < 64
    ensures IsAlphabet(c) && Value(c) == v
  {
    if v < 26 then ('A' as int + v) as char
    else if v < 52 then ('a' as int + v - 26) as char
    else if v < 62 then ('0' as int + v - 52) as char
    else if v == 62 then '+'
    else '/'
  }

  /** Step 1 of the decoder: remove all ASCII whitespace. */
  function StripWhitespace(s: string): (r: string)
    ensures |r| <= |s|
    ensures forall i :: 0 <= i < |r| ==> !IsAsciiWhitespace(r[i])
    decreases |s|
  {
    if |s| == 0 then ""
    else
      var rest := StripWhitespace(s[1..]);
      if IsAsciiWhitespace(s[0]) then rest else [s[0]] + rest
  }

  /** Every character that is not whitespace survives the removal. */
  lemma {:induction false} StripKeeps(s: string, i: int)
    requires 0 <= i < |s| && !IsAsciiWhitespace(s[i])
    ensures s[i] in StripWhitespace(s)
    decreases |s|
  {
    if i > 0 {
      assert s[1..][i - 1] == s[i];
      StripKeeps(s[1..], i - 1);
    }
  }

  /** A string without whitespace is left as it is. */
  lemma {:induction false} StripIdentity(s: string)
    requires forall i :: 0 <= i < |s| ==> !IsAsciiWhitespace(s[i])
    ensures StripWhitespace(s) == s
    decreases |s|
  {
    if |s| > 0 {
      StripIdentity(s[1..]);
      assert s == [s[0]] + s[1..];
    }
  }

  /** Step 2: when the length is a multiple of 4, drop one or two trailing `=`. */
  function DropPadding(s: string): (r: string)
    ensures |r| <= |s| && r == s[..|r|]
    ensures forall i :: |r| <= i < |s| ==> s[i] == '='
  {
    if |s| % 4 == 0 && |s| >= 1 && s[|s| - 1] == '=' then
      if |s| >= 2 && s[|s| - 2] == '=' then s[..|s| - 2] else s[..|s| - 1]
    else s
  }

  /** The characters left for steps 3 to 8. */
  function Prepared(s: string): string
  {
    DropPadding(StripWhitespace(s))
  }

  /** A sequence of 6-bit values. */
  predicate Sextets(v: seq<int>)
  {
    forall i :: 0 <= i < |v| ==> 0 <= v[i] < 64
  }

  /** Each character of the prepared text read as its 6-bit value. */
  function Values(d: string): (v: seq<int>)
    requires AllAlphabet(d)
    ensures |v| == |d| && Sextets(v)
    ensures forall i :: 0 <= i < |d| ==> v[i] == Value(d[i])
  {
    seq(|d|, i requires 0 <= i < |d| => Value(d[i]))
  }

  /** Steps 5 to 8 on the 6-bit values: accumulate 6 bits per value in a
      buffer and emit a byte per 8 bits; a final 12-bit buffer yields one byte,
      an 18-bit one two, the leftover low bits being discarded. */
  function FromSextets(v: seq<int>): (bytes: seq<Byte>)
    requires Sextets(v) && |v| % 4 != 1
    decreases |v|
  {
    if |v| >= 4 then Quantum(v[..4]) + FromSextets(v[4..])
    else if |v| == 3 then
      [v[0] * 4 + v[1] / 16, (v[1] % 16) * 16 + v[2] / 4]
    else if |v| == 2 then
      [v[0] * 4 + v[1] / 16]
    else []
  }

  /** The three bytes of a full 24-bit buffer. */
  function Quantum(g: seq<int>): seq<Byte>
    requires |g| == 4 && Sextets(g)
  {
    [g[0] * 4 + g[1] / 16, (g[1] % 16) * 16 + g[2] / 4, (g[2] % 4) * 64 + g[3]]
  }

  /** Refilling the buffer from a leading group of four values. */
  lemma FromSextetsCons(g: seq<int>, r: seq<int>)
    requires |g| == 4 && Sextets(g) && Sextets(r) && |r| % 4 != 1
    ensures Sextets(g + r) && |g + r| % 4 != 1
    ensures FromSextets(g + r) == Quantum(g) + FromSextets(r)
  {
    var d := g + r;
    assert forall i :: 0 <= i < |d| ==> d[i] == if i < 4 then g[i] else r[i - 4];
    assert d[..4] == g;
    assert d[4..] == r;
  }

  /** Steps 4 to 8 over the prepared characters. */
  function DecodeQuanta(d: string): (bytes: seq<Byte>)
    requires AllAlphabet(d) && |d| % 4 != 1
  {
    FromSextets(Values(d))
  }

  /** The buffer yields three bytes per four values, rounded down. */
  lemma {:induction false} FromSextetsLength(v: seq<int>)
    requires Sextets(v) && |v| % 4 != 1
    ensures |FromSextets(v)| == |v| * 3 / 4
    decreases |v|
  {
    if |v| >= 4 {
      FromSextetsLength(v[4..]);
    }
  }

  /** Decoding yields three bytes per four characters, rounded down. */
  lemma DecodeQuantaLength(d: string)
    requires AllAlphabet(d) && |d| % 4 != 1
    ensures |DecodeQuanta(d)| == |d| * 3 / 4
  {
    FromSextetsLength(Values(d));
  }

  /** Forgiving-base64 decode: failure (None) when, after whitespace and
      padding removal, the length leaves remainder 1 modulo 4 or a character is
      outside the alphabet. */
  function Decode(s: string): (r: Option<seq<Byte>>)
    ensures r.None? <==> |Prepared(s)| % 4 == 1 || !AllAlphabet(Prepared(s))
  {
    var d := Prepared(s);
    if |d| % 4 == 1 || !AllAlphabet(d) then None else Some(DecodeQuanta(d))
  }

  /** A successful decode yields three bytes per four prepared characters. */
  lemma DecodeLength(s: string)
    requires Decode(s).Some?
    ensures |Decode(s).value| == |Prepared(s)| * 3 / 4
  {
    DecodeQuantaLength(Prepared(s));
  }

  /** The binary string `atob` returns: one character per byte, of that code. */
  function BinaryString(bytes: seq<Byte>): (r: string)
    ensures |r| == |bytes|
    ensures forall i :: 0 <= i < |r| ==> r[i] as int == bytes[i]
  {
    seq(|bytes|, i requires 0 <= i < |bytes| => bytes[i] as char)
  }

  /** `atob(s)`: the binary string, or None where `atob` throws. */
  function Atob(s: string): (r: Option<string>)
    ensures r.None? <==> Decode(s).None?
    ensures r.Some? ==> r.value == BinaryString(Decode(s).value)
  {
    match Decode(s)
    case None => None
    case Some(bytes) => Some(BinaryString(bytes))
  }

  /** Section 4 of RFC 4648 on values: each group of three bytes split into
      four 6-bit values, a final group of two bytes into three and a final
      byte into two, the missing low bits being zero. */
  function ToSextets(b: seq<Byte>): (v: seq<int>)
    ensures Sextets(v) && |v| % 4 != 1
    decreases |b|
  {
    if |b| >= 3 then GroupValues(b[0], b[1], b[2]) + ToSextets(b[3..])
    else if |b| == 2 then
      [b[0] / 4, (b[0] % 4) * 16 + b[1] / 16, (b[1] % 16) * 4]
    else if |b| == 1 then
      [b[0] / 4, (b[0] % 4) * 16]
    else []
  }

  /** The four 6-bit values of a group of three bytes. */
  function GroupValues(x: Byte, y: Byte, z: Byte): (g: seq<int>)
    ensures |g| == 4 && Sextets(g)
  {
    [x / 4, (x % 4) * 16 + y / 16, (y % 16) * 4 + z / 64, z % 64]
  }

  /** Each 6-bit value written as its alphabet character. */
  function Digits(v: seq<int>): (s: string)
    requires Sextets(v)
    ensures |s| == |v| && AllAlphabet(s)
    ensures forall i :: 0 <= i < |v| ==> Value(s[i]) == v[i]
  {
    seq(|v|, i requires 0 <= i < |v| => Digit(v[i]))
  }

  /** Section 4 of RFC 4648 without the padding: four characters per three
      bytes, two or three characters for a final group of one or two bytes. */
  function Unpadded(b: seq<Byte>): (s: string)
    ensures AllAlphabet(s) && |s| % 4 != 1
  {
    Digits(ToSextets(b))
  }

  /** Four values per three bytes, rounded up. */
  lemma {:induction false} ToSextetsLength(b: seq<Byte>)
    ensures |ToSextets(b)| == (|b| * 4 + 2) / 3
    decreases |b|
  {
    if |b| >= 3 {
      ToSextetsLength(b[3..]);
    }
  }

  /** Four characters per three bytes, rounded up. */
  lemma UnpaddedLength(b: seq<Byte>)
    ensures |Unpadded(b)| == (|b| * 4 + 2) / 3
  {
    ToSextetsLength(b);
  }

  /** The padded encoding of section 4 of RFC 4648. */
  function Encode(b: seq<Byte>): (s: string)
    ensures |s| % 4 == 0
  {
    var u := Unpadded(b);
    if |u| % 4 == 2 then u + "==" else if |u| % 4 == 3 then u + "=" else u
  }

  /** Decoding the quanta of an unpadded encoding gives back the bytes. */
  lemma DecodeUnpadded(b: seq<Byte>)
    ensures DecodeQuanta(Unpadded(b)) == b
  {
    ValuesOfDigits(ToSextets(b));
    FromToSextets(b);
  }

  /** Reading the characters of written values gives the values back. */
  lemma ValuesOfDigits(v: seq<int>)
    requires Sextets(v)
    ensures Values(Digits(v)) == v
  {
    assert forall i :: 0 <= i < |v| ==> Values(Digits(v))[i] == v[i];
  }

  /** Refilling the buffer from the values of some bytes gives the bytes back. */
  lemma {:induction false} FromToSextets(b: seq<Byte>)
    ensures FromSextets(ToSextets(b)) == b
    decreases |b|
  {
    if |b| >= 3 {
      FromToSextets(b[3..]);
      FromToGroup(b);
    } else if |b| == 2 {
      TwoBytes(b[0], b[1]);
      assert b == [b[0], b[1]];
    } else if |b| == 1 {
      OneByte(b[0]);
      assert b == [b[0]];
    }
  }

  /** A leading group of three bytes comes back, given that the rest does. */
  lemma FromToGroup(b: seq<Byte>)
    requires |b| >= 3 && FromSextets(ToSextets(b[3..])) == b[3..]
    ensures FromSextets(ToSextets(b)) == b
  {
    var x, y, z := b[0], b[1], b[2];
    var g, r := GroupValues(x, y, z), ToSextets(b[3..]);
    assert ToSextets(b) == g + r;
    FromSextetsCons(g, r);
    GroupRoundTrip(x, y, z);
    assert FromSextets(g + r) == [x, y, z] + b[3..];
    HeadThree(b);
  }

  /** A sequence of three or more is its first three elements and the rest. */
  lemma HeadThree<T>(s: seq<T>)
    requires |s| >= 3
    ensures s == [s[0], s[1], s[2]] + s[3..]
  {
    assert s[..3] == [s[0], s[1], s[2]];
    assert s == s[..3] + s[3..];
  }

  /** A full buffer refilled from a group's values gives the group back. */
  lemma GroupRoundTrip(x: Byte, y: Byte, z: Byte)
    ensures Quantum(GroupValues(x, y, z)) == [x, y, z]
  {
    var a, p, c, e := x / 4, (x % 4) * 16 + y / 16, (y % 16) * 4 + z / 64, z % 64;
    ThreeBytes(x, y, z);
    var g := GroupValues(x, y, z);
    assert g[0] == a && g[1] == p && g[2] == c && g[3] == e;
    var q := Quantum(g);
    assert q[0] == x && q[1] == y && q[2] == z;
  }

  /** The bit arithmetic of a full group: four 6-bit values carrying three bytes. */
  lemma ThreeBytes(x: Byte, y: Byte, z: Byte)
    ensures var a, p, c, e := x / 4, (x % 4) * 16 + y / 16, (y % 16) * 4 + z / 64, z % 64;
      && 0 <= a < 64 && 0 <= p < 64 && 0 <= c < 64 && 0 <= e < 64
      && a * 4 + p / 16 == x && (p % 16) * 16 + c / 4 == y && (c % 4) * 64 + e == z
  {
  }

  /** A final group of two bytes in three 6-bit values. */
  lemma TwoBytes(x: Byte, y: Byte)
    ensures var a, p, c := x / 4, (x % 4) * 16 + y / 16, (y % 16) * 4;
      && 0 <= a < 64 && 0 <= p < 64 && 0 <= c < 64
      && a * 4 + p / 16 == x && (p % 16) * 16 + c / 4 == y
  {
  }

  /** A final single byte in two 6-bit values. */
  lemma OneByte(x: Byte)
    ensures var a, p := x / 4, (x % 4) * 16;
      && 0 <= a < 64 && 0 <= p < 64 && a * 4 + p / 16 == x
  {
  }

  /** Alphabet characters and `=` padding contain no whitespace. */
  lemma PaddedNoWhitespace(u: string, pad: string)
    requires AllAlphabet(u) && forall i :: 0 <= i < |pad| ==> pad[i] == '='
    ensures forall i :: 0 <= i < |u + pad| ==> !IsAsciiWhitespace((u + pad)[i])
  {
    forall i | 0 <= i < |u + pad|
      ensures !IsAsciiWhitespace((u + pad)[i])
    {
      if i < |u| {
        assert (u + pad)[i] == u[i];
      } else {
        assert (u + pad)[i] == pad[i - |u|];
      }
    }
  }

  /** Whitespace and padding removal give back the unpadded encoding. */
  lemma EncodePrepared(b: seq<Byte>)
    ensures Prepared(Encode(b)) == Unpadded(b)
  {
    var u := Unpadded(b);
    var pad := if |u| % 4 == 2 then "==" else if |u| % 4 == 3 then "=" else "";
    assert Encode(b) == u + pad;
    PaddedNoWhitespace(u, pad);
    StripIdentity(u + pad);
    DropPaddingOf(u, pad);
  }

  /** Padding removal takes off exactly the padding of an encoding. */
  lemma DropPaddingOf(u: string, pad: string)
    requires AllAlphabet(u)
    requires pad == "" || (pad == "=" && |u| % 4 == 3) || (pad == "==" && |u| % 4 == 2)
    ensures DropPadding(u + pad) == u
  {
    if pad == "" {
      assert u + pad == u;
      NothingToDrop(u);
    } else if pad == "=" {
      DropOnePad(u);
    } else {
      DropTwoPads(u);
    }
  }

  /** An alphabet string ends in no `=`, so it keeps all its characters. */
  lemma NothingToDrop(u: string)
    requires AllAlphabet(u)
    ensures DropPadding(u) == u
  {
    if |u| >= 1 {
      assert IsAlphabet(u[|u| - 1]);
    }
  }

  /** One `=` after three characters of a group is dropped. */
  lemma DropOnePad(u: string)
    requires AllAlphabet(u) && |u| % 4 == 3
    ensures DropPadding(u + "=") == u
  {
    var e := u + "=";
    assert e[|e| - 2] == u[|u| - 1] && IsAlphabet(u[|u| - 1]);
    assert e[..|e| - 1] == u;
  }

  /** Two `=` after two characters of a group are dropped. */
  lemma DropTwoPads(u: string)
    requires |u| % 4 == 2
    ensures DropPadding(u + "==") == u
  {
    var e := u + "==";
    assert e[..|e| - 2] == u;
  }

  /** `atob` accepts every padded encoding and returns its bytes. */
  lemma EncodeDecode(b: seq<Byte>)
    ensures Decode(Encode(b)) == Some(b)
  {
    EncodePrepared(b);
    DecodeUnpadded(b);
  }

  /** `atob` of what the encoder produced does not throw and gives back one
      character per original byte, whose char code is that byte. */
  lemma AtobEncode(b: seq<Byte>)
    ensures Atob(Encode(b)).Some?
    ensures |Atob(Encode(b)).value| == |b|
    ensures forall i :: 0 <= i < |b| ==> Atob(Encode(b)).value[i] as int == b[i]
  {
    EncodeDecode(b);
  }

  /** A character that is neither whitespace, nor `=`, nor in the alphabet
      makes `atob` throw. */
  lemma ForeignCharacterRejected(s: string, i: int)
    requires 0 <= i < |s|
    requires !IsAsciiWhitespace(s[i]) && s[i] != '=' && !IsAlphabet(s[i])
    ensures Decode(s) == None
  {
    var w := StripWhitespace(s);
    StripKeeps(s, i);
    var k :| 0 <= k < |w| && w[k] == s[i];
    var d := DropPadding(w);
    assert d[k] == s[i];
  }

  /** Whitespace removal works piecewise. */
  lemma {:induction false} StripConcat(a: string, b: string)
    ensures StripWhitespace(a + b) == StripWhitespace(a) + StripWhitespace(b)
    decreases |a|
  {
    if |a| == 0 {
      assert a + b == b;
    } else {
      assert (a + b)[0] == a[0] && (a + b)[1..] == a[1..] + b;
      StripConcat(a[1..], b);
    }
  }

  /** Removing whitespace drops an inserted line break. */
  lemma StripLineBreak(a: string, b: string)
    ensures StripWhitespace(a + "\n" + b) == StripWhitespace(a + b)
  {
    var nl := "\n";
    assert StripWhitespace(nl) == [];
    StripConcat(a + nl, b);
    StripConcat(a, nl);
    StripConcat(a, b);
  }

  /** The line breaks GitHub puts into `content` every 60 characters do not
      change what `atob` decodes. */
  lemma LineBreakIgnored(a: string, b: string)
    ensures Decode(a + "\n" + b) == Decode(a + b)
  {
    StripLineBreak(a, b);
  }
}
