/**
 * The `application/x-www-form-urlencoded` coding of a query parameter's name and value. Both
 * Python's `parse_qs` and the browser's `URLSearchParams` read a field the same way: '+' is a
 * space, `%hh` is a byte, and the bytes are read as UTF-8, each maximal ill-formed part becoming
 * U+FFFD. Python's `urlencode` (through `quote_plus`) and `URLSearchParams.toString()` write a
 * value back the same way, except for the characters each leaves as they are.
 */
module FormCoding {
  import opened Wrappers

  type Byte = b: int | 0 <= b < 256

  /** The character a byte sequence that is not well-formed UTF-8 decodes to. */
  const Replacement: char := '�'

  predicate IsHexDigit(c: char)
  {
    '0' <= c <= '9' || 'a' <= c <= 'f' || 'A' <= c <= 'F'
  }

  function HexValue(c: char): (v: nat)
    requires IsHexDigit(c)
    ensures v < 16
  {
    if c <= '9' then c as int - '0' as int
    else if c <= 'F' then c as int - 'A' as int + 10
    else c as int - 'a' as int + 10
  }

  /** The upper-case hex digit both encoders write. */
  function HexDigit(n: nat): (c: char)
    requires n < 16
    ensures IsHexDigit(c) && HexValue(c) == n
  {
    if n < 10 then ('0' as int + n) as char else ('A' as int + n - 10) as char
  }

  /** The byte of the escape `%hh` at the front of `s`, if there is one. */
  function EscapedByte(s: string): Option<Byte>
  {
    if |s| >= 3 && s[0] == '%' && IsHexDigit(s[1]) && IsHexDigit(s[2]) then Some(16 * HexValue(s[1]) + HexValue(s[2]))
    else None
  }

  /** The escape of one byte. */
  function Escape(b: Byte): string
  {
    ['%', HexDigit(b / 16), HexDigit(b % 16)]
  }

  function EscapeAll(bs: seq<Byte>): (r: string)
    ensures |r| == 3 * |bs|
  {
    if bs == [] then "" else Escape(bs[0]) + EscapeAll(bs[1..])
  }

  /** The length of the well-formed UTF-8 sequence a byte leads, or 0 when it leads none. */
  function SequenceLength(b: Byte): (n: nat)
    ensures n <= 4
  {
    if b < 0x80 then 1
    else if 0xC2 <= b <= 0xDF then 2
    else if 0xE0 <= b <= 0xEF then 3
    else if 0xF0 <= b <= 0xF4 then 4
    else 0
  }

  /** Whether `b` may be the `j`-th byte (from 1) of a sequence led by `lead` (table 3-7 of the Unicode Standard). */
  predicate Continues(lead: Byte, j: nat, b: Byte)
  {
    if j == 1 then
      (if lead == 0xE0 then 0xA0 else if lead == 0xF0 then 0x90 else 0x80) <= b
      && b <= (if lead == 0xED then 0x9F else if lead == 0xF4 then 0x8F else 0xBF)
    else 0x80 <= b <= 0xBF
  }

  /**
   * The escaped bytes at the front of `t`, at most `left` of them, that continue the sequence led
   * by `lead`, the first of them being its `j`-th byte.
   */
  function Continuation(t: string, lead: Byte, j: nat, left: nat): (bs: seq<Byte>)
    ensures |bs| <= left && 3 * |bs| <= |t|
    ensures forall i :: 0 <= i < |bs| ==> Continues(lead, j + i, bs[i])
    decreases left
  {
    if left == 0 then []
    else match EscapedByte(t)
      case Some(b) => if Continues(lead, j, b) then [b] + Continuation(t[3..], lead, j + 1, left - 1) else []
      case None => []
  }

  /** The scalar value a complete well-formed sequence encodes. */
  function CodePoint(lead: Byte, bs: seq<Byte>): (v: int)
    requires 1 <= SequenceLength(lead) && |bs| == SequenceLength(lead) - 1
    requires forall i :: 0 <= i < |bs| ==> Continues(lead, 1 + i, bs[i])
    ensures 0 <= v < 0xD800 || 0xE000 <= v < 0x11_0000
  {
    var l: int := lead;
    if |bs| == 0 then l
    else if |bs| == 1 then (l - 0xC0) * 64 + (bs[0] as int - 0x80)
    else if |bs| == 2 then
      assert Continues(lead, 1, bs[0]) && Continues(lead, 2, bs[1]);
      ThreeByteValue(l, bs[0], bs[1]);
      (l - 0xE0) * 4096 + (bs[0] as int - 0x80) * 64 + (bs[1] as int - 0x80)
    else
      assert Continues(lead, 1, bs[0]) && Continues(lead, 2, bs[1]) && Continues(lead, 3, bs[2]);
      FourByteValue(l, bs[0], bs[1], bs[2]);
      (l - 0xF0) * 262144 + (bs[0] as int - 0x80) * 4096 + (bs[1] as int - 0x80) * 64 + (bs[2] as int - 0x80)
  }

  lemma ThreeByteValue(l: int, b0: int, b1: int)
    requires 0xE0 <= l <= 0xEF && 0x80 <= b1 <= 0xBF
    requires (if l == 0xE0 then 0xA0 else 0x80) <= b0 <= (if l == 0xED then 0x9F else 0xBF)
    ensures var v := (l - 0xE0) * 4096 + (b0 - 0x80) * 64 + (b1 - 0x80); 0x800 <= v < 0xD800 || 0xE000 <= v < 0x1_0000
  {
    if l < 0xED {
    } else if l == 0xED {
    } else {
    }
  }

  lemma FourByteValue(l: int, b0: int, b1: int, b2: int)
    requires 0xF0 <= l <= 0xF4 && 0x80 <= b1 <= 0xBF && 0x80 <= b2 <= 0xBF
    requires (if l == 0xF0 then 0x90 else 0x80) <= b0 <= (if l == 0xF4 then 0x8F else 0xBF)
    ensures var v := (l - 0xF0) * 262144 + (b0 - 0x80) * 4096 + (b1 - 0x80) * 64 + (b2 - 0x80); 0x1_0000 <= v < 0x11_0000
  {
  }

  /**
   * The decoding of a field: '+' becomes a space, a run of escapes is read as UTF-8 (a complete
   * well-formed sequence gives its character, a lead byte with the bytes that continue it but do
   * not complete it gives one U+FFFD, and so does any other byte), and every other character
   * stands for itself, '%' included.
   */
  function Decode(s: string): (r: string)
    ensures s != [] ==> r != []
    decreases |s|
  {
    if s == [] then ""
    else match EscapedByte(s)
      case None => [if s[0] == '+' then ' ' else s[0]] + Decode(s[1..])
      case Some(lead) =>
        var need := SequenceLength(lead);
        if need == 0 then [Replacement] + Decode(s[3..])
        else
          var bs := Continuation(s[3..], lead, 1, need - 1);
          if |bs| == need - 1 then [CodePoint(lead, bs) as char] + Decode(s[3 * need..])
          else [Replacement] + Decode(s[3 * (|bs| + 1)..])
  }

  /** The UTF-8 bytes of a character. */
  function Utf8(c: char): (bs: seq<Byte>)
    ensures 1 <= |bs| <= 4
  {
    var n := c as int;
    if n < 0x80 then [n]
    else if n < 0x800 then [0xC0 + n / 64, 0x80 + n % 64]
    else if n < 0x1_0000 then [0xE0 + n / 4096, 0x80 + n / 64 % 64, 0x80 + n % 64]
    else [0xF0 + n / 262144, 0x80 + n / 4096 % 64, 0x80 + n / 64 % 64, 0x80 + n % 64]
  }

  /** The writer: Python's `quote_plus` or the browser's form serializer. */
  datatype Writer = Python | Browser

  /**
   * The characters a writer leaves as they are: ASCII letters and digits, `-`, `.` and `_`, and
   * also `~` for Python and `*` for the browser.
   */
  predicate Unreserved(c: char, w: Writer)
  {
    'a' <= c <= 'z' || 'A' <= c <= 'Z' || '0' <= c <= '9' || c == '-' || c == '.' || c == '_'
    || (if w == Python then c == '~' else c == '*')
  }

  /** One character written: itself when unreserved, '+' for a space, else its escaped UTF-8 bytes. */
  function EncodeChar(c: char, w: Writer): string
  {
    if Unreserved(c, w) then [c] else if c == ' ' then "+" else EscapeAll(Utf8(c))
  }

  /** A name or a value as `urlencode` (Python) or `URLSearchParams.toString()` (browser) writes it. */
  function Encode(s: string, w: Writer): string
  {
    if s == [] then "" else EncodeChar(s[0], w) + Encode(s[1..], w)
  }

  /** The characters an encoding may hold. */
  predicate Encoded(c: char)
  {
    'a' <= c <= 'z' || 'A' <= c <= 'Z' || '0' <= c <= '9' || c == '-' || c == '.' || c == '_'
    || c == '~' || c == '*' || c == '+' || c == '%'
  }

  /** An encoding holds only unreserved characters, '+' and escapes: never '&', '=', '?', '#', ';' or '/'. */
  lemma {:induction false} EncodeChars(s: string, w: Writer)
    ensures forall k :: 0 <= k < |Encode(s, w)| ==> Encoded(Encode(s, w)[k])
  {
    if s != [] {
      EncodeCharChars(s[0], w);
      EncodeChars(s[1..], w);
      var a, b := EncodeChar(s[0], w), Encode(s[1..], w);
      assert forall k :: 0 <= k < |a + b| ==> (a + b)[k] == if k < |a| then a[k] else b[k - |a|];
    }
  }

  lemma EncodeCharChars(c: char, w: Writer)
    ensures forall k :: 0 <= k < |EncodeChar(c, w)| ==> Encoded(EncodeChar(c, w)[k])
  {
    if !Unreserved(c, w) && c != ' ' {
      EscapeAllChars(Utf8(c));
    }
  }

  lemma {:induction false} EscapeAllChars(bs: seq<Byte>)
    ensures forall k :: 0 <= k < |EscapeAll(bs)| ==> Encoded(EscapeAll(bs)[k])
  {
    if bs != [] {
      EscapeAllChars(bs[1..]);
      var a, b := Escape(bs[0]), EscapeAll(bs[1..]);
      assert forall k :: 0 <= k < |a + b| ==> (a + b)[k] == if k < |a| then a[k] else b[k - |a|];
    }
  }

  /** An encoding holds none of the characters that delimit the parts of an address or a query. */
  lemma EncodeHasNoDelimiter(s: string, w: Writer)
    ensures '&' !in Encode(s, w) && '=' !in Encode(s, w) && '#' !in Encode(s, w) && '?' !in Encode(s, w)
  {
    EncodeChars(s, w);
  }

  /** A text without '%' and '+' decodes to itself. */
  lemma {:induction false} DecodePlain(s: string)
    requires '%' !in s && '+' !in s
    ensures Decode(s) == s
  {
    if s != [] {
      DecodePlain(s[1..]);
      assert s == [s[0]] + s[1..];
    }
  }

  /** A non-empty text encodes to a non-empty text. */
  lemma EncodeNonEmpty(s: string, w: Writer)
    requires s != []
    ensures Encode(s, w) != []
  {
  }

  /** Decoding a written text gives it back: every character survives the coding, whichever writer wrote it. */
  lemma {:induction false} DecodeEncode(s: string, w: Writer)
    ensures Decode(Encode(s, w)) == s
  {
    if s != [] {
      DecodeEncode(s[1..], w);
      DecodeFront(s[0], w, Encode(s[1..], w));
      assert Encode(s, w) == EncodeChar(s[0], w) + Encode(s[1..], w);
      assert s == [s[0]] + s[1..];
    }
  }

  /** Decoding one written character followed by any text gives the character, then the decoding of the text. */
  lemma DecodeFront(c: char, w: Writer, t: string)
    ensures Decode(EncodeChar(c, w) + t) == [c] + Decode(t)
  {
    if Unreserved(c, w) || c == ' ' {
      var s := EncodeChar(c, w) + t;
      assert s[1..] == t;
      assert EscapedByte(s).None?;
    } else {
      DecodeEscaped(c, t);
    }
  }

  /** The escaped UTF-8 bytes of a character decode to it, and the decoding goes on after them. */
  lemma DecodeEscaped(c: char, t: string)
    ensures Decode(EscapeAll(Utf8(c)) + t) == [c] + Decode(t)
  {
    var bs := Utf8(c);
    var s := EscapeAll(bs) + t;
    EscapeFront(bs, t);
    Utf8WellFormed(c);
    ContinuationOfEscapes(bs[1..], t, bs[0], 1);
    assert bs[1..] + [] == bs[1..];
    assert s[3..] == EscapeAll(bs[1..]) + t;
    assert Continuation(s[3..], bs[0], 1, |bs| - 1) == bs[1..];
    Utf8CodePoint(c);
    assert s[3 * |bs|..] == t;
  }

  /** The first escape of a written byte sequence reads back as its first byte. */
  lemma EscapeFront(bs: seq<Byte>, t: string)
    requires bs != []
    ensures EscapedByte(EscapeAll(bs) + t) == Some(bs[0])
    ensures (EscapeAll(bs) + t)[3..] == EscapeAll(bs[1..]) + t
  {
    var b := bs[0];
    var tail := EscapeAll(bs[1..]);
    assert EscapeAll(bs) == Escape(b) + tail;
    assert EscapeAll(bs) + t == Escape(b) + (tail + t);
    EscapeByte(b, tail + t);
  }

  /** One byte's escape, followed by any text, reads back as the byte. */
  lemma EscapeByte(b: Byte, rest: string)
    ensures EscapedByte(Escape(b) + rest) == Some(b)
    ensures (Escape(b) + rest)[3..] == rest
  {
    var s := Escape(b) + rest;
    assert s[0] == '%' && s[1] == HexDigit(b / 16) && s[2] == HexDigit(b % 16);
    HexPair(b);
  }

  /** A byte is sixteen times its high digit plus its low digit. */
  lemma HexPair(b: Byte)
    ensures 16 * (b / 16) + b % 16 == b
  {
  }

  /** Escaped bytes that all continue a sequence are read back as its continuation. */
  lemma {:induction false} ContinuationOfEscapes(bs: seq<Byte>, t: string, lead: Byte, j: nat)
    requires forall i :: 0 <= i < |bs| ==> Continues(lead, j + i, bs[i])
    ensures Continuation(EscapeAll(bs) + t, lead, j, |bs|) == bs
    decreases |bs|
  {
    if bs != [] {
      EscapeFront(bs, t);
      ContinuationOfEscapes(bs[1..], t, lead, j + 1);
      assert bs == [bs[0]] + bs[1..];
    }
  }

  /** The UTF-8 bytes of a character form one complete well-formed sequence. */
  lemma Utf8WellFormed(c: char)
    ensures SequenceLength(Utf8(c)[0]) == |Utf8(c)|
    ensures forall i :: 1 <= i < |Utf8(c)| ==> Continues(Utf8(c)[0], i, Utf8(c)[i])
  {
    var n := c as int;
    if 0x800 <= n < 0x1_0000 {
      ThreeByteRanges(n);
    } else if 0x1_0000 <= n {
      FourByteRanges(n);
    }
  }

  lemma ThreeByteRanges(n: int)
    requires 0x800 <= n < 0xD800 || 0xE000 <= n < 0x1_0000
    ensures var lead := 0xE0 + n / 4096; 0xE0 <= lead <= 0xEF && Continues(lead, 1, 0x80 + n / 64 % 64)
  {
    var lead := 0xE0 + n / 4096;
    if lead == 0xE0 {
      assert n / 64 % 64 == n / 64;
    } else if lead == 0xED {
      assert n / 64 % 64 == n / 64 - 0x340;
    }
  }

  lemma FourByteRanges(n: int)
    requires 0x1_0000 <= n < 0x11_0000
    ensures var lead := 0xF0 + n / 262144; 0xF0 <= lead <= 0xF4 && Continues(lead, 1, 0x80 + n / 4096 % 64)
  {
    var lead := 0xF0 + n / 262144;
    if lead == 0xF0 {
      assert n / 4096 % 64 == n / 4096;
    } else if lead == 0xF4 {
      assert n / 4096 % 64 == n / 4096 - 256;
    }
  }

  /** The scalar value of a character's UTF-8 bytes is the character's own. */
  lemma Utf8CodePoint(c: char)
    ensures SequenceLength(Utf8(c)[0]) == |Utf8(c)|
    ensures forall i :: 0 <= i < |Utf8(c)| - 1 ==> Continues(Utf8(c)[0], 1 + i, Utf8(c)[1..][i])
    ensures CodePoint(Utf8(c)[0], Utf8(c)[1..]) == c as int
  {
    Utf8WellFormed(c);
    var n := c as int;
    var bs := Utf8(c);
    if 0x80 <= n < 0x800 {
      SixBits(n);
    } else if 0x800 <= n < 0x1_0000 {
      assert CodePoint(bs[0], bs[1..]) == (n / 4096) * 4096 + (n / 64 % 64) * 64 + n % 64;
      ThreeSixBits(n);
    } else if 0x1_0000 <= n {
      assert CodePoint(bs[0], bs[1..]) == (n / 262144) * 262144 + (n / 4096 % 64) * 4096 + (n / 64 % 64) * 64 + n % 64;
      FourSixBits(n);
    }
  }

  /** A number below 0x10000 is written back from its three UTF-8 payloads. */
  lemma ThreeSixBits(n: int)
    requires 0 <= n
    ensures (n / 4096) * 4096 + (n / 64 % 64) * 64 + n % 64 == n
  {
    SixBits(n);
    SixBits(n / 64);
    assert n / 64 / 64 == n / 4096;
  }

  /** A number is written back from its four UTF-8 payloads. */
  lemma FourSixBits(n: int)
    requires 0 <= n
    ensures (n / 262144) * 262144 + (n / 4096 % 64) * 4096 + (n / 64 % 64) * 64 + n % 64 == n
  {
    ThreeSixBits(n);
    SixBits(n / 4096);
    assert n / 4096 / 64 == n / 262144;
  }

  /** A number is 64 times its quotient by 64 plus its remainder. */
  lemma SixBits(n: int)
    requires n >= 0
    ensures n == n / 64 * 64 + n % 64
  {
  }
}
