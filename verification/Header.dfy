/** The message header of src/proto.h, "%c%08X", and the content behind it: printed by
    node_send_message, parsed by node_parse_message_header. */
module Header {
  import opened Bytes

  const LEN_STR_BYTES: nat := 8
  const HEADER: nat := 1 + LEN_STR_BYTES

  /** uint32_t, the type of msg.len. */
  type Length = x: int | 0 <= x < 0x1_0000_0000 witness 0

  // ---------------------------------------------------------------- printing

  /** One digit of %X. */
  function UpperDigit(d: nat): (c: byte)
    requires d < 16
    ensures IsUpperHex(c) && HexValue(c) == d
  {
    if d < 10 then 0x30 + d else 0x41 + (d - 10)
  }

  /** v in k hexadecimal digits, zeros in front. */
  function HexDigits(v: nat, k: nat): (s: seq<byte>)
    ensures |s| == k
    decreases k
  {
    if k == 0 then [] else HexDigits(v / 16, k - 1) + [UpperDigit(v % 16)]
  }

  function Pow16(k: nat): (p: nat)
    ensures p >= 1
  {
    if k == 0 then 1 else 16 * Pow16(k - 1)
  }

  /** What node_send_message writes for a message with content (MSG_FMT_CONTENT). A 32-bit length never
      needs more than the 8 digits it is padded to; %s stops at a NUL, so content has none. */
  function Print(kind: byte, len: Length, content: seq<byte>): seq<byte> {
    [kind] + HexDigits(len, LEN_STR_BYTES) + content
  }

  // ---------------------------------------------------------------- parsing

  predicate IsUpperHex(c: byte) {
    0x30 <= c <= 0x39 || 0x41 <= c <= 0x46
  }

  predicate IsHex(c: byte) {
    IsUpperHex(c) || 0x61 <= c <= 0x66
  }

  function HexValue(c: byte): (d: nat)
    requires IsHex(c)
    ensures d < 16
  {
    if c <= 0x39 then c - 0x30 else if c <= 0x46 then c - 0x41 + 10 else c - 0x61 + 10
  }

  /** isspace in the C locale. */
  predicate IsSpace(c: byte) {
    c == 0x20 || 0x09 <= c <= 0x0D
  }

  /** The leading hexadecimal digits, accumulated. */
  function ParseDigits(acc: nat, s: seq<byte>): nat
    decreases |s|
  {
    if s == [] || !IsHex(s[0]) then acc else ParseDigits(16 * acc + HexValue(s[0]), s[1..])
  }

  function SkipSpace(s: seq<byte>): (r: seq<byte>)
    ensures |r| <= |s|
  {
    if s != [] && IsSpace(s[0]) then SkipSpace(s[1..]) else s
  }

  /** An optional 0x or 0X. */
  function SkipPrefix(s: seq<byte>): (r: seq<byte>)
    ensures |r| <= |s|
  {
    if |s| >= 3 && s[0] == 0x30 && (s[1] == 0x78 || s[1] == 0x58) && IsHex(s[2]) then s[2..] else s
  }

  /** (uint32_t) strtoul(s, _, 16) for a string too short to overflow: spaces, a sign, a prefix, digits. */
  function Strtoul16(s: seq<byte>): (len: Length) {
    var t := SkipSpace(s);
    if t != [] && t[0] == 0x2D then (0 - ParseDigits(0, SkipPrefix(t[1..])) as int) % 0x1_0000_0000
    else if t != [] && t[0] == 0x2B then ParseDigits(0, SkipPrefix(t[1..])) % 0x1_0000_0000
    else ParseDigits(0, SkipPrefix(t)) % 0x1_0000_0000
  }

  datatype Parsed = Parsed(kind: byte, len: Length, rest: seq<byte>)

  /** node_parse_message_header. Of a buffer shorter than a header the length field is what is there. */
  function Parse(buf: seq<byte>): (p: Parsed)
    requires |buf| >= 1
  {
    var end := if |buf| < HEADER then |buf| else HEADER;
    Parsed(buf[0], Strtoul16(buf[1..end]), buf[end..])
  }

  // ---------------------------------------------------------------- round trips

  lemma {:induction false} DigitsAreUpper(v: nat, k: nat)
    ensures forall i :: 0 <= i < k ==> IsUpperHex(HexDigits(v, k)[i])
    decreases k
  {
    if k > 0 {
      DigitsAreUpper(v / 16, k - 1);
    }
  }

  lemma {:induction false} DigitsParse(v: nat, k: nat, tail: seq<byte>)
    requires v < Pow16(k)
    ensures ParseDigits(0, HexDigits(v, k) + tail) == ParseDigits(v, tail)
    decreases k
  {
    if k == 0 {
      assert HexDigits(v, k) + tail == tail;
    } else {
      var d := [UpperDigit(v % 16)];
      assert HexDigits(v, k) + tail == HexDigits(v / 16, k - 1) + (d + tail);
      DigitsParse(v / 16, k - 1, d + tail);
      assert (d + tail)[1..] == tail;
    }
  }

  lemma Pow16Of8(k: nat)
    requires k == LEN_STR_BYTES
    ensures Pow16(k) == 0x1_0000_0000
  {
    assert Pow16(4) == 0x1_0000;
    assert Pow16(8) == 0x1_0000_0000;
  }

  /** Digits have no space, sign or prefix in front. */
  lemma UpperHexHasNoFrills(s: seq<byte>)
    requires |s| >= 2 && IsUpperHex(s[0]) && IsUpperHex(s[1])
    ensures SkipSpace(s) == s && SkipPrefix(s) == s && s[0] != 0x2D && s[0] != 0x2B
  {
  }

  /** On digits alone, few enough not to overflow, strtoul is plain accumulation. */
  lemma UpperHexIsPlain(s: seq<byte>, v: nat)
    requires |s| >= 2 && IsUpperHex(s[0]) && IsUpperHex(s[1])
    requires v == ParseDigits(0, s) && v < 0x1_0000_0000
    ensures Strtoul16(s) == v
  {
    UpperHexHasNoFrills(s);
    calc {
      Strtoul16(s);
      ParseDigits(0, SkipPrefix(SkipSpace(s))) % 0x1_0000_0000;
      v % 0x1_0000_0000;
      v;
    }
  }

  lemma PrintedLengthReads(len: Length, k: nat)
    requires k == LEN_STR_BYTES
    ensures Strtoul16(HexDigits(len, k)) == len
  {
    var digits := HexDigits(len, k);
    Pow16Of8(k);
    DigitsAreUpper(len, k);
    DigitsParse(len, k, []);
    assert digits + [] == digits;
    UpperHexIsPlain(digits, len);
  }

  /** For every type byte, 32-bit length and content, parsing what was printed gives back the type and
      the length and leaves exactly the content unread. */
  lemma PrintParse(kind: byte, len: Length, content: seq<byte>)
    ensures |Print(kind, len, content)| == HEADER + |content|
    ensures Parse(Print(kind, len, content)) == Parsed(kind, len, content)
  {
    var buf := Print(kind, len, content);
    PrintedLengthReads(len, LEN_STR_BYTES);
    assert buf[1..HEADER] == HexDigits(len, LEN_STR_BYTES);
    assert buf[HEADER..] == content;
  }

  lemma {:induction false} ParseLastDigit(acc: nat, s: seq<byte>, c: byte)
    requires IsHex(c) && forall i :: 0 <= i < |s| ==> IsHex(s[i])
    ensures ParseDigits(acc, s + [c]) == 16 * ParseDigits(acc, s) + HexValue(c)
    decreases |s|
  {
    if s == [] {
      assert (s + [c])[1..] == [];
    } else {
      assert (s + [c])[1..] == s[1..] + [c];
      ParseLastDigit(16 * acc + HexValue(s[0]), s[1..], c);
    }
  }

  lemma {:induction false} DigitsReprint(s: seq<byte>)
    requires forall i :: 0 <= i < |s| ==> IsUpperHex(s[i])
    ensures ParseDigits(0, s) < Pow16(|s|) && HexDigits(ParseDigits(0, s), |s|) == s
    decreases |s|
  {
    if s != [] {
      var front, c := s[..|s| - 1], s[|s| - 1];
      assert s == front + [c];
      ParseLastDigit(0, front, c);
      DigitsReprint(front);
      assert UpperDigit(HexValue(c)) == c;
    }
  }

  predicate UpperHexField(buf: seq<byte>)
    requires |buf| >= HEADER
  {
    forall i :: 0 <= i < LEN_STR_BYTES ==> IsUpperHex(buf[1..HEADER][i])
  }

  /** What is printed always has an uppercase length field. */
  lemma PrintedFieldIsUpper(kind: byte, len: Length, rest: seq<byte>)
    ensures |Print(kind, len, rest)| >= HEADER && UpperHexField(Print(kind, len, rest))
  {
    DigitsAreUpper(len, LEN_STR_BYTES);
    assert Print(kind, len, rest)[1..HEADER] == HexDigits(len, LEN_STR_BYTES);
  }

  lemma UpperHexRereads(field: seq<byte>)
    requires |field| == LEN_STR_BYTES && forall i :: 0 <= i < |field| ==> IsUpperHex(field[i])
    ensures HexDigits(Strtoul16(field), |field|) == field
  {
    DigitsReprint(field);
    Pow16Of8(|field|);
    UpperHexIsPlain(field, ParseDigits(0, field));
  }

  lemma UpperHexReprints(buf: seq<byte>)
    requires |buf| >= HEADER && UpperHexField(buf)
    ensures var p := Parse(buf); Print(p.kind, p.len, p.rest) == buf
  {
    UpperHexRereads(buf[1..HEADER]);
    assert buf == [buf[0]] + buf[1..HEADER] + buf[HEADER..];
  }

  /** A header reprints to itself exactly when its length field is 8 uppercase hexadecimal digits. */
  lemma WhenAHeaderReprints(buf: seq<byte>)
    requires |buf| >= HEADER
    ensures var p := Parse(buf);
            Print(p.kind, p.len, p.rest) == buf <==> UpperHexField(buf)
  {
    var p := Parse(buf);
    PrintedFieldIsUpper(p.kind, p.len, p.rest);
    if UpperHexField(buf) {
      UpperHexReprints(buf);
    }
  }

  // ---------------------------------------------------------------- length fields of any form

  lemma DigitValues(d: nat)
    requires d < 16
    ensures var upper: byte, lower: byte := "0123456789ABCDEF"[d] as int, "0123456789abcdef"[d] as int;
            IsHex(upper) && IsHex(lower) && HexValue(upper) == d && HexValue(lower) == d
  {
  }

  lemma {:induction false} SkipsSpaces(spaces: seq<byte>, t: seq<byte>)
    requires (forall i :: 0 <= i < |spaces| ==> IsSpace(spaces[i])) && t != [] && !IsSpace(t[0])
    ensures SkipSpace(spaces + t) == t
  {
    if spaces == [] {
      assert spaces + t == t;
    } else {
      assert (spaces + t)[1..] == spaces[1..] + t;
      SkipsSpaces(spaces[1..], t);
    }
  }

  lemma {:induction false} StopsAfterDigits(acc: nat, digits: seq<byte>, tail: seq<byte>)
    requires (forall i :: 0 <= i < |digits| ==> IsHex(digits[i])) && (tail == [] || !IsHex(tail[0]))
    ensures ParseDigits(acc, digits + tail) == ParseDigits(acc, digits)
    decreases |digits|
  {
    if digits == [] {
      assert digits + tail == tail;
    } else {
      assert (digits + tail)[1..] == digits[1..] + tail;
      StopsAfterDigits(16 * acc + HexValue(digits[0]), digits[1..], tail);
    }
  }

  /** Digits, of either case, that end at the first other character; that is no x, which might make a prefix. */
  ghost predicate DigitsThenTail(digits: seq<byte>, tail: seq<byte>) {
    && digits != [] && (forall i :: 0 <= i < |digits| ==> IsHex(digits[i]))
    && (tail != [] ==> !IsHex(tail[0]) && tail[0] != 'x' as int && tail[0] != 'X' as int)
  }

  ghost predicate IsPrefix(prefix: seq<byte>) {
    prefix == [] || prefix == ['0' as int, 'x' as int] || prefix == ['0' as int, 'X' as int]
  }

  ghost predicate IsSign(sign: seq<byte>) {
    sign == [] || sign == ['+' as int] || sign == ['-' as int]
  }

  lemma SkipsPrefix(prefix: seq<byte>, digits: seq<byte>, tail: seq<byte>)
    requires IsPrefix(prefix) && DigitsThenTail(digits, tail)
    ensures SkipPrefix(prefix + digits + tail) == digits + tail
  {
    var s := prefix + digits + tail;
    if prefix == [] {
      assert s == digits + tail;
    } else {
      assert s[2] == digits[0] && s[2..] == digits + tail;
    }
  }

  lemma NumberReads(prefix: seq<byte>, digits: seq<byte>, tail: seq<byte>, t: seq<byte>)
    requires IsPrefix(prefix) && DigitsThenTail(digits, tail) && t == prefix + digits + tail
    ensures t != [] && IsHex(t[0]) && ParseDigits(0, SkipPrefix(t)) == ParseDigits(0, digits)
  {
    SkipsPrefix(prefix, digits, tail);
    StopsAfterDigits(0, digits, tail);
    assert t[0] == if prefix == [] then digits[0] else '0' as int;
  }

  /** The sign comes off what is left behind the spaces. */
  lemma SignComesOff(s: seq<byte>, sign: seq<byte>, t: seq<byte>, v: int)
    requires IsSign(sign) && SkipSpace(s) == sign + t
    requires t != [] && IsHex(t[0]) && ParseDigits(0, SkipPrefix(t)) == v
    ensures Strtoul16(s) == (if sign == ['-' as int] then -v else v) % 0x1_0000_0000
  {
    if sign == [] {
      assert sign + t == t;
    } else {
      assert (sign + t)[1..] == t;
    }
  }

  /** A length field is read past spaces, a sign and a prefix, up to the first character that is no digit; a minus
      sign negates the value in 32 bits. */
  lemma FieldReads(spaces: seq<byte>, sign: seq<byte>, prefix: seq<byte>, digits: seq<byte>, tail: seq<byte>)
    requires (forall i :: 0 <= i < |spaces| ==> IsSpace(spaces[i])) && IsSign(sign)
    requires IsPrefix(prefix) && DigitsThenTail(digits, tail)
    ensures var v: int := ParseDigits(0, digits);
            Strtoul16(spaces + (sign + (prefix + digits + tail))) ==
            (if sign == ['-' as int] then -v else v) % 0x1_0000_0000
  {
    var t := prefix + digits + tail;
    NumberReads(prefix, digits, tail, t);
    assert !IsSpace((sign + t)[0]);
    SkipsSpaces(spaces, sign + t);
    SignComesOff(spaces + (sign + t), sign, t, ParseDigits(0, digits));
  }

  // ---------------------------------------------------------------- the bytes themselves

  lemma DigitCharacter(d: nat)
    requires d < 16
    ensures UpperDigit(d) == "0123456789ABCDEF"[d] as int
  {
  }

  lemma DivideTwice(v: nat, p: nat)
    requires p >= 1
    ensures (v / 16) / p == v / (16 * p)
  {
    var r := (v / 16) / p;
    assert v / 16 == r * p + (v / 16) % p;
    assert 16 * (r * p) == (16 * p) * r;
    var rest := v - (16 * p) * r;
    assert 0 <= rest < 16 * p;
    QuotientIs(v, 16 * p, r, rest);
  }

  lemma QuotientIs(v: nat, p: nat, r: nat, rest: nat)
    requires p >= 1 && v == p * r + rest && rest < p
    ensures v / p == r
  {
    var q := v / p;
    assert q > r ==> p * q >= p * (r + 1);
    assert q < r ==> p * (q + 1) <= p * r;
  }

  /** Most significant digit first. */
  lemma {:induction false} DigitAt(v: nat, k: nat, i: nat)
    requires i < k
    ensures HexDigits(v, k)[i] == UpperDigit(v / Pow16(k - 1 - i) % 16)
    decreases k
  {
    if i < k - 1 {
      DigitAt(v / 16, k - 1, i);
      DivideTwice(v, Pow16(k - 2 - i));
    }
  }

  /** Digit i of a printed length is in its place, as an uppercase hexadecimal character. */
  ghost predicate DigitInPlace(buf: seq<byte>, len: Length, i: nat)
    requires i < LEN_STR_BYTES && |buf| >= HEADER
  {
    buf[1 + i] == "0123456789ABCDEF"[len / Pow16(7 - i) % 16] as int
  }

  lemma DigitIsInPlace(kind: byte, len: Length, content: seq<byte>, i: nat)
    requires i < LEN_STR_BYTES
    ensures DigitInPlace(Print(kind, len, content), len, i)
  {
    DigitAt(len, LEN_STR_BYTES, i);
    DigitCharacter(len / Pow16(7 - i) % 16);
    assert Print(kind, len, content)[1 + i] == HexDigits(len, LEN_STR_BYTES)[i];
  }

  /** What is on the wire: the type, the eight digits of the length from the most significant on as uppercase
      hexadecimal characters, and the content. */
  lemma PrintLayout(kind: byte, len: Length, content: seq<byte>)
    ensures |Print(kind, len, content)| == 9 + |content|
    ensures Print(kind, len, content)[0] == kind && Print(kind, len, content)[9..] == content
    ensures forall i {:trigger DigitInPlace(Print(kind, len, content), len, i)} :: 0 <= i < 8 ==>
              DigitInPlace(Print(kind, len, content), len, i)
  {
    forall i {:trigger DigitInPlace(Print(kind, len, content), len, i)} | 0 <= i < 8
      ensures DigitInPlace(Print(kind, len, content), len, i) {
      DigitIsInPlace(kind, len, content, i);
    }
    assert Print(kind, len, content)[9..] == content;
  }

  lemma {:induction false} ZerosAre(k: nat)
    ensures forall i :: 0 <= i < k ==> HexDigits(0, k)[i] == 0x30
    decreases k
  {
    if k > 0 {
      ZerosAre(k - 1);
    }
  }

  /** The length field of a message without content. */
  lemma ZeroDigits()
    ensures HexDigits(0, LEN_STR_BYTES) == [0x30, 0x30, 0x30, 0x30, 0x30, 0x30, 0x30, 0x30]
  {
    ZerosAre(LEN_STR_BYTES);
  }
}
