/**
 Seed metadata written by a Python exporter carries bytes values as their repr
 (section 2.4.1 of the Python Language Reference). The decoder turns such a literal
 into hex and leaves any other string alone. Strings are byte sequences.
 */
module PythonLiteral {
  import opened Wrappers

  type Byte = x: int | 0 <= x < 256
  type Bytes = seq<Byte>

  const BACKSLASH: Byte := 92
  const SINGLE: Byte := 39
  const DOUBLE: Byte := 34
  const LETTER_B: Byte := 98
  const LETTER_X: Byte := 120

  function HexDigit(n: int): Byte
    requires 0 <= n < 16
  {
    if n < 10 then 48 + n else 87 + n
  }

  /** hex.EncodeToString. */
  function Hex(b: Bytes): Bytes {
    if b == [] then [] else [HexDigit(b[0] / 16), HexDigit(b[0] % 16)] + Hex(b[1..])
  }

  function HexValue(c: Byte): Option<int> {
    if 48 <= c <= 57 then Some(c - 48)
    else if 97 <= c <= 102 then Some(c - 87)
    else if 65 <= c <= 70 then Some(c - 55)
    else None
  }

  predicate Octal(c: Byte) {
    48 <= c <= 55
  }

  /** How many octal digits, at most three, an escape starting here takes. */
  function OctalRun(s: Bytes): (n: nat)
    ensures n <= 3 && n <= |s|
  {
    if |s| == 0 || !Octal(s[0]) then 0
    else if |s| == 1 || !Octal(s[1]) then 1
    else if |s| == 2 || !Octal(s[2]) then 2
    else 3
  }

  function OctalValue(s: Bytes): nat
    requires forall i :: 0 <= i < |s| ==> Octal(s[i])
  {
    if s == [] then 0 else assert Octal(s[|s| - 1]); OctalValue(s[..|s| - 1]) * 8 + (s[|s| - 1] as int - 48)
  }

  /** The single-character escapes; any other character stands for itself without its backslash. */
  function Simple(c: Byte): Byte {
    if c == 97 then 7 else if c == 98 then 8 else if c == 102 then 12 else if c == 110 then 10
    else if c == 114 then 13 else if c == 116 then 9 else if c == 118 then 11 else c
  }

  function Cons(b: Byte, rest: Option<Bytes>): Option<Bytes> {
    if rest.None? then None else Some([b] + rest.value)
  }

  /** What the text between the quotes stands for; None for a malformed escape. */
  function Decode(s: Bytes): Option<Bytes> {
    if s == [] then Some([])
    else if s[0] != BACKSLASH then Cons(s[0], Decode(s[1..]))
    else if |s| == 1 then Some([BACKSLASH])
    else if s[1] == LETTER_X then
      if |s| < 4 || HexValue(s[2]).None? || HexValue(s[3]).None? then None
      else Cons(16 * HexValue(s[2]).value + HexValue(s[3]).value, Decode(s[4..]))
    else if Octal(s[1]) then
      var n := OctalRun(s[1..]);
      var v := OctalValue(s[1..1 + n]);
      if v > 255 then None else Cons(v, Decode(s[1 + n..]))
    else Cons(Simple(s[1]), Decode(s[2..]))
  }

  datatype Conversion = NotLiteral | Malformed | Converted(hex: Bytes)

  function ToHex(s: Bytes): Conversion {
    if |s| < 3 || s[0] != LETTER_B || (s[1] != SINGLE && s[1] != DOUBLE) then NotLiteral
    else if s[|s| - 1] != s[1] then Malformed
    else
      var decoded := Decode(s[2..|s| - 1]);
      if decoded.None? then Malformed else Converted(Hex(decoded.value))
  }

  function Prepend(out: Bytes, rest: Option<Bytes>): Option<Bytes> {
    if rest.None? then None else Some(out + rest.value)
  }

  lemma PrependCons(out: Bytes, b: Byte, rest: Option<Bytes>)
    ensures Prepend(out, Cons(b, rest)) == Prepend(out + [b], rest)
  {
    if rest.Some? { assert out + ([b] + rest.value) == (out + [b]) + rest.value; }
  }

  /** The escape whose backslash is at i - 1: its byte and the index after it. */
  method ReadEscape(inner: Bytes, i: nat) returns (ok: bool, b: Byte, next: nat)
    requires 0 < i < |inner| && inner[i - 1] == BACKSLASH
    ensures i < next <= |inner|
    ensures Decode(inner[i - 1..]) == if ok then Cons(b, Decode(inner[next..])) else None
  {
    ghost var rest := inner[i - 1..];
    var c := inner[i];
    assert rest[1] == c && rest[2..] == inner[i + 1..] && rest[1..] == inner[i..];
    if c == LETTER_X {
      if i + 2 >= |inner| { return false, 0, i + 1; }
      var high, low := HexValue(inner[i + 1]), HexValue(inner[i + 2]);
      if high.None? || low.None? { return false, 0, i + 1; }
      assert rest[4..] == inner[i + 3..];
      return true, 16 * high.value + low.value, i + 3;
    }
    if Octal(c) {
      var j := i;
      while j + 1 < |inner| && j - i < 2 && Octal(inner[j + 1])
        invariant i <= j < |inner| && j - i <= 2
        invariant forall k :: i <= k <= j ==> Octal(inner[k])
      {
        j := j + 1;
      }
      assert OctalRun(rest[1..]) == j + 1 - i;
      assert rest[1..1 + (j + 1 - i)] == inner[i..j + 1];
      assert rest[1 + (j + 1 - i)..] == inner[j + 1..];
      var v := OctalValue(inner[i..j + 1]);
      if v > 255 { return false, 0, j + 1; }
      return true, v, j + 1;
    }
    return true, Simple(c), i + 1;
  }

  /** The index loop of pythonBytesLiteralToHex. */
  method PythonBytesLiteralToHex(s: Bytes) returns (r: Conversion)
    ensures r == ToHex(s)
  {
    if |s| < 3 || s[0] != LETTER_B || (s[1] != SINGLE && s[1] != DOUBLE) { return NotLiteral; }
    var quote := s[1];
    if s[|s| - 1] != quote { return Malformed; }
    var inner := s[2..|s| - 1];
    var out: Bytes := [];
    var i := 0;
    assert inner[0..] == inner && forall v: Bytes :: [] + v == v;
    while i < |inner|
      invariant 0 <= i <= |inner|
      invariant Decode(inner) == Prepend(out, Decode(inner[i..]))
    {
      if inner[i] != BACKSLASH {
        assert inner[i..][1..] == inner[i + 1..];
        PrependCons(out, inner[i], Decode(inner[i + 1..]));
        out := out + [inner[i]];
        i := i + 1;
      } else if i + 1 >= |inner| {
        assert Decode(inner[i..]) == Some([BACKSLASH]);
        return Converted(Hex(out + [BACKSLASH]));
      } else {
        var ok, b, next := ReadEscape(inner, i + 1);
        if !ok { return Malformed; }
        PrependCons(out, b, Decode(inner[next..]));
        out := out + [b];
        i := next;
      }
    }
    assert out + [] == out;
    return Converted(Hex(out));
  }

  // ---- Python's repr ----

  /** How repr writes one byte between the given quotes. */
  function ReprByte(c: Byte, quote: Byte): Bytes {
    if c == quote || c == BACKSLASH then [BACKSLASH, c]
    else if c == 9 then [BACKSLASH, 116]
    else if c == 10 then [BACKSLASH, 110]
    else if c == 13 then [BACKSLASH, 114]
    else if c < 32 || c >= 127 then [BACKSLASH, LETTER_X, HexDigit(c / 16), HexDigit(c % 16)]
    else [c]
  }

  function ReprBody(b: Bytes, quote: Byte): Bytes {
    if b == [] then [] else ReprByte(b[0], quote) + ReprBody(b[1..], quote)
  }

  function Repr(b: Bytes, quote: Byte): Bytes {
    [LETTER_B, quote] + ReprBody(b, quote) + [quote]
  }

  lemma HexValueOfDigit(n: int)
    requires 0 <= n < 16
    ensures HexValue(HexDigit(n)) == Some(n)
  {
  }

  lemma DecodeReprByte(c: Byte, quote: Byte, rest: Bytes)
    requires quote == SINGLE || quote == DOUBLE
    ensures Decode(ReprByte(c, quote) + rest) == Cons(c, Decode(rest))
  {
    var s := ReprByte(c, quote) + rest;
    HexValueOfDigit(c / 16);
    HexValueOfDigit(c % 16);
    if |ReprByte(c, quote)| == 1 {
      assert s[1..] == rest;
    } else if |ReprByte(c, quote)| == 2 {
      assert s[2..] == rest;
    } else {
      assert s[4..] == rest;
    }
  }

  lemma {:induction false} DecodeReprBody(b: Bytes, quote: Byte)
    requires quote == SINGLE || quote == DOUBLE
    ensures Decode(ReprBody(b, quote)) == Some(b)
  {
    if b != [] {
      DecodeReprByte(b[0], quote, ReprBody(b[1..], quote));
      DecodeReprBody(b[1..], quote);
      assert b == [b[0]] + b[1..];
    }
  }

  /** Decoding the repr of any bytes value, in either quote style, gives exactly its hex encoding. */
  lemma ReprRoundTrip(b: Bytes, quote: Byte)
    requires quote == SINGLE || quote == DOUBLE
    ensures ToHex(Repr(b, quote)) == Converted(Hex(b))
  {
    var s := Repr(b, quote);
    assert s[2..|s| - 1] == ReprBody(b, quote);
    DecodeReprBody(b, quote);
  }

  const DIGITS: Bytes := [48, 49, 50, 51, 52, 53, 54, 55, 56, 57, 97, 98, 99, 100, 101, 102]

  /** The hex text has two digits per byte, the high one first, in lower case. */
  lemma {:induction false} HexExactly(b: Bytes, i: nat)
    requires i < |b|
    ensures |Hex(b)| == 2 * |b|
    ensures Hex(b)[2 * i] == DIGITS[b[i] / 16] && Hex(b)[2 * i + 1] == DIGITS[b[i] % 16]
  {
    assert forall n :: 0 <= n < 16 ==> HexDigit(n) == DIGITS[n];
    if |b| == 1 {
      assert b[1..] == [];
    } else if i > 0 {
      HexExactly(b[1..], i - 1);
    } else {
      HexExactly(b[1..], 0);
    }
  }

  /** The escape letters of a bytes literal and the bytes they stand for. */
  const ESCAPES: map<Byte, Byte> :=
    map[97 := 7, 98 := 8, 102 := 12, 110 := 10, 114 := 13, 116 := 9, 118 := 11, 92 := 92, 39 := 39, 34 := 34]

  lemma EscapeDecodes(c: Byte, rest: Bytes)
    requires c in ESCAPES
    ensures Decode([BACKSLASH, c] + rest) == Cons(ESCAPES[c], Decode(rest))
  {
    var s := [BACKSLASH, c] + rest;
    assert s[0] == BACKSLASH && s[1] == c && s[2..] == rest;
  }

  /** Three octal digits stand for one byte, or for none when they exceed it. */
  lemma OctalDecodes(x: Byte, y: Byte, z: Byte, rest: Bytes)
    requires Octal(x) && Octal(y) && Octal(z)
    ensures var v := 64 * (x - 48) + 8 * (y - 48) + (z - 48);
            Decode([BACKSLASH, x, y, z] + rest) == if v > 255 then None else Cons(v, Decode(rest))
  {
    var s := [BACKSLASH, x, y, z] + rest;
    assert s[0] == BACKSLASH && s[1] == x && s[2] == y && s[3] == z && s[4..] == rest;
    assert OctalRun(s[1..]) == 3;
    assert s[1..4] == [x, y, z] && [x, y, z][..2] == [x, y] && [x, y][..1] == [x] && [x][..0] == [];
    assert OctalValue([]) == 0 && OctalValue([x]) == x - 48 && OctalValue([x, y]) == 8 * (x - 48) + (y - 48);
  }

  /** Hex text is never itself taken for a literal. */
  lemma HexIsNotLiteral(b: Bytes)
    ensures ToHex(Hex(b)) == NotLiteral
  {
    if b != [] {
      var hex := Hex(b);
      assert hex[1] == HexDigit(b[0] % 16);
    }
  }
}
