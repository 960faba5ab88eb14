/** The application/x-www-form-urlencoded format of section 5 of the WHATWG URL
    Standard. `new URLSearchParams(params).toString()` runs the serializer of
    section 5.2; the parser of section 5.1 is what a server applies to the query,
    and is modelled here as the serializer's reference inverse. Strings are
    sequences of Unicode scalar values, encoded to bytes with UTF-8 (section 3 of
    RFC 3629). */
module UrlEncoded {
  import opened Wrappers

  type Byte = b: int | 0 <= b < 256

  // ---------------------------------------------------------------- UTF-8

  predicate IsContinuation(b: Byte) { 0x80 <= b < 0xC0 }

  /** The UTF-8 encoding of one scalar value: one byte below U+0080, else a lead
      byte followed by continuation bytes carrying six bits each. */
  function EncodeChar(c: char): (bs: seq<Byte>)
    ensures 1 <= |bs| <= 4
    ensures |bs| == 1 <==> c as int < 0x80
    ensures |bs| == 1 ==> bs[0] == c as int
    ensures forall i :: 1 <= i < |bs| ==> IsContinuation(bs[i])
  {
    var x := c as int;
    var r1, q1 := x % 64, x / 64;
    var r2, q2 := q1 % 64, q1 / 64;
    var r3, q3 := q2 % 64, q2 / 64;
    if x < 0x80 then [x]
    else if x < 0x800 then [0xC0 + q1, 0x80 + r1]
    else if x < 0x1_0000 then [0xE0 + q2, 0x80 + r2, 0x80 + r1]
    else [0xF0 + q3, 0x80 + r3, 0x80 + r2, 0x80 + r1]
  }

  function Utf8Encode(s: string): seq<Byte>
  {
    if s == [] then [] else EncodeChar(s[0]) + Utf8Encode(s[1..])
  }

  /** The first scalar value of `bs` and the number of bytes it occupies, or
      `None` when `bs` does not start with a well-formed, shortest-form encoding
      of a scalar value. */
  function DecodeFirst(bs: seq<Byte>): (r: Option<(char, nat)>)
    ensures r.Some? ==> 1 <= r.value.1 <= |bs|
  {
    if |bs| == 0 then None
    else if bs[0] < 0x80 then Some((bs[0] as char, 1))
    else if 0xC0 <= bs[0] < 0xE0 then
      if |bs| < 2 || !IsContinuation(bs[1]) then None
      else
        var x := (bs[0] as int - 0xC0) * 64 + (bs[1] as int - 0x80);
        if x < 0x80 then None else Some((x as char, 2))
    else if 0xE0 <= bs[0] < 0xF0 then
      if |bs| < 3 || !IsContinuation(bs[1]) || !IsContinuation(bs[2]) then None
      else
        var x := (bs[0] as int - 0xE0) * 4096 + (bs[1] as int - 0x80) * 64 + (bs[2] as int - 0x80);
        if x < 0x800 || 0xD800 <= x < 0xE000 then None else Some((x as char, 3))
    else if 0xF0 <= bs[0] < 0xF8 then
      if |bs| < 4 || !IsContinuation(bs[1]) || !IsContinuation(bs[2]) || !IsContinuation(bs[3]) then None
      else
        var x := (bs[0] as int - 0xF0) * 262144 + (bs[1] as int - 0x80) * 4096 +
                (bs[2] as int - 0x80) * 64 + (bs[3] as int - 0x80);
        if x < 0x1_0000 || 0x11_0000 <= x then None else Some((x as char, 4))
    else None
  }

  /** Strict UTF-8 decoding: `None` on any malformed sequence. */
  function Utf8Decode(bs: seq<Byte>): Option<string>
    decreases |bs|
  {
    if bs == [] then Some([])
    else match DecodeFirst(bs)
      case None => None
      case Some((c, n)) =>
        match Utf8Decode(bs[n..])
        case None => None
        case Some(rest) => Some([c] + rest)
  }

  lemma DecodeFirstEncodeChar(c: char, rest: seq<Byte>)
    ensures DecodeFirst(EncodeChar(c) + rest) == Some((c, |EncodeChar(c)|))
  {
    var x := c as int;
    var r1, q1 := x % 64, x / 64;
    var r2, q2 := q1 % 64, q1 / 64;
    var r3, q3 := q2 % 64, q2 / 64;
    assert x == q1 * 64 + r1 && q1 == q2 * 64 + r2 && q2 == q3 * 64 + r3;
    if x < 0x80 {
    } else if x < 0x800 {
      assert (q1 * 64 + r1) as char == c;
    } else if x < 0x1_0000 {
      assert q2 * 4096 + r2 * 64 + r1 == x;
      assert (q2 * 4096 + r2 * 64 + r1) as char == c;
    } else {
      assert q3 * 262144 + r3 * 4096 + r2 * 64 + r1 == x;
      assert (q3 * 262144 + r3 * 4096 + r2 * 64 + r1) as char == c;
    }
  }

  /** Decoding undoes encoding: UTF-8 loses nothing. */
  lemma {:induction false} Utf8RoundTrip(s: string)
    ensures Utf8Decode(Utf8Encode(s)) == Some(s)
  {
    if s != [] {
      var head := EncodeChar(s[0]);
      var tail := Utf8Encode(s[1..]);
      DecodeFirstEncodeChar(s[0], tail);
      assert (head + tail)[|head|..] == tail;
      Utf8RoundTrip(s[1..]);
      assert [s[0]] + s[1..] == s;
    }
  }

  // ------------------------------------------------------- percent-encoding

  /** The bytes the serializer copies unchanged: ASCII alphanumerics and
      `*`, `-`, `.`, `_`. */
  predicate IsUnreserved(b: int)
  {
    b == 0x2A || b == 0x2D || b == 0x2E || 0x30 <= b <= 0x39 ||
    0x41 <= b <= 0x5A || b == 0x5F || 0x61 <= b <= 0x7A
  }

  /** The characters the serializer can produce. */
  predicate IsSerializedChar(c: char)
  {
    c == '+' || c == '%' || IsUnreserved(c as int)
  }

  function HexDigit(d: nat): (c: char)
    requires d < 16
    ensures IsUnreserved(c as int)
  {
    if d < 10 then ('0' as int + d) as char else ('A' as int + d - 10) as char
  }

  predicate IsHexDigit(c: char)
  {
    '0' <= c <= '9' || 'A' <= c <= 'F' || 'a' <= c <= 'f'
  }

  function HexValue(c: char): (d: nat)
    requires IsHexDigit(c)
    ensures d < 16
  {
    if c <= '9' then c as int - '0' as int
    else if c <= 'F' then c as int - 'A' as int + 10
    else c as int - 'a' as int + 10
  }

  /** The serializer on one byte: space becomes `+`, unreserved bytes are kept,
      every other byte becomes `%` and two upper-case hexadecimal digits. */
  function SerializeByte(b: Byte): (s: string)
    ensures 1 <= |s| <= 3
    ensures forall i :: 0 <= i < |s| ==> IsSerializedChar(s[i])
  {
    if b == 0x20 then "+"
    else if IsUnreserved(b) then [b as char]
    else ['%', HexDigit(b / 16), HexDigit(b % 16)]
  }

  function SerializeBytes(bs: seq<Byte>): (s: string)
    ensures forall i :: 0 <= i < |s| ==> IsSerializedChar(s[i])
  {
    if bs == [] then "" else SerializeByte(bs[0]) + SerializeBytes(bs[1..])
  }

  /** One name or value: UTF-8, then the byte serializer. */
  function SerializeString(s: string): (r: string)
    ensures '&' !in r && '=' !in r && ' ' !in r
  {
    SerializeBytes(Utf8Encode(s))
  }

  function SerializePair(p: (string, string)): (s: string)
    ensures '&' !in s && '=' in s
  {
    var s := SerializeString(p.0) + "=" + SerializeString(p.1);
    assert s[|SerializeString(p.0)|] == '=';
    s
  }

  /** `new URLSearchParams(pairs).toString()`: every pair as `name=value`, in
      the given order, separated by `&`; no pair is dropped or reordered. */
  function Serialize(pairs: seq<(string, string)>): (q: string)
    ensures q == "" <==> pairs == []
  {
    if |pairs| == 0 then ""
    else if |pairs| == 1 then SerializePair(pairs[0])
    else SerializePair(pairs[0]) + "&" + Serialize(pairs[1..])
  }

  // ------------------------------------------------------------ the parser

  /** The pieces of `s` between occurrences of `sep`. */
  function Split(s: string, sep: char): (parts: seq<string>)
    ensures |parts| >= 1
    decreases |s|
  {
    if |s| == 0 then [""]
    else
      var rest := Split(s[1..], sep);
      if s[0] == sep then [""] + rest else [[s[0]] + rest[0]] + rest[1..]
  }

  /** The text before the first `sep` and the text after it; the whole text and
      the empty string when there is no `sep`. */
  function SplitAtFirst(s: string, sep: char): (string, string)
    decreases |s|
  {
    if |s| == 0 then ("", "")
    else if s[0] == sep then ("", s[1..])
    else
      var (a, b) := SplitAtFirst(s[1..], sep);
      ([s[0]] + a, b)
  }

  /** Percent-decoding of the UTF-8 bytes of `s`, with `+` read as a space. */
  function PercentDecode(s: string): seq<Byte>
    decreases |s|
  {
    if |s| == 0 then []
    else if s[0] == '%' && |s| >= 3 && IsHexDigit(s[1]) && IsHexDigit(s[2]) then
      [HexValue(s[1]) * 16 + HexValue(s[2])] + PercentDecode(s[3..])
    else if s[0] == '+' then [0x20] + PercentDecode(s[1..])
    else EncodeChar(s[0]) + PercentDecode(s[1..])
  }

  function DecodeString(s: string): Option<string>
  {
    Utf8Decode(PercentDecode(s))
  }

  function ParsePair(p: string): Option<(string, string)>
  {
    var (name, value) := SplitAtFirst(p, '=');
    match (DecodeString(name), DecodeString(value))
    case (Some(n), Some(v)) => Some((n, v))
    case _ => None
  }

  /** Empty pieces are skipped; `None` if a piece does not decode. */
  function ParsePieces(pieces: seq<string>): Option<seq<(string, string)>>
  {
    if pieces == [] then Some([])
    else if pieces[0] == "" then ParsePieces(pieces[1..])
    else match (ParsePair(pieces[0]), ParsePieces(pieces[1..]))
      case (Some(p), Some(ps)) => Some([p] + ps)
      case _ => None
  }

  lemma ParsePiecesCons(piece: string, rest: seq<string>)
    requires piece != "" && ParsePair(piece).Some? && ParsePieces(rest).Some?
    ensures ParsePieces([piece] + rest) == Some([ParsePair(piece).value] + ParsePieces(rest).value)
  {
    assert ([piece] + rest)[0] == piece;
    assert ([piece] + rest)[1..] == rest;
  }

  /** The form-urlencoded parser of section 5.1, strict about UTF-8. */
  function Parse(q: string): Option<seq<(string, string)>>
  {
    ParsePieces(Split(q, '&'))
  }

  // ------------------------------------------------------------ round trips

  lemma {:induction false} SplitWithoutSeparator(a: string, sep: char)
    requires sep !in a
    ensures Split(a, sep) == [a]
  {
    if a != [] {
      SplitWithoutSeparator(a[1..], sep);
      assert [a[0]] + a[1..] == a;
    }
  }

  lemma {:induction false} SplitAtSeparator(a: string, sep: char, b: string)
    requires sep !in a
    ensures Split(a + [sep] + b, sep) == [a] + Split(b, sep)
  {
    if a == [] {
      assert ([sep] + b)[1..] == b;
    } else {
      SplitAtSeparator(a[1..], sep, b);
      assert (a + [sep] + b)[1..] == a[1..] + [sep] + b;
      assert [a[0]] + a[1..] == a;
    }
  }

  lemma {:induction false} SplitAtFirstSeparator(a: string, sep: char, b: string)
    requires sep !in a
    ensures SplitAtFirst(a + [sep] + b, sep) == (a, b)
  {
    if a == [] {
      assert ([sep] + b)[1..] == b;
    } else {
      SplitAtFirstSeparator(a[1..], sep, b);
      assert (a + [sep] + b)[1..] == a[1..] + [sep] + b;
      assert [a[0]] + a[1..] == a;
    }
  }

  lemma {:induction false} SplitAtFirstWithoutSeparator(a: string, sep: char)
    requires sep !in a
    ensures SplitAtFirst(a, sep) == (a, "")
  {
    if a != [] {
      SplitAtFirstWithoutSeparator(a[1..], sep);
      assert [a[0]] + a[1..] == a;
    }
  }

  /** ASCII text without `%` and `+` decodes to itself. */
  lemma {:induction false} DecodePlain(s: string)
    requires forall i :: 0 <= i < |s| ==> s[i] as int < 0x80 && s[i] != '%' && s[i] != '+'
    ensures DecodeString(s) == Some(s)
  {
    PercentDecodePlain(s);
    Utf8RoundTrip(s);
  }

  lemma {:induction false} PercentDecodePlain(s: string)
    requires forall i :: 0 <= i < |s| ==> s[i] != '%' && s[i] != '+'
    ensures PercentDecode(s) == Utf8Encode(s)
  {
    if s != [] {
      PercentDecodePlain(s[1..]);
    }
  }

  lemma PercentDecodeSerializeByte(b: Byte, t: string)
    ensures PercentDecode(SerializeByte(b) + t) == [b] + PercentDecode(t)
  {
    var s := SerializeByte(b) + t;
    if b == 0x20 {
      assert s[1..] == t;
    } else if IsUnreserved(b) {
      assert s[1..] == t;
    } else {
      assert s[3..] == t;
      assert HexValue(HexDigit(b / 16)) == b / 16;
      assert HexValue(HexDigit(b % 16)) == b % 16;
    }
  }

  lemma {:induction false} PercentDecodeSerializeBytes(bs: seq<Byte>)
    ensures PercentDecode(SerializeBytes(bs)) == bs
  {
    if bs != [] {
      PercentDecodeSerializeByte(bs[0], SerializeBytes(bs[1..]));
      PercentDecodeSerializeBytes(bs[1..]);
      assert [bs[0]] + bs[1..] == bs;
    }
  }

  /** A serialized name or value decodes back to itself. */
  lemma DecodeSerializeString(s: string)
    ensures DecodeString(SerializeString(s)) == Some(s)
  {
    PercentDecodeSerializeBytes(Utf8Encode(s));
    Utf8RoundTrip(s);
  }

  function PairTexts(pairs: seq<(string, string)>): seq<string>
  {
    if pairs == [] then [] else [SerializePair(pairs[0])] + PairTexts(pairs[1..])
  }

  lemma {:induction false} SplitSerialize(pairs: seq<(string, string)>)
    requires pairs != []
    ensures Split(Serialize(pairs), '&') == PairTexts(pairs)
  {
    if |pairs| == 1 {
      SplitWithoutSeparator(SerializePair(pairs[0]), '&');
    } else {
      SplitAtSeparator(SerializePair(pairs[0]), '&', Serialize(pairs[1..]));
      SplitSerialize(pairs[1..]);
    }
  }

  lemma {:induction false} ParsePairTexts(pairs: seq<(string, string)>)
    ensures ParsePieces(PairTexts(pairs)) == Some(pairs)
  {
    if pairs != [] {
      var p := pairs[0];
      var text := SerializePair(p);
      SplitAtFirstSeparator(SerializeString(p.0), '=', SerializeString(p.1));
      DecodeSerializeString(p.0);
      DecodeSerializeString(p.1);
      assert text != "";
      assert PairTexts(pairs)[1..] == PairTexts(pairs[1..]);
      ParsePairTexts(pairs[1..]);
      assert [p] + pairs[1..] == pairs;
    }
  }

  /** Parsing a serialized query gives back exactly the pairs, in order, whatever
      characters the names and values contain. */
  lemma ParseSerialize(pairs: seq<(string, string)>)
    ensures Parse(Serialize(pairs)) == Some(pairs)
  {
    if pairs != [] {
      SplitSerialize(pairs);
      ParsePairTexts(pairs);
    }
  }

  /** On text made only of unreserved ASCII characters the serializer is the
      identity. */
  lemma {:induction false} SerializeUnreserved(s: string)
    requires forall i :: 0 <= i < |s| ==> IsUnreserved(s[i] as int)
    ensures SerializeString(s) == s
  {
    if s != [] {
      SerializeUnreserved(s[1..]);
      assert Utf8Encode(s) == [s[0] as int] + Utf8Encode(s[1..]);
      assert [s[0]] + s[1..] == s;
    }
  }
}
