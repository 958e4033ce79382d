/** robofleet/agents_config.py `_b64url_encode` and `_b64url_decode`: base64url (RFC 4648, section 5) without padding. */
module Base64Url {
  import opened OptionType
  import opened Text

  type Byte = n: nat | n < 256
  type Sextet = n: nat | n < 64

  function CharOf(n: Sextet): (c: char)
    ensures c as int < 128 && c != '=' && c != '.'
  {
    if n < 26 then (n + 'A' as int) as char
    else if n < 52 then (n - 26 + 'a' as int) as char
    else if n < 62 then (n - 52 + '0' as int) as char
    else if n == 62 then '-' else '_'
  }

  /** The decoder's table: the two url-safe characters are translated, their standard forms stay valid. */
  function ValueOf(c: char): Option<Sextet> {
    if 'A' <= c <= 'Z' then Some(c as int - 'A' as int)
    else if 'a' <= c <= 'z' then Some(c as int - 'a' as int + 26)
    else if '0' <= c <= '9' then Some(c as int - '0' as int + 52)
    else if c == '-' || c == '+' then Some(62)
    else if c == '_' || c == '/' then Some(63)
    else None
  }

  /** The url-safe alphabet: capitals, small letters, digits, `-` and `_`, each class in order. */
  lemma AlphabetInOrder(n: Sextet)
    ensures CharOf(0) == 'A' && CharOf(26) == 'a' && CharOf(52) == '0' && CharOf(62) == '-' && CharOf(63) == '_'
    ensures n !in {25, 51, 61, 62, 63} ==> CharOf(n + 1) as int == CharOf(n) as int + 1
  {
  }

  lemma SextetsOfNumber(a: Byte, b: Byte, c: Byte, v: Sextet, w: Sextet, x: Sextet, y: Sextet)
    requires v == a / 4 && w == a % 4 * 16 + b / 16 && x == b % 16 * 4 + c / 64 && y == c % 64
    ensures v * 0x4_0000 + w * 0x1000 + x * 0x40 + y == a * 0x1_0000 + b * 0x100 + c
  {
    var a1, b0, b1, c0 := a % 4, b / 16, b % 16, c / 64;
    assert a == 4 * v + a1 && b == 16 * b0 + b1 && c == 64 * c0 + y;
  }

  /** Three bytes are written as four characters that carry the same number, high bits first. */
  lemma BlockIsNumber(a: Byte, b: Byte, c: Byte, rest: seq<Byte>)
    returns (v: Sextet, w: Sextet, x: Sextet, y: Sextet)
    ensures EncodePadded([a, b, c] + rest) == [CharOf(v), CharOf(w), CharOf(x), CharOf(y)] + EncodePadded(rest)
    ensures v * 0x4_0000 + w * 0x1000 + x * 0x40 + y == a * 0x1_0000 + b * 0x100 + c
  {
    hide CharOf;
    v, w, x, y := a / 4, a % 4 * 16 + b / 16, b % 16 * 4 + c / 64, c % 64;
    SextetsOfNumber(a, b, c, v, w, x, y);
    assert ([a, b, c] + rest)[3..] == rest;
  }

  lemma ValueOfChar(n: Sextet)
    ensures ValueOf(CharOf(n)) == Some(n)
  {
  }

  /** Padded encoding, three bytes at a time. */
  function EncodePadded(data: seq<Byte>): string {
    if data == [] then ""
    else if |data| == 1 then [CharOf(data[0] / 4), CharOf(data[0] % 4 * 16), '=', '=']
    else if |data| == 2 then
      [CharOf(data[0] / 4), CharOf(data[0] % 4 * 16 + data[1] / 16), CharOf(data[1] % 16 * 4), '=']
    else
      [CharOf(data[0] / 4), CharOf(data[0] % 4 * 16 + data[1] / 16),
       CharOf(data[1] % 16 * 4 + data[2] / 64), CharOf(data[2] % 64)] + EncodePadded(data[3..])
  }

  function Encode(data: seq<Byte>): string {
    StripEnd(EncodePadded(data), '=')
  }

  /**
   The library's decoder, which skips characters outside the alphabet: `quad` counts the characters of the current
   group of four, `left` holds the bits not yet written, `pads` the padding seen since the last character. A complete
   padding ends the input; input that ends inside a group is malformed.
   */
  function DecodeFrom(s: string, quad: nat, left: nat, pads: nat): Option<seq<Byte>>
    requires quad < 4
    requires left < (if quad == 0 then 1 else if quad == 1 then 64 else if quad == 2 then 16 else 4)
  {
    if s == "" then (if quad == 0 then Some([]) else None)
    else if s[0] == '=' then
      if quad >= 2 && quad + pads + 1 >= 4 then Some([])
      else DecodeFrom(s[1..], quad, left, if quad >= 2 then pads + 1 else pads)
    else match ValueOf(s[0])
      case None => DecodeFrom(s[1..], quad, left, pads)
      case Some(v) =>
        if quad == 0 then DecodeFrom(s[1..], 1, v, 0)
        else if quad == 1 then Emit(left * 4 + v / 16, DecodeFrom(s[1..], 2, v % 16, 0))
        else if quad == 2 then Emit(left * 16 + v / 4, DecodeFrom(s[1..], 3, v % 4, 0))
        else Emit(left * 64 + v, DecodeFrom(s[1..], 0, 0, 0))
  }

  function Emit(b: Byte, rest: Option<seq<Byte>>): Option<seq<Byte>> {
    match rest
    case None => None
    case Some(bytes) => Some([b] + bytes)
  }

  function Padding(s: string): string {
    seq(-|s| % 4, _ => '=')
  }

  /** Padding is restored from the length before decoding. */
  function Decode(s: string): Option<seq<Byte>> {
    DecodeFrom(s + Padding(s), 0, 0, 0)
  }

  /** One alphabet character read in each position of its group. */
  lemma DecodeChar(v: Sextet, rest: string, left: nat)
    ensures DecodeFrom([CharOf(v)] + rest, 0, 0, 0) == DecodeFrom(rest, 1, v, 0)
    ensures left < 64 ==>
              DecodeFrom([CharOf(v)] + rest, 1, left, 0) == Emit(left * 4 + v / 16, DecodeFrom(rest, 2, v % 16, 0))
    ensures left < 16 ==>
              DecodeFrom([CharOf(v)] + rest, 2, left, 0) == Emit(left * 16 + v / 4, DecodeFrom(rest, 3, v % 4, 0))
    ensures left < 4 ==>
              DecodeFrom([CharOf(v)] + rest, 3, left, 0) == Emit(left * 64 + v, DecodeFrom(rest, 0, 0, 0))
  {
    hide CharOf, ValueOf, Emit;
    ValueOfChar(v);
    assert ([CharOf(v)] + rest)[1..] == rest;
  }

  lemma DecodePair(c0: Sextet, c1: Sextet, rest: string)
    ensures DecodeFrom([CharOf(c0), CharOf(c1)] + rest, 0, 0, 0) ==
            Emit(c0 * 4 + c1 / 16, DecodeFrom(rest, 2, c1 % 16, 0))
  {
    hide CharOf, DecodeFrom, Emit;
    DecodeChar(c0, [CharOf(c1)] + rest, 0);
    DecodeChar(c1, rest, c0);
    assert [CharOf(c0), CharOf(c1)] + rest == [CharOf(c0)] + ([CharOf(c1)] + rest);
  }

  lemma DecodeTriple(c0: Sextet, c1: Sextet, c2: Sextet, rest: string)
    ensures DecodeFrom([CharOf(c0), CharOf(c1), CharOf(c2)] + rest, 0, 0, 0) ==
            Emit(c0 * 4 + c1 / 16, Emit(c1 % 16 * 16 + c2 / 4, DecodeFrom(rest, 3, c2 % 4, 0)))
  {
    hide CharOf, DecodeFrom, Emit;
    DecodePair(c0, c1, [CharOf(c2)] + rest);
    DecodeChar(c2, rest, c1 % 16);
    assert [CharOf(c0), CharOf(c1), CharOf(c2)] + rest == [CharOf(c0), CharOf(c1)] + ([CharOf(c2)] + rest);
  }

  lemma DecodeQuad(c0: Sextet, c1: Sextet, c2: Sextet, c3: Sextet, rest: string)
    ensures DecodeFrom([CharOf(c0), CharOf(c1), CharOf(c2), CharOf(c3)] + rest, 0, 0, 0) ==
            Emit(c0 * 4 + c1 / 16, Emit(c1 % 16 * 16 + c2 / 4, Emit(c2 % 4 * 64 + c3, DecodeFrom(rest, 0, 0, 0))))
  {
    hide CharOf, DecodeFrom, Emit;
    DecodeTriple(c0, c1, c2, [CharOf(c3)] + rest);
    DecodeChar(c3, rest, c2 % 4);
    assert [CharOf(c0), CharOf(c1), CharOf(c2), CharOf(c3)] + rest
        == [CharOf(c0), CharOf(c1), CharOf(c2)] + ([CharOf(c3)] + rest);
  }

  lemma DecodePads()
    ensures DecodeFrom("==", 2, 0, 0) == Some([]) && DecodeFrom("=", 3, 0, 0) == Some([])
  {
    assert "=="[1..] == "=";
    assert DecodeFrom("=", 2, 0, 1) == Some([]);
  }

  lemma {:induction false} DecodePadded(data: seq<Byte>)
    ensures DecodeFrom(EncodePadded(data), 0, 0, 0) == Some(data)
  {
    hide CharOf, ValueOf, DecodeFrom;
    if data == [] {
      DecodeEmpty();
    } else if |data| == 1 {
      DecodeOne(data[0]);
      assert data == [data[0]];
    } else if |data| == 2 {
      DecodeTwo(data[0], data[1]);
      assert data == [data[0], data[1]];
    } else {
      DecodePadded(data[3..]);
      DecodeBlock(data[0], data[1], data[2], EncodePadded(data[3..]), data[3..]);
      assert data == [data[0], data[1], data[2]] + data[3..];
    }
  }

  lemma DecodeEmpty()
    ensures DecodeFrom("", 0, 0, 0) == Some([])
  {
  }

  lemma DecodeOne(a: Byte)
    ensures DecodeFrom([CharOf(a / 4), CharOf(a % 4 * 16), '=', '='], 0, 0, 0) == Some([a])
  {
    hide CharOf, DecodeFrom;
    DecodePads();
    DecodePair(a / 4, a % 4 * 16, "==");
    assert [a] + [] == [a];
    assert (a % 4 * 16) % 16 == 0 && a / 4 * 4 + (a % 4 * 16) / 16 == a;
    assert [CharOf(a / 4), CharOf(a % 4 * 16), '=', '='] == [CharOf(a / 4), CharOf(a % 4 * 16)] + "==";
  }

  lemma DecodeTwo(a: Byte, b: Byte)
    ensures DecodeFrom([CharOf(a / 4), CharOf(a % 4 * 16 + b / 16), CharOf(b % 16 * 4), '='], 0, 0, 0) == Some([a, b])
  {
    hide CharOf, DecodeFrom;
    DecodePads();
    DecodeTriple(a / 4, a % 4 * 16 + b / 16, b % 16 * 4, "=");
    Reassemble(a, b, 0);
    assert [a] + ([b] + []) == [a, b];
    assert (b % 16 * 4) % 4 == 0 && (b % 16 * 4) / 4 == b % 16;
    assert (a % 4 * 16 + b / 16) % 16 * 16 + b % 16 == b;
    assert [CharOf(a / 4), CharOf(a % 4 * 16 + b / 16), CharOf(b % 16 * 4), '=']
        == [CharOf(a / 4), CharOf(a % 4 * 16 + b / 16), CharOf(b % 16 * 4)] + "=";
  }

  lemma DecodeBlock(a: Byte, b: Byte, c: Byte, rest: string, bytes: seq<Byte>)
    requires DecodeFrom(rest, 0, 0, 0) == Some(bytes)
    ensures DecodeFrom([CharOf(a / 4), CharOf(a % 4 * 16 + b / 16), CharOf(b % 16 * 4 + c / 64), CharOf(c % 64)] + rest,
                       0, 0, 0) == Some([a, b, c] + bytes)
  {
    hide CharOf, DecodeFrom;
    DecodeQuad(a / 4, a % 4 * 16 + b / 16, b % 16 * 4 + c / 64, c % 64, rest);
    Reassemble(a, b, c);
    assert [a] + ([b] + ([c] + bytes)) == [a, b, c] + bytes;
  }

  lemma Reassemble(a: Byte, b: Byte, c: Byte)
    ensures a / 4 * 4 + (a % 4 * 16 + b / 16) / 16 == a
    ensures (a % 4 * 16 + b / 16) % 16 * 16 + (b % 16 * 4 + c / 64) / 4 == b
    ensures (b % 16 * 4 + c / 64) % 4 * 64 + c % 64 == c
  {
  }

  lemma {:induction false} StripBlock(p: string, s: string)
    requires s != "" ==> StripEnd(s, '=') != ""
    requires p != "" && p[|p| - 1] != '='
    ensures StripEnd(p + s, '=') == p + StripEnd(s, '=')
    decreases |s|
  {
    if s == "" {
      assert p + s == p;
    } else if s[|s| - 1] == '=' {
      assert (p + s)[..|p + s| - 1] == p + s[..|s| - 1];
      StripBlock(p, s[..|s| - 1]);
    }
  }

  lemma {:induction false} StripsAll(p: string, n: nat)
    requires p != "" && p[|p| - 1] != '='
    ensures StripEnd(p + seq(n, _ => '='), '=') == p
  {
    var s := p + seq(n, _ => '=');
    if n == 0 {
      assert s == p;
    } else {
      assert s[..|s| - 1] == p + seq(n - 1, _ => '=');
      StripsAll(p, n - 1);
    }
  }

  /** The decoder reads past any character outside both alphabets, wherever it stands. */
  lemma {:induction false} OtherCharactersAreSkipped(a: string, c: char, b: string, quad: nat, left: nat, pads: nat)
    requires quad < 4 && left < (if quad == 0 then 1 else if quad == 1 then 64 else if quad == 2 then 16 else 4)
    requires !('A' <= c <= 'Z') && !('a' <= c <= 'z') && !('0' <= c <= '9') && c !in "-_+/="
    ensures DecodeFrom(a + [c] + b, quad, left, pads) == DecodeFrom(a + b, quad, left, pads)
    decreases a
  {
    if a == "" {
      OtherCharacter(c);
      hide ValueOf, Emit, DecodeFrom;
      assert a + [c] + b == [c] + b && a + b == b && ([c] + b)[1..] == b;
      DecodeStep([c] + b, quad, left, pads);
    } else {
      hide ValueOf, Emit, DecodeFrom;
      var x, y, rest := a + [c] + b, a + b, a[1..];
      assert x[0] == y[0] == a[0] && x[1..] == rest + [c] + b && y[1..] == rest + b;
      DecodeStep(x, quad, left, pads);
      DecodeStep(y, quad, left, pads);
      if a[0] != '=' && ValueOf(a[0]).Some? {
        OtherCharactersAreSkipped(rest, c, b, (quad + 1) % 4, LeftAfter(quad, ValueOf(a[0]).value), 0);
      } else {
        OtherCharactersAreSkipped(rest, c, b, quad, left, if a[0] == '=' && quad >= 2 then pads + 1 else pads);
      }
    }
  }

  lemma OtherCharacter(c: char)
    requires !('A' <= c <= 'Z') && !('a' <= c <= 'z') && !('0' <= c <= '9') && c !in "-_+/="
    ensures ValueOf(c).None? && c != '='
  {
  }

  /** One character read. */
  lemma DecodeStep(s: string, quad: nat, left: nat, pads: nat)
    requires s != "" && quad < 4
    requires left < (if quad == 0 then 1 else if quad == 1 then 64 else if quad == 2 then 16 else 4)
    ensures s[0] != '=' && ValueOf(s[0]).Some? ==>
              var v := ValueOf(s[0]).value;
              var next := DecodeFrom(s[1..], (quad + 1) % 4, LeftAfter(quad, v), 0);
              DecodeFrom(s, quad, left, pads) == if quad == 0 then next else Emit(ByteWith(quad, left, v), next)
    ensures s[0] != '=' && ValueOf(s[0]).None? ==> DecodeFrom(s, quad, left, pads) == DecodeFrom(s[1..], quad, left, pads)
    ensures s[0] == '=' ==>
              DecodeFrom(s, quad, left, pads) ==
              if quad >= 2 && quad + pads + 1 >= 4 then Some([])
              else DecodeFrom(s[1..], quad, left, if quad >= 2 then pads + 1 else pads)
  {
    hide ValueOf, Emit;
  }

  /** The byte completed by a character. */
  function ByteWith(quad: nat, left: nat, v: Sextet): Byte
    requires 0 < quad < 4 && left < (if quad == 1 then 64 else if quad == 2 then 16 else 4)
  {
    if quad == 1 then left * 4 + v / 16 else if quad == 2 then left * 16 + v / 4 else left * 64 + v
  }

  /** The bits of a character that its group has not yet written. */
  function LeftAfter(quad: nat, v: Sextet): (left: nat)
    requires quad < 4
    ensures left < (if quad == 3 then 1 else if quad == 0 then 64 else if quad == 1 then 16 else 4)
  {
    if quad == 0 then v else if quad == 1 then v % 16 else if quad == 2 then v % 4 else 0
  }

  /** Removing the padding loses nothing: its length is a function of what remains. */
  lemma {:induction false} PaddingRestored(data: seq<Byte>)
    ensures Encode(data) + Padding(Encode(data)) == EncodePadded(data)
    ensures EncodePadded(data) != "" ==> Encode(data) != ""
  {
    hide CharOf;
    var e := EncodePadded(data);
    if 1 <= |data| <= 2 {
      var k := |data| + 1;
      assert e == e[..k] + seq(4 - k, _ => '=');
      StripsAll(e[..k], 4 - k);
    } else if |data| >= 3 {
      PaddingRestored(data[3..]);
      PaddedBlock(e[..4], EncodePadded(data[3..]));
    }
  }

  lemma PaddedBlock(p: string, rest: string)
    requires |p| == 4 && p[3] != '='
    requires var s := StripEnd(rest, '='); s + Padding(s) == rest && (rest != "" ==> s != "")
    ensures var s := StripEnd(p + rest, '='); s + Padding(s) == p + rest && s != ""
  {
    hide StripEnd, Padding;
    var s := StripEnd(rest, '=');
    StripBlock(p, rest);
    PaddingPeriod(p, s);
    Assoc(p, s, Padding(s));
  }

  lemma PaddingPeriod(p: string, s: string)
    requires |p| == 4
    ensures Padding(p + s) == Padding(s)
  {
  }

  /** Decoding undoes encoding, for every byte string of every length. */
  lemma RoundTrip(data: seq<Byte>)
    ensures Decode(Encode(data)) == Some(data)
  {
    hide Encode, EncodePadded, DecodeFrom, Padding;
    PaddingRestored(data);
    DecodePadded(data);
  }

  /** Encoded text is ASCII and holds no dot. */
  lemma {:induction false} EncodedIsPlain(data: seq<Byte>)
    ensures forall i | 0 <= i < |Encode(data)| :: Encode(data)[i] as int < 128 && Encode(data)[i] != '.'
  {
    hide CharOf;
    PaddedIsPlain(data);
    PaddingRestored(data);
    var s := Encode(data);
    assert forall i | 0 <= i < |s| :: EncodePadded(data)[i] == s[i];
  }

  lemma {:induction false} PaddedIsPlain(data: seq<Byte>)
    ensures forall i | 0 <= i < |EncodePadded(data)| :: EncodePadded(data)[i] as int < 128 && EncodePadded(data)[i] != '.'
  {
    hide CharOf;
    if |data| >= 3 {
      PaddedIsPlain(data[3..]);
    }
  }
}
