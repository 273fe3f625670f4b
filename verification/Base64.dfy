/** Base64 with the standard alphabet and `=` padding (section 4 of RFC 4648). */
module Base64 {
  import opened Wrappers

  type Byte = b: int | 0 <= b < 256
  type Sextet = b: int | 0 <= b < 64

  function SextetChar(x: Sextet): (c: char) {
    if x < 26 then ('A' as int + x) as char
    else if x < 52 then ('a' as int + (x - 26)) as char
    else if x < 62 then ('0' as int + (x - 52)) as char
    else if x == 62 then '+'
    else '/'
  }

  function CharSextet(c: char): Option<Sextet> {
    if 'A' <= c <= 'Z' then Some(c as int - 'A' as int)
    else if 'a' <= c <= 'z' then Some(c as int - 'a' as int + 26)
    else if '0' <= c <= '9' then Some(c as int - '0' as int + 52)
    else if c == '+' then Some(62)
    else if c == '/' then Some(63)
    else None
  }

  /** `Buffer.from(bytes).toString("base64")`. */
  function Encode(b: seq<Byte>): string {
    if |b| == 0 then ""
    else if |b| == 1 then
      [SextetChar(b[0] / 4), SextetChar(b[0] % 4 * 16), '=', '=']
    else if |b| == 2 then
      [SextetChar(b[0] / 4), SextetChar(b[0] % 4 * 16 + b[1] / 16), SextetChar(b[1] % 16 * 4), '=']
    else
      [SextetChar(b[0] / 4), SextetChar(b[0] % 4 * 16 + b[1] / 16),
       SextetChar(b[1] % 16 * 4 + b[2] / 64), SextetChar(b[2] % 64)] + Encode(b[3..])
  }

  /** The bytes a run of whole 24-bit groups stands for; `None` when the text is not base64. */
  function Decode(s: string): Option<seq<Byte>> {
    if |s| == 0 then Some([])
    else if |s| < 4 then None
    else
      match (CharSextet(s[0]), CharSextet(s[1]))
      case (Some(p), Some(q)) =>
        var first := p * 4 + q / 16;
        if s[2] == '=' then
          if |s| == 4 && s[3] == '=' && q % 16 == 0 then Some([first]) else None
        else (
          match CharSextet(s[2])
          case Some(r) =>
            var second := q % 16 * 16 + r / 4;
            if s[3] == '=' then
              if |s| == 4 && r % 4 == 0 then Some([first, second]) else None
            else (
              match CharSextet(s[3])
              case Some(t) => (
                match Decode(s[4..])
                case Some(rest) => Some([first, second, r % 4 * 64 + t] + rest)
                case None => None)
              case None => None)
          case None => None)
      case _ => None
  }

  lemma SextetRoundTrip(x: Sextet)
    ensures CharSextet(SextetChar(x)) == Some(x) && SextetChar(x) != '='
  {
  }

  lemma OneByteRoundTrip(x: Byte)
    ensures Decode(Encode([x])) == Some([x])
  {
    SextetRoundTrip(x / 4);
    SextetRoundTrip(x % 4 * 16);
  }

  lemma TwoByteRoundTrip(x: Byte, y: Byte)
    ensures Decode(Encode([x, y])) == Some([x, y])
  {
    var p, q, r := x / 4, x % 4 * 16 + y / 16, y % 16 * 4;
    var s := [SextetChar(p), SextetChar(q), SextetChar(r), '='];
    SextetRoundTrip(p);
    SextetRoundTrip(q);
    SextetRoundTrip(r);
    assert p * 4 + q / 16 == x && q % 16 * 16 + r / 4 == y && r % 4 == 0;
    assert Decode(s) == Some([x, y]);
    assert Encode([x, y]) == s;
  }

  /** One full group: the four sextets give the three bytes back. */
  lemma GroupRoundTrip(x: Byte, y: Byte, z: Byte)
    ensures var p, q, r, t := x / 4, x % 4 * 16 + y / 16, y % 16 * 4 + z / 64, z % 64;
      p * 4 + q / 16 == x && q % 16 * 16 + r / 4 == y && r % 4 * 64 + t == z
  {
  }

  lemma {:induction false} RoundTrip(b: seq<Byte>)
    ensures Decode(Encode(b)) == Some(b)
  {
    if |b| == 1 {
      assert b == [b[0]];
      OneByteRoundTrip(b[0]);
    } else if |b| == 2 {
      assert b == [b[0], b[1]];
      TwoByteRoundTrip(b[0], b[1]);
    } else if |b| >= 3 {
      RoundTrip(b[3..]);
      GroupStep(b[0], b[1], b[2], b[3..]);
      assert b == [b[0], b[1], b[2]] + b[3..];
    }
  }

  lemma GroupStep(x: Byte, y: Byte, z: Byte, rest: seq<Byte>)
    requires Decode(Encode(rest)) == Some(rest)
    ensures Decode(Encode([x, y, z] + rest)) == Some([x, y, z] + rest)
  {
    var p, q, r, t := x / 4, x % 4 * 16 + y / 16, y % 16 * 4 + z / 64, z % 64;
    hide SextetChar, CharSextet, Encode, Decode;
    EncodeGroup(x, y, z, rest);
    GroupRoundTrip(x, y, z);
    DecodeGroup(p, q, r, t, Encode(rest));
  }

  lemma EncodeGroup(x: Byte, y: Byte, z: Byte, rest: seq<Byte>)
    ensures Encode([x, y, z] + rest)
         == [SextetChar(x / 4), SextetChar(x % 4 * 16 + y / 16),
             SextetChar(y % 16 * 4 + z / 64), SextetChar(z % 64)] + Encode(rest)
  {
    hide SextetChar;
    assert ([x, y, z] + rest)[3..] == rest;
  }

  lemma DecodeGroup(p: Sextet, q: Sextet, r: Sextet, t: Sextet, rest: string)
    requires Decode(rest).Some?
    ensures Decode([SextetChar(p), SextetChar(q), SextetChar(r), SextetChar(t)] + rest)
         == Some([p * 4 + q / 16, q % 16 * 16 + r / 4, r % 4 * 64 + t] + Decode(rest).value)
  {
    var s := [SextetChar(p), SextetChar(q), SextetChar(r), SextetChar(t)] + rest;
    assert s[4..] == rest;
    SextetRoundTrip(p);
    SextetRoundTrip(q);
    SextetRoundTrip(r);
    SextetRoundTrip(t);
    hide SextetChar, CharSextet;
  }

  /** The alphabet, spelled out. */
  lemma AlphabetIs(x: Sextet)
    ensures SextetChar(x) == ("ABCDEFGHIJKLMNOPQRSTUVWXYZ" + "abcdefghijklmnopqrstuvwxyz" + "0123456789" + "+/")[x]
  {
  }

  /** The encodings that section 10 of RFC 4648 gives for f, fo, foo and foobar. */
  lemma KnownEncodings()
    ensures Encode([]) == "" && Encode([102]) == "Zg==" && Encode([102, 111]) == "Zm8="
    ensures Encode([102, 111, 111]) == "Zm9v" && Encode([102, 111, 111, 98, 97, 114]) == "Zm9vYmFy"
  {
    assert [102, 111, 111][3..] == [];
    assert [102, 111, 111, 98, 97, 114][3..] == [98, 97, 114] && [98, 97, 114][3..] == [];
  }

  predicate InAlphabet(c: char) {
    CharSextet(c).Some? || c == '='
  }

  lemma {:induction false} EncodeAlphabet(b: seq<Byte>)
    ensures forall c :: c in Encode(b) ==> InAlphabet(c)
  {
    if |b| >= 3 {
      EncodeAlphabet(b[3..]);
      SextetRoundTrip(b[0] / 4);
      SextetRoundTrip(b[0] % 4 * 16 + b[1] / 16);
      SextetRoundTrip(b[1] % 16 * 4 + b[2] / 64);
      SextetRoundTrip(b[2] % 64);
    }
  }
}
