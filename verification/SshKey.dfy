/**
 * SSH key encodings: multiple-precision integers (section 5 of RFC 4251), the `ssh-rsa` public key
 * (section 6.6 of RFC 4253) and the reader that lifts the public key out of an OpenSSH private key.
 */
module SshKey {
  import opened Wrappers
  import Base64

  type Byte = Base64.Byte

  const LIMIT := 0x1_0000_0000

  /* ---------- numbers ---------- */

  function Pow256(n: nat): (p: nat)
    ensures p >= 1
  {
    if n == 0 then 1 else Pow256(n - 1) * 256
  }

  /** Big-endian value. */
  function Unsigned(bs: seq<Byte>): nat {
    if bs == [] then 0 else Unsigned(bs[..|bs| - 1]) * 256 + bs[|bs| - 1]
  }

  /** Value of an mpint's bytes. */
  function TwosComplement(bs: seq<Byte>): int {
    if bs != [] && bs[0] >= 128 then Unsigned(bs) - Pow256(|bs|) else Unsigned(bs)
  }

  /** No unnecessary leading byte; zero has no bytes at all. */
  predicate Minimal(bs: seq<Byte>) {
    || bs == []
    || (|bs| == 1 && bs[0] != 0)
    || (|bs| > 1 && !(bs[0] == 0 && bs[1] < 128) && !(bs[0] == 255 && bs[1] >= 128))
  }

  lemma {:induction false} UnsignedBound(bs: seq<Byte>)
    ensures Unsigned(bs) < Pow256(|bs|)
    ensures bs != [] && bs[0] > 0 ==> Unsigned(bs) >= Pow256(|bs| - 1)
  {
    if bs != [] {
      var front := bs[..|bs| - 1];
      UnsignedBound(front);
      assert |front| > 0 ==> front[0] == bs[0];
    }
  }

  lemma {:induction false} UnsignedFront(b: Byte, bs: seq<Byte>)
    ensures Unsigned([b] + bs) == b * Pow256(|bs|) + Unsigned(bs)
  {
    var s := [b] + bs;
    if bs == [] {
      assert s[..|s| - 1] == [];
      assert Unsigned(s) == 0 * 256 + b;
    } else {
      var front := bs[..|bs| - 1];
      assert s[..|s| - 1] == [b] + front;
      UnsignedFront(b, front);
      assert (b * Pow256(|front|) + Unsigned(front)) * 256 == b * (Pow256(|front|) * 256) + Unsigned(front) * 256;
    }
  }

  /** Two byte strings of the same length and value are the same. */
  lemma {:induction false} SameLengthSameBytes(x: seq<Byte>, y: seq<Byte>)
    requires |x| == |y| && Unsigned(x) == Unsigned(y)
    ensures x == y
  {
    if x != [] {
      var n := |x| - 1;
      SameLengthSameBytes(x[..n], y[..n]);
      assert x == x[..n] + [x[n]] && y == y[..n] + [y[n]];
    }
  }

  lemma {:induction false} PowGrows(m: nat, n: nat)
    requires m <= n
    ensures Pow256(m) <= Pow256(n)
  {
    if m < n {
      PowGrows(m, n - 1);
    }
  }

  /* ---------- mpint ---------- */

  function Stripped(raw: seq<Byte>): seq<Byte> {
    if |raw| > 1 && raw[0] == 0 then Stripped(raw[1..]) else raw
  }

  function Padded(bytes: seq<Byte>): seq<Byte> {
    if bytes != [] && bytes[0] >= 128 then [0] + bytes else bytes
  }

  /** The bytes after the length prefix. */
  function MpintBody(raw: seq<Byte>): seq<Byte> {
    Padded(Stripped(raw))
  }

  function U32(n: nat): (r: seq<Byte>)
    requires n < LIMIT
    ensures |r| == 4
  {
    var a := n / 256;
    var b := a / 256;
    [b / 256, b % 256, a % 256, n % 256]
  }

  /** An SSH string: a length and the bytes. */
  function Str(s: seq<Byte>): seq<Byte>
    requires |s| < LIMIT
  {
    U32(|s|) + s
  }

  /** `encodeMpint`. */
  function Mpint(raw: seq<Byte>): seq<Byte>
    requires Short(raw)
  {
    StrippedShorter(raw);
    Str(MpintBody(raw))
  }

  lemma {:induction false} StrippedShorter(raw: seq<Byte>)
    ensures |Stripped(raw)| <= |raw|
    ensures Unsigned(Stripped(raw)) == Unsigned(raw)
    ensures raw != [] ==> Stripped(raw) != []
    ensures |Stripped(raw)| > 1 ==> Stripped(raw)[0] > 0
  {
    if |raw| > 1 && raw[0] == 0 {
      StrippedShorter(raw[1..]);
      UnsignedFront(0, raw[1..]);
      assert raw == [0] + raw[1..];
    }
  }

  /** The encoded bytes, read as a two's-complement integer, are the unsigned value of the input. */
  lemma MpintValue(raw: seq<Byte>)
    ensures TwosComplement(MpintBody(raw)) == Unsigned(raw)
  {
    hide Stripped, Unsigned, Pow256;
    StrippedShorter(raw);
    var b := Stripped(raw);
    if b != [] && b[0] >= 128 {
      UnsignedFront(0, b);
      assert Padded(b) == [0] + b;
    }
  }

  /** The encoding is minimal for every non-zero value, and for a zero only when there are no bytes to start with. */
  lemma MpintMinimal(raw: seq<Byte>)
    ensures Minimal(MpintBody(raw)) <==> raw == [] || Unsigned(raw) != 0
  {
    StrippedShorter(raw);
    var b := Stripped(raw);
    UnsignedBound(b);
    if |b| == 1 {
      assert b[..0] == [];
      assert Unsigned(b) == b[0];
    } else if |b| > 1 {
      assert Unsigned(b) >= Pow256(|b| - 1) >= 1;
    }
  }

  /** The encoding depends on nothing but the value, so leading zeros never show. */
  lemma MpintCanonical(x: seq<Byte>, y: seq<Byte>)
    requires Unsigned(x) == Unsigned(y) && Unsigned(x) != 0
    ensures MpintBody(x) == MpintBody(y)
  {
    StrippedShorter(x);
    StrippedShorter(y);
    var a, b := Stripped(x), Stripped(y);
    StartsAboveZero(a);
    StartsAboveZero(b);
    UnsignedBound(a);
    UnsignedBound(b);
    if |a| < |b| {
      PowGrows(|a|, |b| - 1);
    } else if |b| < |a| {
      PowGrows(|b|, |a| - 1);
    }
    SameLengthSameBytes(a, b);
  }

  lemma StartsAboveZero(bs: seq<Byte>)
    requires Unsigned(bs) != 0 && (|bs| > 1 ==> bs[0] > 0)
    ensures bs != [] && bs[0] > 0
  {
    if |bs| == 1 {
      assert bs[..0] == [];
      assert Unsigned(bs) == Unsigned(bs[..0]) * 256 + bs[0];
    }
  }

  /* ---------- writing ---------- */

  /** `writeUInt32BE`. */
  method WriteUInt32BE(target: array<Byte>, n: nat, at: nat)
    requires n < LIMIT && at + 4 <= target.Length
    modifies target
    ensures target[..] == old(target[..at]) + U32(n) + old(target[at + 4..])
  {
    var value: nat := n;
    target[at + 3] := value % 256;
    value := value / 256;
    target[at + 2] := value % 256;
    value := value / 256;
    target[at + 1] := value % 256;
    value := value / 256;
    target[at] := value;
    assert target[..] == target[..at] + target[at..at + 4] + target[at + 4..];
    assert target[at..at + 4] == [target[at], target[at + 1], target[at + 2], target[at + 3]];
  }

  /** `src.copy(target, at)`. */
  method Copy(src: seq<Byte>, target: array<Byte>, at: nat)
    requires at + |src| <= target.Length
    modifies target
    ensures target[..] == old(target[..at]) + src + old(target[at + |src|..])
  {
    for i := 0 to |src|
      invariant forall k :: 0 <= k < at ==> target[k] == old(target[k])
      invariant forall k :: 0 <= k < i ==> target[at + k] == src[k]
      invariant forall k :: at + i <= k < target.Length ==> target[k] == old(target[k])
    {
      target[at + i] := src[i];
    }
    assert target[..at] == old(target[..at]);
    assert target[at..at + |src|] == src;
    assert target[at + |src|..] == old(target[at + |src|..]);
    assert target[..] == target[..at] + target[at..at + |src|] + target[at + |src|..];
  }

  method EncodeMpint(raw: seq<Byte>) returns (out: array<Byte>)
    requires Short(raw)
    ensures fresh(out) && out[..] == Mpint(raw)
  {
    var i := 0;
    while i < |raw| - 1 && raw[i] == 0
      invariant i <= |raw| && (raw != [] ==> i < |raw|)
      invariant Stripped(raw) == Stripped(raw[i..])
      decreases |raw| - i
    {
      assert raw[i..][1..] == raw[i + 1..];
      i := i + 1;
    }
    var bytes := raw[i..];
    assert bytes == Stripped(raw);
    BodyFits(raw);
    out := WithLength(bytes);
  }

  /** The second half of `encodeMpint`: the length, a zero byte when one is needed, the bytes. */
  method WithLength(bytes: seq<Byte>) returns (out: array<Byte>)
    requires Short(bytes)
    ensures fresh(out) && out[..] == Str(Padded(bytes))
  {
    var needsPad := bytes != [] && bytes[0] >= 128;
    var len := |bytes| + if needsPad then 1 else 0;
    assert Padded(bytes) == if needsPad then [0] + bytes else bytes;
    hide U32, Padded;
    out := new Byte[4 + len];
    WriteUInt32BE(out, len, 0);
    assert out[..4] == U32(len);
    if needsPad {
      out[4] := 0;
      assert out[..5] == out[..4] + [0];
      Copy(bytes, out, 5);
      assert out[..] == U32(len) + ([0] + bytes);
    } else {
      Copy(bytes, out, 4);
      assert out[..] == U32(len) + bytes;
    }
  }

  predicate Short(bs: seq<Byte>) {
    |bs| + 1 < LIMIT
  }

  lemma BodyFits(raw: seq<Byte>)
    requires Short(raw)
    ensures |Stripped(raw)| <= |raw| && |MpintBody(raw)| < LIMIT && Mpint(raw) == Str(MpintBody(raw))
  {
    StrippedShorter(raw);
  }

  predicate IsAscii(s: string) {
    forall i :: 0 <= i < |s| ==> s[i] < '\U{0080}'
  }

  function Ascii(s: string): (r: seq<Byte>)
    requires IsAscii(s)
    ensures |r| == |s|
  {
    seq(|s|, i requires 0 <= i < |s| => s[i] as int)
  }

  const SSH_RSA := "ssh-rsa"

  /** string "ssh-rsa", mpint e, mpint n. */
  function RsaWire(e: seq<Byte>, n: seq<Byte>): seq<Byte>
    requires Short(e) && Short(n)
  {
    Str(Ascii(SSH_RSA)) + Mpint(e) + Mpint(n)
  }

  method BuildRsaWire(e: seq<Byte>, n: seq<Byte>) returns (wire: array<Byte>)
    requires Short(e) && Short(n)
    ensures fresh(wire) && wire[..] == RsaWire(e, n)
  {
    hide Mpint, U32, Ascii;
    var typeBuf := Ascii(SSH_RSA);
    var eMpi := EncodeMpint(e);
    var nMpi := EncodeMpint(n);
    var em, nm := eMpi[..], nMpi[..];
    wire := new Byte[4 + |typeBuf| + |em| + |nm|];
    var off := 0;
    WriteUInt32BE(wire, |typeBuf|, off);
    off := off + 4;
    assert wire[..off] == U32(|typeBuf|);
    Copy(typeBuf, wire, off);
    off := off + |typeBuf|;
    assert wire[..off] == Str(typeBuf);
    Copy(em, wire, off);
    off := off + |em|;
    assert wire[..off] == Str(typeBuf) + em;
    Copy(nm, wire, off);
    assert wire[..] == Str(typeBuf) + em + nm;
  }

  /* ---------- reading ---------- */

  function FromU32(b: seq<Byte>): nat
    requires |b| == 4
  {
    var p: nat, q: nat, r: nat, s: nat := b[0], b[1], b[2], b[3];
    ((p * 256 + q) * 256 + r) * 256 + s
  }

  lemma U32RoundTrip(n: nat)
    requires n < LIMIT
    ensures FromU32(U32(n)) == n
  {
  }

  datatype KeyError = NotOpenSSH | OutOfRange | Encrypted | NoKeys | Unsupported(keyType: string)

  /** `buf.readUInt32BE(at)`; reading past the end throws. */
  function UInt32At(buf: seq<Byte>, at: nat): Result<nat, KeyError> {
    if at + 4 <= |buf| then Ok(FromU32(buf[at..at + 4])) else Err(OutOfRange)
  }

  /** `buf.slice(from, to)`, which stops at the end of the buffer. */
  function Slice(buf: seq<Byte>, from: nat, to: nat): seq<Byte>
    requires from <= to
  {
    if to <= |buf| then buf[from..to] else if from <= |buf| then buf[from..] else []
  }

  /** A length and that many bytes, or as many as there are. */
  function BlobAt(buf: seq<Byte>, at: nat): Result<seq<Byte>, KeyError> {
    match UInt32At(buf, at)
    case Ok(len) => Ok(Slice(buf, at + 4, at + 4 + len))
    case Err(e) => Err(e)
  }

  /** Where the reader stands after a blob, wherever the buffer ends. */
  function PastBlob(buf: seq<Byte>, at: nat): nat {
    match UInt32At(buf, at)
    case Ok(len) => at + 4 + len
    case Err(_) => at
  }

  /** The public key of section 6.6, read strictly: three strings and nothing after them. */
  function ParseRsa(blob: seq<Byte>): Option<(seq<Byte>, int, int)> {
    var p, q := PastBlob(blob, 0), PastBlob(blob, PastBlob(blob, 0));
    match (BlobAt(blob, 0), BlobAt(blob, p), BlobAt(blob, q))
    case (Ok(keyType), Ok(e), Ok(n)) =>
      if PastBlob(blob, q) == |blob| then Some((keyType, TwosComplement(e), TwosComplement(n))) else None
    case _ => None
  }

  predicate Fits(e: seq<Byte>, n: seq<Byte>) {
    Short(e) && Short(n) && |RsaWire(e, n)| < LIMIT
  }

  /** The type name and the values of the two numbers. */
  function RsaKey(e: seq<Byte>, n: seq<Byte>): Option<(seq<Byte>, int, int)> {
    Some((Ascii(SSH_RSA), Unsigned(e), Unsigned(n)))
  }

  lemma StrAt(pre: seq<Byte>, s: seq<Byte>, post: seq<Byte>)
    requires |s| < LIMIT
    ensures BlobAt(pre + Str(s) + post, |pre|) == Ok(s)
    ensures PastBlob(pre + Str(s) + post, |pre|) == |pre + Str(s)|
  {
    var buf := pre + Str(s) + post;
    assert buf[|pre|..|pre| + 4] == U32(|s|);
    U32RoundTrip(|s|);
    assert buf[|pre| + 4..|pre| + 4 + |s|] == s;
  }

  /** Parsing the built blob gives the type name and the two numbers back. */
  lemma RsaRoundTrip(e: seq<Byte>, n: seq<Byte>)
    requires Short(e) && Short(n)
    ensures ParseRsa(RsaWire(e, n)) == RsaKey(e, n)
  {
    hide Ascii, MpintBody, BlobAt, PastBlob, TwosComplement, Unsigned, Str;
    StrippedShorter(e);
    StrippedShorter(n);
    BodyFits(e);
    BodyFits(n);
    var t, eb, nb := Ascii(SSH_RSA), MpintBody(e), MpintBody(n);
    var wire := RsaWire(e, n);
    assert wire == Str(t) + Str(eb) + Str(nb);
    StrAt([], t, Str(eb) + Str(nb));
    assert [] + Str(t) + (Str(eb) + Str(nb)) == wire && [] + Str(t) == Str(t);
    StrAt(Str(t), eb, Str(nb));
    StrAt(Str(t) + Str(eb), nb, []);
    assert wire + [] == wire;
    assert Str(t) + Str(eb) + Str(nb) + [] == wire;
    MpintValue(e);
    MpintValue(n);
  }

  /* ---------- the OpenSSH container ---------- */

  const MAGIC := "openssh-key-v1"

  /** `toString("ascii")` drops the high bit of every byte. */
  function Text(bs: seq<Byte>): (s: string)
    ensures |s| == |bs|
  {
    seq(|bs|, i requires 0 <= i < |bs| => (bs[i] % 128) as char)
  }

  predicate SupportedType(t: string) {
    t in {"ssh-ed25519", "ecdsa-sha2-nistp256", "ecdsa-sha2-nistp384", "ecdsa-sha2-nistp521", SSH_RSA}
  }

  /** The line for `authorized_keys`. */
  function PublicLine(blob: seq<Byte>): Result<string, KeyError> {
    match UInt32At(blob, 0)
    case Err(e) => Err(e)
    case Ok(len) =>
      var keyType := Text(Slice(blob, 4, 4 + len));
      if SupportedType(keyType) then Ok(keyType + " " + Base64.Encode(blob) + " aura-cluster-key")
      else Err(Unsupported(keyType))
  }

  /** What `parseOpenSSHFormat` makes of the decoded bytes. */
  function ParseOpenSSH(buf: seq<Byte>): Result<string, KeyError> {
    if |buf| < 15 || Text(buf[..14]) != MAGIC then Err(NotOpenSSH)
    else
      var kdfAt := PastBlob(buf, 15);
      var optionsAt := PastBlob(buf, kdfAt);
      var countAt := PastBlob(buf, optionsAt);
      match (BlobAt(buf, 15), BlobAt(buf, kdfAt), BlobAt(buf, optionsAt), UInt32At(buf, countAt))
      case (Ok(cipher), Ok(kdf), Ok(_), Ok(count)) =>
        if Text(cipher) != "none" || Text(kdf) != "none" then Err(Encrypted)
        else if count < 1 then Err(NoKeys)
        else (
          match BlobAt(buf, countAt + 4)
          case Ok(blob) => PublicLine(blob)
          case Err(e) => Err(e))
      case _ => Err(OutOfRange)
  }

  /** The reader with its moving offset. */
  class Cursor {
    const buf: seq<Byte>
    var offset: nat

    constructor (buf: seq<Byte>, offset: nat)
      ensures this.buf == buf && this.offset == offset
    {
      this.buf, this.offset := buf, offset;
    }

    method ReadBlob() returns (r: Result<seq<Byte>, KeyError>)
      modifies this
      ensures r == BlobAt(buf, old(offset)) && offset == PastBlob(buf, old(offset))
    {
      var len := UInt32At(buf, offset);
      if len.Err? {
        return Err(len.error);
      }
      offset := offset + 4;
      r := Ok(Slice(buf, offset, offset + len.value));
      offset := offset + len.value;
    }

    method ReadUInt32() returns (r: Result<nat, KeyError>)
      modifies this
      ensures r == UInt32At(buf, old(offset)) && offset == old(offset) + if r.Ok? then 4 else 0
    {
      r := UInt32At(buf, offset);
      if r.Ok? {
        offset := offset + 4;
      }
    }
  }

  method ParseOpenSSHFormat(buf: seq<Byte>) returns (r: Result<string, KeyError>)
    ensures r == ParseOpenSSH(buf)
  {
    hide UInt32At, BlobAt, PastBlob, Text;
    if |buf| < 15 || Text(buf[..14]) != MAGIC {
      return Err(NotOpenSSH);
    }
    ErrorsAreRange(buf);
    var reader := new Cursor(buf, 15);
    var cipherName := reader.ReadBlob();
    if cipherName.Err? {
      return Err(cipherName.error);
    }
    var kdfName := reader.ReadBlob();
    if kdfName.Err? {
      return Err(kdfName.error);
    }
    var options := reader.ReadBlob();
    if options.Err? {
      return Err(options.error);
    }
    var numKeys := reader.ReadUInt32();
    if numKeys.Err? {
      return Err(numKeys.error);
    }
    if Text(cipherName.value) != "none" || Text(kdfName.value) != "none" {
      return Err(Encrypted);
    }
    if numKeys.value < 1 {
      return Err(NoKeys);
    }
    var pubKeyBlob := reader.ReadBlob();
    if pubKeyBlob.Err? {
      return Err(pubKeyBlob.error);
    }
    r := PublicLine(pubKeyBlob.value);
  }

  lemma ErrorsAreRange(buf: seq<Byte>)
    ensures forall at: nat :: BlobAt(buf, at).Err? ==> BlobAt(buf, at).error == OutOfRange
    ensures forall at: nat :: UInt32At(buf, at).Err? ==> UInt32At(buf, at).error == OutOfRange
  {
  }

  /** Everything in front of the public key. */
  function Header(cipher: seq<Byte>, kdf: seq<Byte>, options: seq<Byte>, count: nat): seq<Byte>
    requires |cipher| < LIMIT && |kdf| < LIMIT && |options| < LIMIT && count < LIMIT
  {
    Ascii(MAGIC) + [0] + Str(cipher) + Str(kdf) + Str(options) + U32(count)
  }

  /**
   * What the parser makes of a container: it refuses encrypted ones and empty ones, and otherwise
   * gives the line for as much of the announced key as the file still holds.
   */
  lemma ContainerOutcome(cipher: seq<Byte>, kdf: seq<Byte>, options: seq<Byte>, count: nat, announced: nat,
                         rest: seq<Byte>)
    requires |cipher| < LIMIT && |kdf| < LIMIT && |options| < LIMIT && count < LIMIT && announced < LIMIT
    ensures ParseOpenSSH(Header(cipher, kdf, options, count) + U32(announced) + rest) ==
      if Text(cipher) != "none" || Text(kdf) != "none" then Err(Encrypted)
      else if count < 1 then Err(NoKeys)
      else PublicLine(rest[..if announced <= |rest| then announced else |rest|])
  {
    hide Ascii, Str, BlobAt, PastBlob, PublicLine, UInt32At, Text, U32;
    var m := Ascii(MAGIC) + [0];
    var head := Header(cipher, kdf, options, count);
    var buf := head + U32(announced) + rest;
    var a, b, c := m + Str(cipher), m + Str(cipher) + Str(kdf), m + Str(cipher) + Str(kdf) + Str(options);
    assert |m| == 15 && buf[..14] == Ascii(MAGIC);
    MagicText();
    StrAt(m, cipher, Str(kdf) + Str(options) + U32(count) + U32(announced) + rest);
    assert m + Str(cipher) + (Str(kdf) + Str(options) + U32(count) + U32(announced) + rest) == buf;
    StrAt(a, kdf, Str(options) + U32(count) + U32(announced) + rest);
    assert a + Str(kdf) + (Str(options) + U32(count) + U32(announced) + rest) == buf;
    StrAt(b, options, U32(count) + U32(announced) + rest);
    assert b + Str(options) + (U32(count) + U32(announced) + rest) == buf;
    WordAt(c, count, U32(announced) + rest);
    assert c + U32(count) + (U32(announced) + rest) == buf;
    assert |c + U32(count)| == |c| + 4;
    LastBlobAt(c + U32(count), announced, rest);
    assert c + U32(count) + U32(announced) + rest == buf;
  }

  lemma MagicText()
    ensures Text(Ascii(MAGIC)) == MAGIC
  {
  }

  lemma WordAt(pre: seq<Byte>, n: nat, post: seq<Byte>)
    requires n < LIMIT
    ensures UInt32At(pre + U32(n) + post, |pre|) == Ok(n)
  {
    var buf := pre + U32(n) + post;
    assert buf[|pre|..|pre| + 4] == U32(n);
    U32RoundTrip(n);
  }

  lemma LastBlobAt(pre: seq<Byte>, announced: nat, rest: seq<Byte>)
    requires announced < LIMIT
    ensures BlobAt(pre + U32(announced) + rest, |pre|) == Ok(rest[..if announced <= |rest| then announced else |rest|])
  {
    var buf := pre + U32(announced) + rest;
    WordAt(pre, announced, rest);
    assert buf[|pre| + 4..] == rest;
    if announced <= |rest| {
      assert buf[|pre| + 4..|pre| + 4 + announced] == rest[..announced];
    } else {
      assert rest[..|rest|] == rest;
    }
  }

  /** Names are read without the high bit of their bytes, so that two files may read alike. */
  lemma HighBitsDropped(a: seq<Byte>, b: seq<Byte>)
    ensures Text(a) == Text(b) <==>
      |a| == |b| && forall i :: 0 <= i < |a| ==> a[i] as int % 128 == b[i] as int % 128
  {
    if Text(a) == Text(b) {
      forall i | 0 <= i < |a| ensures a[i] % 128 == b[i] % 128 {
        assert Text(a)[i] == Text(b)[i];
      }
    } else if |a| == |b| {
      var i :| 0 <= i < |a| && Text(a)[i] != Text(b)[i];
      assert a[i] % 128 != b[i] % 128;
    }
  }

  lemma TextOfAscii(s: string)
    requires IsAscii(s)
    ensures Text(Ascii(s)) == s
  {
  }

  /** A public key: the name of its type and whatever that type is made of. */
  function KeyBlob(t: string, rest: seq<Byte>): seq<Byte>
    requires IsAscii(t) && |t| < LIMIT
  {
    Str(Ascii(t)) + rest
  }

  /** As much of the type's name as the first `kept` bytes of a key hold. */
  function NameLeft(t: string, kept: nat): string
    requires kept >= 4
  {
    if kept - 4 < |t| then t[..kept - 4] else t
  }

  function Line(t: string, blob: seq<Byte>): string {
    t + " " + Base64.Encode(blob) + " aura-cluster-key"
  }

  /** What the parser makes of the first `kept` bytes of a key of any type: it looks at what is left of the name. */
  lemma CutLine(t: string, rest: seq<Byte>, kept: nat)
    requires IsAscii(t) && |t| < LIMIT && kept <= |KeyBlob(t, rest)|
    ensures var cut := KeyBlob(t, rest)[..kept];
      PublicLine(cut) ==
        if kept < 4 then Err(OutOfRange)
        else if SupportedType(NameLeft(t, kept)) then Ok(Line(NameLeft(t, kept), cut))
        else Err(Unsupported(NameLeft(t, kept)))
  {
    hide Base64.Encode, SupportedType, Text, Ascii, U32, FromU32;
    if kept >= 4 {
      var blob := KeyBlob(t, rest);
      var cut := blob[..kept];
      assert cut[0..4] == U32(|t|);
      U32RoundTrip(|t|);
      CutName(t, rest, kept);
    }
  }

  lemma CutName(t: string, rest: seq<Byte>, kept: nat)
    requires IsAscii(t) && |t| < LIMIT && 4 <= kept <= |KeyBlob(t, rest)|
    ensures Text(Slice(KeyBlob(t, rest)[..kept], 4, 4 + |t|)) == NameLeft(t, kept)
  {
    hide U32;
    var cut := KeyBlob(t, rest)[..kept];
    var left := if kept - 4 < |t| then kept - 4 else |t|;
    assert Slice(cut, 4, 4 + |t|) == Ascii(t)[..left];
    assert Ascii(t)[..left] == Ascii(t[..left]);
    TextOfAscii(t[..left]);
    assert t[..|t|] == t;
  }

  const NONE := "none"

  /** The header of a file without a passphrase. */
  function OpenHeader(options: seq<Byte>, count: nat): seq<Byte>
    requires |options| < LIMIT && count < LIMIT
  {
    Header(Ascii(NONE), Ascii(NONE), options, count)
  }

  lemma OpenOutcome(options: seq<Byte>, count: nat, announced: nat, rest: seq<Byte>)
    requires |options| < LIMIT && 1 <= count < LIMIT && announced < LIMIT
    ensures ParseOpenSSH(OpenHeader(options, count) + U32(announced) + rest)
         == PublicLine(rest[..if announced <= |rest| then announced else |rest|])
  {
    hide ParseOpenSSH, Header, PublicLine, U32, Text, Ascii;
    TextOfAscii(NONE);
    ContainerOutcome(Ascii(NONE), Ascii(NONE), options, count, announced, rest);
  }

  lemma RsaStart(e: seq<Byte>, n: seq<Byte>, kept: nat)
    requires Fits(e, n) && kept <= |RsaWire(e, n)|
    ensures PublicLine(RsaWire(e, n)[..kept]).Ok? <==> 11 <= kept
    ensures 11 <= kept ==> PublicLine(RsaWire(e, n)[..kept]) == Ok(Line(SSH_RSA, RsaWire(e, n)[..kept]))
  {
    hide Base64.Encode, PublicLine, Mpint, U32, Ascii;
    assert RsaWire(e, n) == KeyBlob(SSH_RSA, Mpint(e) + Mpint(n));
    CutLine(SSH_RSA, Mpint(e) + Mpint(n), kept);
    if 4 <= kept {
      RsaName(kept);
    }
  }

  /** No shorter name than the whole of it is supported. */
  lemma RsaName(kept: nat)
    requires 4 <= kept
    ensures SupportedType(NameLeft(SSH_RSA, kept)) <==> 11 <= kept
  {
    if kept < 11 {
      TypeNamesAreLong(NameLeft(SSH_RSA, kept));
    }
  }

  lemma TypeNamesAreLong(t: string)
    requires |t| < 7
    ensures !SupportedType(t)
  {
  }

  /**
   * An unencrypted container around an RSA key yields its line, and the base64 in that line decodes
   * to a blob that parses to the key's two numbers.
   */
  lemma RsaContainer(options: seq<Byte>, count: nat, e: seq<Byte>, n: seq<Byte>, secret: seq<Byte>)
    requires |options| < LIMIT && 1 <= count < LIMIT && Fits(e, n)
    ensures var wire := RsaWire(e, n);
      && ParseOpenSSH(OpenHeader(options, count) + Str(wire) + secret) == Ok(Line(SSH_RSA, wire))
      && Base64.Decode(Base64.Encode(wire)) == Some(wire)
      && ParseRsa(wire) == RsaKey(e, n)
  {
    hide Base64.Encode, Base64.Decode, ParseRsa, ParseOpenSSH, OpenHeader, RsaKey, RsaWire, U32, PublicLine, Ascii;
    var wire := RsaWire(e, n);
    OpenOutcome(options, count, |wire|, wire + secret);
    assert (wire + secret)[..|wire|] == wire;
    assert OpenHeader(options, count) + U32(|wire|) + (wire + secret) ==
      OpenHeader(options, count) + Str(wire) + secret;
    WireLong(e, n);
    RsaStart(e, n, |wire|);
    assert wire[..|wire|] == wire;
    Base64.RoundTrip(wire);
    RsaRoundTrip(e, n);
  }

  lemma WireLong(e: seq<Byte>, n: seq<Byte>)
    requires Short(e) && Short(n)
    ensures |RsaWire(e, n)| >= 11
  {
  }

  /* ---------- files that are cut short ---------- */

  /** A whole unencrypted file: header, public key, private section. */
  function KeyFile(options: seq<Byte>, count: nat, blob: seq<Byte>, secret: seq<Byte>): seq<Byte>
    requires |options| < LIMIT && count < LIMIT && |blob| < LIMIT
  {
    OpenHeader(options, count) + U32(|blob|) + (blob + secret)
  }

  /** How many bytes of the public key a file of this header still holds when cut at `c`. */
  function KeptOfKey(options: seq<Byte>, count: nat, blob: seq<Byte>, c: nat): nat
    requires |options| < LIMIT && count < LIMIT
  {
    var start := |OpenHeader(options, count)| + 4;
    if c < start then 0 else if c - start < |blob| then c - start else |blob|
  }

  /**
   * A file cut short anywhere, around a key of any type, is accepted exactly when the cut leaves the
   * length of the type's name and, of the name, something that is the name of a supported type; the
   * line then carries what is left of the key.
   */
  lemma CutFileExactly(options: seq<Byte>, count: nat, t: string, rest: seq<Byte>, secret: seq<Byte>, c: nat)
    requires |options| < LIMIT && 1 <= count < LIMIT && IsAscii(t) && |t| < LIMIT && |KeyBlob(t, rest)| < LIMIT
    requires c <= |KeyFile(options, count, KeyBlob(t, rest), secret)|
    ensures var blob := KeyBlob(t, rest);
      var kept := KeptOfKey(options, count, blob, c);
      var r := ParseOpenSSH(KeyFile(options, count, blob, secret)[..c]);
      && (r.Ok? <==> kept >= 4 && SupportedType(NameLeft(t, kept)))
      && (r.Ok? ==> r == Ok(Line(NameLeft(t, kept), blob[..kept])))
  {
    hide ParseOpenSSH, OpenHeader, KeyBlob, U32, PublicLine, Line, SupportedType, NameLeft;
    var head, blob := OpenHeader(options, count), KeyBlob(t, rest);
    var file := KeyFile(options, count, blob, secret);
    var start := |head| + 4;
    if c < start {
      CutHeaderIsRefused(options, count, U32(|blob|) + (blob + secret), c);
      assert head + (U32(|blob|) + (blob + secret)) == file;
    } else {
      var left := (blob + secret)[..c - start];
      assert file[..c] == head + U32(|blob|) + left;
      OpenOutcome(options, count, |blob|, left);
      var kept := KeptOfKey(options, count, blob, c);
      assert left[..kept] == blob[..kept];
      CutLine(t, rest, kept);
    }
  }

  /** Lengths are written with the most significant byte first. */
  lemma U32Is(n: nat)
    requires n < LIMIT
    ensures Unsigned(U32(n)) == n
  {
    var a, b := n / 256, n / 256 / 256;
    UnsignedFour(b / 256, b % 256, a % 256, n % 256);
  }

  lemma UnsignedFour(p: Byte, q: Byte, r: Byte, s: Byte)
    ensures Unsigned([p, q, r, s]) == ((p * 256 + q) * 256 + r) * 256 + s
  {
    assert [p][..0] == [] && Unsigned([p]) == p;
    assert [p, q][..1] == [p] && Unsigned([p, q]) == p * 256 + q;
    assert [p, q, r][..2] == [p, q] && Unsigned([p, q, r]) == (p * 256 + q) * 256 + r;
    assert [p, q, r, s][..3] == [p, q, r];
  }

  /** The types for which `ssh-keygen` makes keys that are taken. */
  predicate IsTaken(t: string) {
    t == "ssh-ed25519" || t == "ssh-rsa" || t == "ecdsa-sha2-nistp256" || t == "ecdsa-sha2-nistp384"
    || t == "ecdsa-sha2-nistp521"
  }

  lemma TakenIsSupported(t: string)
    ensures SupportedType(t) <==> IsTaken(t)
  {
  }

  /**
   * A whole file, which begins with `openssh-key-v1` and a NUL: its line is the type, the base64 of the
   * key and the comment, for keys of the five types, and for those only.
   */
  lemma WholeFileExactly(options: seq<Byte>, count: nat, t: string, rest: seq<Byte>, secret: seq<Byte>)
    requires |options| < LIMIT && 1 <= count < LIMIT && IsAscii(t) && |t| < LIMIT && |KeyBlob(t, rest)| < LIMIT
    ensures var blob := KeyBlob(t, rest);
      var file := KeyFile(options, count, blob, secret);
      && |file| >= 15 && Text(file[..14]) == "openssh-key-v1" && file[14] == 0
      && ParseOpenSSH(file) ==
        if IsTaken(t) then Ok(t + " " + Base64.Encode(blob) + " aura-cluster-key") else Err(Unsupported(t))
  {
    hide ParseOpenSSH, Base64.Encode, SupportedType, IsTaken, U32, PublicLine;
    var head, blob := OpenHeader(options, count), KeyBlob(t, rest);
    var file := KeyFile(options, count, blob, secret);
    StartsAsMagic(options, count, U32(|blob|) + (blob + secret));
    assert file == head + (U32(|blob|) + (blob + secret));
    OpenOutcome(options, count, |blob|, blob + secret);
    assert file == head + U32(|blob|) + (blob + secret);
    assert (blob + secret)[..|blob|] == blob && blob[..|blob|] == blob;
    CutLine(t, rest, |blob|);
    TakenIsSupported(t);
    assert NameLeft(t, |blob|) == t by { assert t[..|t|] == t; }
  }

  lemma StartsAsMagic(options: seq<Byte>, count: nat, tail: seq<Byte>)
    requires |options| < LIMIT && count < LIMIT
    ensures var file := OpenHeader(options, count) + tail;
      |file| >= 15 && Text(file[..14]) == "openssh-key-v1" && file[14] == 0
  {
    hide U32;
    var file := OpenHeader(options, count) + tail;
    assert file[..14] == Ascii(MAGIC);
    TextOfAscii(MAGIC);
  }

  /** Nothing of the header can be missing, down to the length of the key. */
  lemma CutHeaderIsRefused(options: seq<Byte>, count: nat, tail: seq<Byte>, c: nat)
    requires |options| < LIMIT && count < LIMIT
    requires c < |OpenHeader(options, count)| + 4 && c <= |OpenHeader(options, count) + tail|
    ensures ParseOpenSSH((OpenHeader(options, count) + tail)[..c]).Err?
  {
    hide OpenHeader, Text, PublicLine, UInt32At, BlobAt, PastBlob;
    var file := OpenHeader(options, count) + tail;
    HeaderReads(options, count, tail);
    var at := 35 + |options|;
    CutRead(file, c, 15);
    CutRead(file, c, 23);
    CutRead(file, c, 31);
    CutRead(file, c, at);
    CutRead(file, c, at + 4);
  }

  /** A read in a cut buffer fails, or is the read in the whole one. */
  lemma CutRead(buf: seq<Byte>, c: nat, at: nat)
    requires c <= |buf|
    ensures at + 4 > c ==> UInt32At(buf[..c], at).Err? && BlobAt(buf[..c], at).Err?
    ensures at + 4 <= c ==> PastBlob(buf[..c], at) == PastBlob(buf, at)
  {
    if at + 4 <= c {
      assert buf[..c][at..at + 4] == buf[at..at + 4];
    }
  }

  lemma HeaderReads(options: seq<Byte>, count: nat, tail: seq<Byte>)
    requires |options| < LIMIT && count < LIMIT
    ensures var file := OpenHeader(options, count) + tail;
      && |OpenHeader(options, count)| == 39 + |options|
      && PastBlob(file, 15) == 23 && PastBlob(file, 23) == 31 && PastBlob(file, 31) == 35 + |options|
  {
    hide PastBlob, BlobAt, Ascii, U32;
    var file := OpenHeader(options, count) + tail;
    var m, none := Ascii(MAGIC) + [0], Ascii(NONE);
    StrAt(m, none, Str(none) + Str(options) + U32(count) + tail);
    assert m + Str(none) + (Str(none) + Str(options) + U32(count) + tail) == file;
    StrAt(m + Str(none), none, Str(options) + U32(count) + tail);
    assert m + Str(none) + Str(none) + (Str(options) + U32(count) + tail) == file;
    StrAt(m + Str(none) + Str(none), options, U32(count) + tail);
    assert m + Str(none) + Str(none) + Str(options) + (U32(count) + tail) == file;
  }

  /** For an RSA key that is: exactly when its first eleven bytes, the whole name, are left. */
  lemma CutKeyIsAccepted(options: seq<Byte>, count: nat, e: seq<Byte>, n: seq<Byte>, kept: nat)
    requires |options| < LIMIT && 1 <= count < LIMIT && Fits(e, n)
    requires kept <= |RsaWire(e, n)|
    ensures var wire := RsaWire(e, n);
      var r := ParseOpenSSH(OpenHeader(options, count) + U32(|wire|) + wire[..kept]);
      && (r.Ok? <==> 11 <= kept)
      && (r.Ok? ==> r == Ok(Line(SSH_RSA, wire[..kept])))
  {
    hide ParseOpenSSH, OpenHeader, RsaWire, U32, PublicLine, Line;
    var wire := RsaWire(e, n);
    OpenOutcome(options, count, |wire|, wire[..kept]);
    assert wire[..kept][..kept] == wire[..kept];
    RsaStart(e, n, kept);
  }

  const CERTIFICATE := "ssh-rsa" + "-cert-v01@openssh.com"

  /** A file that is refused whole can be accepted cut: a certificate's type begins like a supported one. */
  lemma CutCertificateIsAccepted(options: seq<Byte>, count: nat, rest: seq<Byte>, secret: seq<Byte>)
    requires |options| < LIMIT && 1 <= count < LIMIT
    requires |KeyBlob(CERTIFICATE, rest)| < LIMIT
    ensures var blob := KeyBlob(CERTIFICATE, rest);
      var file := KeyFile(options, count, blob, secret);
      var c := |OpenHeader(options, count)| + 4 + 11;
      && ParseOpenSSH(file).Err?
      && c <= |file| && ParseOpenSSH(file[..c]) == Ok(Line(SSH_RSA, blob[..11]))
  {
    hide ParseOpenSSH, OpenHeader, U32, Line;
    var blob := KeyBlob(CERTIFICATE, rest);
    var file := KeyFile(options, count, blob, secret);
    assert |CERTIFICATE| == 28;
    CutFileExactly(options, count, CERTIFICATE, rest, secret, |file|);
    assert file[..|file|] == file;
    CertificateNames();
    CutFileExactly(options, count, CERTIFICATE, rest, secret, |OpenHeader(options, count)| + 15);
  }

  lemma CertificateNames()
    ensures CERTIFICATE[..7] == SSH_RSA && !SupportedType(CERTIFICATE) && SupportedType(SSH_RSA)
  {
  }
}
