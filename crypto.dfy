/** Credential hasher: hexadecimal encoding of byte buffers, salt generation,
    salted password hashing and verification (utils/crypto.ts).
    The key derivation itself (PBKDF2 with HMAC-SHA-256, RFC 8018 section 5.2)
    is a function-valued parameter: it stands for the Web Crypto primitive. */
module Crypto {
  import opened Wrappers

  type byte = x: int | 0 <= x < 256

  /** Default salt length, in bytes. */
  const SaltBytes := 16
  /** PBKDF2 iteration count. */
  const Iterations := 100000
  /** Length of the derived key, in bits. */
  const DerivedBits := 256

  /** A derived key: DerivedBits / 8 bytes. */
  type Digest = d: seq<byte> | |d| == DerivedBits / 8 witness seq(DerivedBits / 8, _ => 0)

  /** The parameters handed to `deriveBits`. */
  datatype Pbkdf2Params = Pbkdf2Params(hash: string, salt: seq<byte>, iterations: nat)

  /** `crypto.subtle.deriveBits(params, importKey(password), DerivedBits)`: deterministic in its inputs. */
  type KeyDerivation = (Pbkdf2Params, string) -> Digest

  // ---------------------------------------------------------------------------
  // Number.prototype.toString(16) and the two ways the file pads it

  predicate IsLowerHexDigit(c: char)
  {
    '0' <= c <= '9' || 'a' <= c <= 'f'
  }

  predicate IsLowerHex(s: string)
  {
    forall k :: 0 <= k < |s| ==> IsLowerHexDigit(s[k])
  }

  /** The hexadecimal digit `toString(16)` writes for 0..15. */
  function HexDigit(d: int): (c: char)
    requires 0 <= d < 16
    ensures IsLowerHexDigit(c)
  {
    if d < 10 then (48 + d) as char else (87 + d) as char
  }

  /** `n.toString(16)` for a non-negative integer. */
  function ToHex(n: nat): (s: string)
    ensures 1 <= |s|
    ensures n < 16 ==> |s| == 1
    ensures 16 <= n < 256 ==> |s| == 2
  {
    if n < 16 then [HexDigit(n)] else ToHex(n / 16) + [HexDigit(n % 16)]
  }

  /** `s.padStart(2, '0')`. */
  function PadStart2(s: string): string
  {
    if |s| >= 2 then s else seq(2 - |s|, _ => '0') + s
  }

  /** `s.slice(-2)`. */
  function SliceLast2(s: string): string
  {
    if |s| <= 2 then s else s[|s| - 2..]
  }

  /** One byte as bufferToHex writes it: `b.toString(16).padStart(2, '0')`. */
  function ByteToHex(b: byte): (s: string)
    ensures s == [HexDigit(b / 16), HexDigit(b % 16)]
  {
    if b < 16 then
      assert ToHex(b) == [HexDigit(b)];
      PadStart2(ToHex(b))
    else
      assert ToHex(b) == ToHex(b / 16) + [HexDigit(b % 16)] == [HexDigit(b / 16), HexDigit(b % 16)];
      PadStart2(ToHex(b))
  }

  /** One byte as generateSalt writes it: `('0' + b.toString(16)).slice(-2)`. */
  function SaltByteToHex(b: byte): (s: string)
    ensures s == ByteToHex(b)
  {
    SliceLast2("0" + ToHex(b))
  }

  /** bufferToHex: each byte as two lower-case hexadecimal digits, joined in order. */
  function BufferToHex(bytes: seq<byte>): (s: string)
    ensures |s| == 2 * |bytes|
  {
    if bytes == [] then "" else ByteToHex(bytes[0]) + BufferToHex(bytes[1..])
  }

  /** The encoding is lower-case hexadecimal, byte k at characters 2k and 2k + 1. */
  lemma {:induction false} BufferToHexSpec(bytes: seq<byte>)
    ensures IsLowerHex(BufferToHex(bytes))
    ensures forall k :: 0 <= k < |bytes| ==> BufferToHex(bytes)[2 * k..2 * k + 2] == ByteToHex(bytes[k])
  {
    if bytes != [] {
      BufferToHexSpec(bytes[1..]);
      var s := BufferToHex(bytes);
      assert s[2..] == BufferToHex(bytes[1..]);
      forall k | 1 <= k < |bytes|
        ensures s[2 * k..2 * k + 2] == ByteToHex(bytes[k])
      {
        assert s[2 * k..2 * k + 2] == s[2..][2 * (k - 1)..2 * (k - 1) + 2];
      }
    }
  }

  /** generateSalt(length), given the `length` random bytes that
      `crypto.getRandomValues` wrote into the array. */
  function GenerateSalt(random: seq<byte>): string
  {
    if random == [] then "" else SaltByteToHex(random[0]) + GenerateSalt(random[1..])
  }

  /** generateSalt's padding by slicing writes the same text as bufferToHex's padStart. */
  lemma {:induction false} GenerateSaltIsBufferToHex(random: seq<byte>)
    ensures GenerateSalt(random) == BufferToHex(random)
  {
    if random != [] {
      GenerateSaltIsBufferToHex(random[1..]);
    }
  }

  // ---------------------------------------------------------------------------
  // Decoding the salt: salt.match(/.{1,2}/g)!.map(b => parseInt(b, 16)) into a Uint8Array

  function Concat(chunks: seq<string>): string
  {
    if chunks == [] then "" else chunks[0] + Concat(chunks[1..])
  }

  /** The LineTerminator code points of ECMA-262, which `.` does not match without the `s` flag. */
  predicate IsLineTerminator(c: char)
  {
    c == '\n' || c == '\r' || c as int == 0x2028 || c as int == 0x2029
  }

  /** No character of `s` can start a match of `.`. */
  predicate AllLineTerminators(s: string)
  {
    forall k :: 0 <= k < |s| ==> IsLineTerminator(s[k])
  }

  /** The characters `.` can match, in order. */
  function Matchable(s: string): (r: string)
    ensures |r| <= |s|
  {
    if s == [] then []
    else if IsLineTerminator(s[0]) then Matchable(s[1..])
    else [s[0]] + Matchable(s[1..])
  }

  /** The successive matches of `/.{1,2}/g`: scanning from the left, a line
      terminator is skipped, otherwise the match takes two characters when the
      second is not a line terminator and one character when it is, or when the
      string ends. */
  function MatchChunks(s: string): (chunks: seq<string>)
    ensures chunks == [] <==> AllLineTerminators(s)
    decreases |s|
  {
    if s == [] then []
    else if IsLineTerminator(s[0]) then
      var rest := MatchChunks(s[1..]);
      assert AllLineTerminators(s) <==> AllLineTerminators(s[1..]) by {
        if AllLineTerminators(s[1..]) {
          forall k | 0 < k < |s| ensures IsLineTerminator(s[k]) {
            assert s[k] == s[1..][k - 1];
          }
        }
      }
      rest
    else if |s| >= 2 && !IsLineTerminator(s[1]) then [s[..2]] + MatchChunks(s[2..])
    else [s[..1]] + MatchChunks(s[1..])
  }

  /** The matches put back together are the matchable characters of the string. */
  lemma {:induction false} MatchChunksConcat(s: string)
    ensures Concat(MatchChunks(s)) == Matchable(s)
    decreases |s|
  {
    if s == [] {
    } else if IsLineTerminator(s[0]) {
      MatchChunksConcat(s[1..]);
      assert MatchChunks(s) == MatchChunks(s[1..]) && Matchable(s) == Matchable(s[1..]);
    } else if |s| >= 2 && !IsLineTerminator(s[1]) {
      var chunks := MatchChunks(s);
      MatchChunksConcat(s[2..]);
      assert chunks == [s[..2]] + MatchChunks(s[2..]) && chunks[1..] == MatchChunks(s[2..]);
      assert Concat(chunks) == s[..2] + Concat(MatchChunks(s[2..]));
      assert s[1..][1..] == s[2..] && s[..2] == [s[0], s[1]];
      assert Matchable(s) == [s[0], s[1]] + Matchable(s[2..]);
      assert Concat(chunks) == Matchable(s);
    } else {
      var chunks := MatchChunks(s);
      MatchChunksConcat(s[1..]);
      assert chunks == [s[..1]] + MatchChunks(s[1..]) && chunks[1..] == MatchChunks(s[1..]);
      assert Concat(chunks) == s[..1] + Concat(MatchChunks(s[1..])) && s[..1] == [s[0]];
      assert Matchable(s) == [s[0]] + Matchable(s[1..]);
      assert Concat(chunks) == Matchable(s);
    }
  }

  /** Every match has one or two characters, none of them a line terminator. */
  lemma {:induction false} MatchChunksShape(s: string)
    ensures forall k :: 0 <= k < |MatchChunks(s)| ==>
      1 <= |MatchChunks(s)[k]| <= 2 && forall j :: 0 <= j < |MatchChunks(s)[k]| ==> !IsLineTerminator(MatchChunks(s)[k][j])
    decreases |s|
  {
    if s == [] {
    } else if IsLineTerminator(s[0]) {
      MatchChunksShape(s[1..]);
    } else if |s| >= 2 && !IsLineTerminator(s[1]) {
      MatchChunksShape(s[2..]);
      assert MatchChunks(s)[1..] == MatchChunks(s[2..]);
    } else {
      MatchChunksShape(s[1..]);
      assert MatchChunks(s)[1..] == MatchChunks(s[1..]);
    }
  }

  /** `s.match(/.{1,2}/g)`: `null` when nothing matches, that is, when the
      string is empty or made only of line terminators. */
  function MatchPairs(s: string): (r: Option<seq<string>>)
    ensures r.None? <==> AllLineTerminators(s)
    ensures r.Some? ==> r.value == MatchChunks(s)
  {
    var chunks := MatchChunks(s);
    if chunks == [] then None else Some(chunks)
  }

  /** Value of a hexadecimal digit of either case. */
  function HexValue(c: char): (r: Option<nat>)
    ensures r.Some? ==> r.value < 16
  {
    if '0' <= c <= '9' then Some(c as int - '0' as int)
    else if 'a' <= c <= 'f' then Some(c as int - 'a' as int + 10)
    else if 'A' <= c <= 'F' then Some(c as int - 'A' as int + 10)
    else None
  }

  /** Length of the run of hexadecimal digits at the start of `s`. */
  function LeadingHexDigits(s: string): (n: nat)
    ensures n <= |s|
    ensures forall k :: 0 <= k < n ==> HexValue(s[k]).Some?
  {
    if s != [] && HexValue(s[0]).Some? then 1 + LeadingHexDigits(s[1..]) else 0
  }

  /** The number a run of hexadecimal digits denotes. */
  function DigitsValue(s: string): (v: nat)
    requires forall k :: 0 <= k < |s| ==> HexValue(s[k]).Some?
    ensures |s| <= 1 ==> v < 16
    ensures |s| <= 2 ==> v < 256
  {
    if s == [] then 0 else DigitsValue(s[..|s| - 1]) * 16 + HexValue(s[|s| - 1]).value
  }

  /** `s` starts with the `0x` or `0X` that `parseInt` skips when the radix is 16. */
  predicate HasHexPrefix(s: string)
  {
    |s| >= 2 && s[0] == '0' && (s[1] == 'x' || s[1] == 'X')
  }

  /** `parseInt(s, 16)`: past an optional `0x`/`0X`, the value of the leading
      hexadecimal digits, `NaN` (None) when there are none. */
  function ParseIntHex(s: string): (r: Option<nat>)
    ensures !HasHexPrefix(s) ==> (r.None? <==> (s == [] || HexValue(s[0]).None?))
    ensures HasHexPrefix(s) ==> (r.None? <==> (|s| == 2 || HexValue(s[2]).None?))
  {
    var digits := if HasHexPrefix(s) then s[2..] else s;
    var n := LeadingHexDigits(digits);
    if n == 0 then None else Some(DigitsValue(digits[..n]))
  }

  /** Examples: a chunk that is only the prefix is `NaN`, a lone `0` is zero. */
  lemma PrefixOnlyChunk()
    ensures ParseIntHex("0x") == None && ParseIntHex("0X") == None
    ensures ParseIntHex("0") == Some(0)
  {
    assert HasHexPrefix("0x") && HasHexPrefix("0X") && !HasHexPrefix("0");
    assert LeadingHexDigits("0") == 1;
    assert "0"[..1] == "0";
  }

  /** The Uint8Array conversion of a number: NaN becomes 0, others are taken modulo 256. */
  function ToUint8(v: Option<nat>): (b: byte)
    ensures v.None? ==> b == 0
    ensures v.Some? && v.value < 256 ==> b == v.value
  {
    if v.None? then 0 else v.value % 256
  }

  function ChunkBytes(chunks: seq<string>): (bytes: seq<byte>)
    ensures |bytes| == |chunks|
    ensures forall k :: 0 <= k < |chunks| ==> bytes[k] == ToUint8(ParseIntHex(chunks[k]))
  {
    if chunks == [] then [] else [ToUint8(ParseIntHex(chunks[0]))] + ChunkBytes(chunks[1..])
  }

  /** The salt bytes hashPassword hands to PBKDF2; None where `.map` is called on `null` and throws. */
  function DecodeSalt(salt: string): (r: Option<seq<byte>>)
    ensures r.None? <==> AllLineTerminators(salt)
  {
    match MatchPairs(salt)
    case None => None
    case Some(chunks) => Some(ChunkBytes(chunks))
  }

  // ---------------------------------------------------------------------------
  // hashPassword and verifyPassword

  /** hashPassword: the derived key as 64 lower-case hexadecimal digits; None where it throws. */
  function HashPassword(kdf: KeyDerivation, password: string, salt: string): (r: Option<string>)
    ensures r.None? <==> AllLineTerminators(salt)
    ensures r.Some? ==> |r.value| == DerivedBits / 4
  {
    match DecodeSalt(salt)
    case None => None
    case Some(bytes) => Some(BufferToHex(kdf(Pbkdf2Params("SHA-256", bytes, Iterations), password)))
  }

  /** verifyPassword: the recomputed hash equals the stored one; None where hashing throws. */
  function VerifyPassword(kdf: KeyDerivation, password: string, salt: string, hash: string): (r: Option<bool>)
    ensures r.None? <==> AllLineTerminators(salt)
    ensures r == Some(true) <==> HashPassword(kdf, password, salt) == Some(hash)
  {
    match HashPassword(kdf, password, salt)
    case None => None
    case Some(h) => Some(h == hash)
  }

  // ---------------------------------------------------------------------------
  // Properties

  lemma {:induction false} ParseByteHex(b: byte)
    ensures ParseIntHex(ByteToHex(b)) == Some(b)
  {
    var s := ByteToHex(b);
    assert LeadingHexDigits(s[1..]) == 1;
    assert LeadingHexDigits(s) == 2;
    assert s[..2] == s;
    assert s[..1] == [HexDigit(b / 16)];
    assert DigitsValue(s[..1]) == b / 16;
  }

  /** The matches in the hexadecimal encoding of a buffer are the bytes' encodings. */
  lemma {:induction false} MatchChunksOfHex(bytes: seq<byte>)
    ensures MatchChunks(BufferToHex(bytes)) == seq(|bytes|, k requires 0 <= k < |bytes| => ByteToHex(bytes[k]))
  {
    var s := BufferToHex(bytes);
    var want := seq(|bytes|, k requires 0 <= k < |bytes| => ByteToHex(bytes[k]));
    if bytes != [] {
      MatchChunksOfHex(bytes[1..]);
      assert s[..2] == ByteToHex(bytes[0]);
      assert s[2..] == BufferToHex(bytes[1..]);
      assert !IsLineTerminator(s[0]) && !IsLineTerminator(s[1]);
      assert MatchChunks(s) == [s[..2]] + MatchChunks(s[2..]);
      assert want == [ByteToHex(bytes[0])] + seq(|bytes[1..]|, k requires 0 <= k < |bytes[1..]| => ByteToHex(bytes[1..][k]));
    }
  }

  /** The chunk that encodes a byte is stored back as that byte. */
  lemma ByteChunk(chunk: string, b: byte)
    requires chunk == ByteToHex(b)
    ensures ToUint8(ParseIntHex(chunk)) == b
  {
    ParseByteHex(b);
  }

  lemma ChunkBytesOfHex(chunks: seq<string>, bytes: seq<byte>)
    requires |chunks| == |bytes|
    requires forall k :: 0 <= k < |bytes| ==> chunks[k] == ByteToHex(bytes[k])
    ensures ChunkBytes(chunks) == bytes
  {
    var decoded := ChunkBytes(chunks);
    forall k | 0 <= k < |bytes|
      ensures decoded[k] == bytes[k]
    {
      ByteChunk(chunks[k], bytes[k]);
    }
  }

  /** Round trip: decoding the hexadecimal encoding of a non-empty buffer gives the buffer back. */
  lemma DecodeEncode(bytes: seq<byte>)
    requires bytes != []
    ensures DecodeSalt(BufferToHex(bytes)) == Some(bytes)
  {
    MatchChunksOfHex(bytes);
    ChunkBytesOfHex(MatchChunks(BufferToHex(bytes)), bytes);
  }

  /** A salt from generateSalt(length) has 2 * length characters and decodes back to the random bytes. */
  lemma GeneratedSaltDecodes(random: seq<byte>)
    requires random != []
    ensures |GenerateSalt(random)| == 2 * |random|
    ensures DecodeSalt(GenerateSalt(random)) == Some(random)
  {
    GenerateSaltIsBufferToHex(random);
    DecodeEncode(random);
  }

  /** Example: a line break inside a salt is skipped: `ab\ncd` decodes to the bytes 0xab
      and 0xcd. A salt that is only a line break, or empty, makes hashPassword throw. */
  lemma LineBreakInSalt()
    ensures DecodeSalt("ab\ncd") == Some([0xab, 0xcd])
    ensures DecodeSalt("\n") == None && DecodeSalt("") == None
  {
    MatchAcrossLineBreak();
    ParseHexPair('a', 'b');
    ParseHexPair('c', 'd');
    var chunks := ["ab", "cd"];
    assert ParseIntHex(chunks[0]) == Some(0xab) && ToUint8(Some(0xab)) == 0xab;
    assert ParseIntHex(chunks[1]) == Some(0xcd) && ToUint8(Some(0xcd)) == 0xcd;
    assert chunks[1..] == ["cd"] && ["cd"][1..] == [];
    assert ChunkBytes(["cd"]) == [0xcd];
    assert ChunkBytes(chunks) == [0xab, 0xcd];
    assert AllLineTerminators("\n");
  }

  /** Example: the matches in `ab\ncd` are `ab` and `cd`; the general fact is
      MatchChunksConcat. */
  lemma MatchAcrossLineBreak()
    ensures MatchChunks("ab\ncd") == ["ab", "cd"]
  {
    var s := "ab\ncd";
    var cd := s[3..];
    assert cd[..2] == "cd" && cd[2..] == [];
    assert MatchChunks(cd) == ["cd"];
    assert s[2..][1..] == cd;
    assert MatchChunks(s[2..]) == ["cd"];
    assert s[..2] == "ab";
  }

  /** Two hexadecimal digits parse to the byte they denote. */
  lemma ParseHexPair(c: char, d: char)
    requires HexValue(c).Some? && HexValue(d).Some?
    ensures ParseIntHex([c, d]) == Some(16 * HexValue(c).value + HexValue(d).value)
  {
    var s := [c, d];
    assert s[1..] == [d] && [d][1..] == [];
    assert LeadingHexDigits(s) == 2;
    assert s[..2] == s && s[..|s| - 1] == [c] && [c][..0] == [];
    assert DigitsValue([c]) == HexValue(c).value;
    assert DigitsValue(s) == DigitsValue([c]) * 16 + HexValue(d).value;
  }

  /** Hashing with a generated salt feeds PBKDF2 exactly the random bytes, with SHA-256 and 100,000 iterations. */
  lemma HashWithGeneratedSalt(kdf: KeyDerivation, password: string, random: seq<byte>)
    requires random != []
    ensures HashPassword(kdf, password, GenerateSalt(random))
            == Some(BufferToHex(kdf(Pbkdf2Params("SHA-256", random, Iterations), password)))
  {
    GeneratedSaltDecodes(random);
  }

  /** A stored hash is 64 lower-case hexadecimal digits whatever the password. */
  lemma HashIsLowerHex(kdf: KeyDerivation, password: string, salt: string)
    requires !AllLineTerminators(salt)
    ensures |HashPassword(kdf, password, salt).value| == 64
    ensures IsLowerHex(HashPassword(kdf, password, salt).value)
  {
    BufferToHexSpec(kdf(Pbkdf2Params("SHA-256", DecodeSalt(salt).value, Iterations), password));
  }

  /** A password always verifies against its own hash. */
  lemma VerifyOwnHash(kdf: KeyDerivation, password: string, salt: string)
    requires !AllLineTerminators(salt)
    ensures VerifyPassword(kdf, password, salt, HashPassword(kdf, password, salt).value) == Some(true)
  {
  }

  /** The hash is a function of the derived key: two passwords whose derived keys differ never share a hash. */
  lemma {:induction false} BufferToHexInjective(a: seq<byte>, b: seq<byte>)
    requires BufferToHex(a) == BufferToHex(b)
    ensures a == b
  {
    if a != [] && b != [] {
      var s := BufferToHex(a);
      assert s[..2] == ByteToHex(a[0]) && s[..2] == ByteToHex(b[0]);
      assert a[0] == b[0] by { ParseByteHex(a[0]); ParseByteHex(b[0]); }
      assert BufferToHex(a[1..]) == s[2..] == BufferToHex(b[1..]);
      BufferToHexInjective(a[1..], b[1..]);
    }
  }
}
