/**
 * The sequential helpers of util.hpp: the multiply-33/xor string hash, the
 * enum-to-bitmask helper `bit_flags` and `find_or`.
 *
 * `size_t` is the 64-bit word of the Windows x64 target, so the hash works on
 * `bv64`, whose multiplication wraps around exactly as the source's does.
 * `char` is signed on that target: a byte of 0x80 or more is sign-extended
 * before it is xored into the word.
 */
module Util {

  /** The hash word (`hash_t`, i.e. `size_t`). */
  type Hash = bv64

  const NUL: char := 0 as char
  const HASH_SEED: Hash := 5381

  /** A `std::string` holds bytes: every character is below 256. */
  predicate IsByteString(s: string) {
    forall i | 0 <= i < |s| :: s[i] as int < 256
  }

  predicate HasNoNul(s: string) {
    forall i | 0 <= i < |s| :: s[i] != NUL
  }

  /** The bytes of a byte string. */
  function Bytes(s: string): (b: seq<bv8>)
    requires IsByteString(s)
    ensures |b| == |s|
  {
    seq(|s|, i requires 0 <= i < |s| => s[i] as int as bv8)
  }

  /** A `char` promoted to `size_t`: bytes 0x80..0xFF are negative and sign-extend. */
  function Promote(b: bv8): (p: Hash)
    ensures p & 0xFF == b as Hash
    ensures p >> 8 == if b < 0x80 then 0 else 0xFF_FFFF_FFFF_FFFF
  {
    if b < 0x80 then b as Hash else (b as Hash) | 0xFFFF_FFFF_FFFF_FF00
  }

  /**
   * One step of the loop: `result = result * 33 ^ *str`, on the wrapping
   * 64-bit word.
   */
  function HashStep(h: Hash, b: bv8): Hash
  {
    Times33(h) ^ Promote(b)
  }

  /** `result * 33` on the wrapping 64-bit word. */
  function Times33(h: Hash): Hash
  {
    h * 33
  }

  /**
   * The loop of `utf8string_hash(char const*)` started from word `h`: it reads
   * bytes until the first NUL (or, in this model, the end of the buffer).
   */
  function HashFrom(h: Hash, s: seq<bv8>): (r: Hash)
    ensures forall i | 0 <= i < |s| && s[i] == 0 :: r == HashFrom(h, s[..i])
    decreases |s|
  {
    if |s| == 0 || s[0] == 0 then
      assert forall i | 0 <= i < |s| && s[i] == 0 :: HashFrom(h, s[..i]) == h by {
        forall i | 0 <= i < |s| && s[i] == 0 ensures HashFrom(h, s[..i]) == h {
          if i > 0 { assert s[..i][0] == s[0]; }
        }
      }
      h
    else
      var r := HashFrom(HashStep(h, s[0]), s[1..]);
      assert forall i | 0 < i < |s| :: s[..i][1..] == s[1..][..i - 1];
      r
  }

  /** `utf8string_hash(char const* str)`: the text up to the first NUL decides the hash. */
  function HashCStr(buffer: string): (r: Hash)
    requires IsByteString(buffer)
    ensures forall i | 0 <= i < |buffer| && buffer[i] == NUL :: r == HashCStr(buffer[..i])
  {
    var b := Bytes(buffer);
    assert forall i | 0 <= i < |buffer| :: Bytes(buffer[..i]) == b[..i];
    assert forall i | 0 <= i < |buffer| && buffer[i] == NUL :: b[i] == 0;
    HashFrom(HASH_SEED, b)
  }

  /**
   * `utf8string_hash(utf8string const&)`: hashes `str.data()`, which is
   * NUL-terminated, so a text without NUL is hashed in full and one with a
   * NUL only up to it.
   */
  function HashString(s: string): (r: Hash)
    requires IsByteString(s)
    ensures HasNoNul(s) ==> r == HashFrom(HASH_SEED, Bytes(s))
    ensures forall i | 0 <= i < |s| && s[i] == NUL :: r == HashCStr(s[..i])
  {
    BytesAppend(s, [NUL]);
    assert Bytes([NUL]) == [0 as bv8];
    if HasNoNul(s) then
      NoZeroBytes(s);
      HashAppend(HASH_SEED, Bytes(s), [0 as bv8]);
      assert forall i | 0 <= i < |s| && s[i] == NUL :: false;
      HashCStr(s + [NUL])
    else
      assert forall i | 0 <= i < |s| :: (s + [NUL])[..i] == s[..i];
      HashCStr(s + [NUL])
  }

  /**
   * A `boost::string_ref`: a view of `length` characters at the start of
   * `buffer`. Nothing guarantees a NUL at position `length`.
   */
  datatype StringRef = StringRef(buffer: string, length: nat)

  /**
   * `utf8string_hash(string_ref)`: hashes `str.data()`, so it ignores
   * `length` and stops at the storage's first NUL instead.
   */
  function HashStringRef(r: StringRef): (h: Hash)
    requires IsByteString(r.buffer)
    ensures forall i | 0 <= i < |r.buffer| && r.buffer[i] == NUL :: h == HashCStr(r.buffer[..i])
  {
    HashCStr(r.buffer)
  }

  /** Hashing a concatenation continues from the hash of its NUL-free prefix. */
  lemma {:induction false} HashAppend(h: Hash, a: seq<bv8>, b: seq<bv8>)
    requires forall i | 0 <= i < |a| :: a[i] != 0
    ensures HashFrom(h, a + b) == HashFrom(HashFrom(h, a), b)
    decreases |a|
  {
    if |a| == 0 {
      assert a + b == b;
    } else {
      assert (a + b)[1..] == a[1..] + b;
      HashAppend(HashStep(h, a[0]), a[1..], b);
    }
  }

  /** One byte of the loop, unfolded. */
  lemma HashCons(h: Hash, b: bv8, rest: seq<bv8>)
    requires b != 0
    ensures HashFrom(h, [b] + rest) == HashFrom(HashStep(h, b), rest)
  {
    assert ([b] + rest)[1..] == rest;
  }

  /** The hash of a string is the loop over the bytes of its NUL-terminated buffer. */
  lemma HashStringBytes(s: string, b: seq<bv8>)
    requires IsByteString(s + [NUL]) && Bytes(s + [NUL]) == b
    ensures IsByteString(s) && HashString(s) == HashFrom(HASH_SEED, b)
  {
    assert forall i | 0 <= i < |s| :: s[i] == (s + [NUL])[i];
  }

  /** Nothing after the first NUL byte counts. */
  lemma NulEndsHash(h: Hash, rest: seq<bv8>)
    ensures HashFrom(h, [0 as bv8] + rest) == h
  {
  }

  /** The bytes of a concatenation are the concatenated bytes. */
  lemma BytesAppend(a: string, b: string)
    requires IsByteString(a) && IsByteString(b)
    ensures IsByteString(a + b)
    ensures Bytes(a + b) == Bytes(a) + Bytes(b)
  {
    assert forall i | 0 <= i < |a| :: (a + b)[i] == a[i];
    assert forall i | |a| <= i < |a| + |b| :: (a + b)[i] == b[i - |a|];
  }

  /** A string whose characters have the values `b` is a byte string of bytes `b`. */
  lemma BytesOf(s: string, b: seq<bv8>)
    requires |s| == |b| && forall i | 0 <= i < |s| :: s[i] as int == b[i] as int
    ensures IsByteString(s) && Bytes(s) == b
  {
  }

  /** Only the NUL character becomes the zero byte. */
  lemma ZeroByteIsNul(c: char)
    requires c as int < 256
    ensures (c as int as bv8 == 0) <==> c == NUL
  {
  }

  /** A byte string without NUL characters has no zero bytes. */
  lemma NoZeroBytes(s: string)
    requires IsByteString(s) && HasNoNul(s)
    ensures forall i | 0 <= i < |s| :: Bytes(s)[i] != 0
  {
    forall i | 0 <= i < |s| ensures Bytes(s)[i] != 0 {
      ZeroByteIsNul(s[i]);
    }
  }

  /**
   * Equal text gives an equal hash: a `string_ref` whose buffer holds the text
   * followed by a NUL hashes like the `std::string` of that text, whatever
   * follows the NUL.
   */
  lemma StringRefHashMatchesString(r: StringRef, s: string, rest: string)
    requires IsByteString(s) && IsByteString(rest) && HasNoNul(s)
    requires r.buffer == s + [NUL] + rest && r.length == |s|
    ensures IsByteString(r.buffer)
    ensures HashStringRef(r) == HashString(s)
  {
    var bs, br := Bytes(s), Bytes(rest);
    BytesAppend(s, [NUL]);
    BytesAppend(s + [NUL], rest);
    assert Bytes([NUL]) == [0 as bv8];
    NoZeroBytes(s);
    assert Bytes(r.buffer) == bs + ([0 as bv8] + br);
    HashAppend(HASH_SEED, bs, [0 as bv8] + br);
    HashAppend(HASH_SEED, bs, [0 as bv8]);
  }

  /**
   * A `string_ref` hash ignores the view's length: when the buffer has no NUL,
   * the characters past `length` are hashed as well.
   */
  lemma StringRefHashReadsPastLength(r: StringRef)
    requires IsByteString(r.buffer) && HasNoNul(r.buffer) && r.length <= |r.buffer|
    ensures HashStringRef(r) == HashString(r.buffer)
    ensures HashStringRef(r)
         == HashFrom(HashFrom(HASH_SEED, Bytes(r.buffer[..r.length])), Bytes(r.buffer[r.length..]))
  {
    var b := Bytes(r.buffer);
    BytesAppend(r.buffer, [NUL]);
    assert Bytes([NUL]) == [0 as bv8];
    NoZeroBytes(r.buffer);
    HashAppend(HASH_SEED, b, [0 as bv8]);
    var pre, post := r.buffer[..r.length], r.buffer[r.length..];
    assert r.buffer == pre + post;
    BytesAppend(pre, post);
    NoZeroBytes(pre);
    HashAppend(HASH_SEED, Bytes(pre), Bytes(post));
  }

  // ---------------------------------------------------------------------------
  // bit_flags<EnumType>
  // ---------------------------------------------------------------------------

  /** Width in bits of the enum's unsigned underlying type (`bits` in the source). */
  predicate IsStorageWidth(bits: bv32) {
    bits == 8 || bits == 16 || bits == 32
  }

  /** A mask fits the storage type: no bit at or above `bits` is set. */
  predicate FitsStorage(mask: bv32, bits: bv32) {
    bits < 32 ==> mask < (1 as bv32) << bits
  }

  /** An enumerator `bit_flags::get_value` accepts: 0, or `v - 1 < bits`. */
  predicate IsFlag(v: bv32, bits: bv32) {
    v == 0 || v - 1 < bits
  }

  /**
   * `bit_flags::get_value`: enumerator value 0 maps to the empty mask, value
   * `v` > 0 to the single bit `v - 1`.
   */
  function FlagBit(v: bv32, bits: bv32): (m: bv32)
    requires IsStorageWidth(bits) && IsFlag(v, bits)
    ensures v == 0 <==> m == 0
    ensures v != 0 ==> m & (m - 1) == 0
    ensures FitsStorage(m, bits)
  {
    if v == 0 then 0 else (1 as bv32) << (v - 1)
  }

  /** `operator&`: is the flag's bit set in the mask? The zero enumerator never is. */
  function TestFlag(mask: bv32, v: bv32, bits: bv32): (r: bool)
    requires IsStorageWidth(bits) && IsFlag(v, bits)
    ensures v == 0 ==> !r
    ensures v != 0 ==> (r <==> (mask >> (v - 1)) & 1 == 1)
  {
    mask & FlagBit(v, bits) != 0
  }

  /** Two different non-zero enumerators own different bits. */
  lemma FlagBitsDisjoint(f: bv32, g: bv32, bits: bv32)
    requires IsStorageWidth(bits) && IsFlag(f, bits) && IsFlag(g, bits)
    requires f != g
    ensures FlagBit(f, bits) & FlagBit(g, bits) == 0
  {
  }

  /**
   * After `|= f`, `& f` holds for every non-zero flag `f`; every other flag
   * tests as it did before.
   */
  lemma OrFlagSetsOnlyThatFlag(mask: bv32, f: bv32, g: bv32, bits: bv32)
    requires IsStorageWidth(bits) && IsFlag(f, bits) && IsFlag(g, bits)
    ensures f != 0 ==> TestFlag(mask | FlagBit(f, bits), f, bits)
    ensures g != f ==> (TestFlag(mask | FlagBit(f, bits), g, bits) <==> TestFlag(mask, g, bits))
  {
    if g != f {
      FlagBitsDisjoint(f, g, bits);
    }
  }

  /** Adding one flag's bit leaves the test of every other flag as it was. */
  lemma OrKeepsOtherFlags(mask: bv32, f: bv32, bits: bv32)
    requires IsStorageWidth(bits) && IsFlag(f, bits)
    ensures forall g | IsFlag(g, bits) && g != f :: TestFlag(mask | FlagBit(f, bits), g, bits) == TestFlag(mask, g, bits)
  {
    forall g | IsFlag(g, bits) && g != f
      ensures TestFlag(mask | FlagBit(f, bits), g, bits) == TestFlag(mask, g, bits)
    {
      OrFlagSetsOnlyThatFlag(mask, f, g, bits);
    }
  }

  /** Every flag other than `f` tests the same in `before` and `after`. */
  ghost predicate OthersUnchanged(before: bv32, after: bv32, f: bv32, bits: bv32)
    requires IsStorageWidth(bits)
  {
    forall g | IsFlag(g, bits) && g != f :: TestFlag(after, g, bits) == TestFlag(before, g, bits)
  }

  /**
   * Or-ing flag `f` into a mask that fits the storage type: the result still
   * fits, `f` is set and every other flag tests as it did before.
   */
  lemma OrFacts(mask: bv32, f: bv32, bits: bv32, m: bv32)
    requires IsStorageWidth(bits) && IsFlag(f, bits) && FitsStorage(mask, bits)
    requires m == mask | FlagBit(f, bits)
    ensures FitsStorage(m, bits)
    ensures f != 0 ==> TestFlag(m, f, bits)
    ensures OthersUnchanged(mask, m, f, bits)
  {
    OrFlagSetsOnlyThatFlag(mask, f, f, bits);
    OrKeepsOtherFlags(mask, f, bits);
    OrFitsStorage(mask, FlagBit(f, bits), bits);
  }

  /** Or-ing two masks that fit the storage type gives a mask that fits it. */
  lemma OrFitsStorage(a: bv32, b: bv32, bits: bv32)
    requires IsStorageWidth(bits) && FitsStorage(a, bits) && FitsStorage(b, bits)
    ensures FitsStorage(a | b, bits)
  {
    if bits == 32 {
    } else if bits == 8 {
      assert a | b < 0x100;
    } else {
      assert a | b < 0x1_0000;
    }
  }

  /** `bit_flags<EnumType>`: a mask over the enumerators of one enum type. */
  class BitFlags {
    const bits: bv32
    var value: bv32

    ghost predicate Valid()
      reads this
    {
      IsStorageWidth(bits) && FitsStorage(value, bits)
    }

    /** The default constructor: no flag is set. */
    constructor Empty(bits: bv32)
      requires IsStorageWidth(bits)
      ensures Valid() && this.bits == bits && value == 0
      ensures forall v | IsFlag(v, bits) :: !Test(v)
    {
      this.bits := bits;
      value := 0;
    }

    /** `bit_flags(EnumType flag)`: exactly the flag's bit. */
    constructor Of(bits: bv32, v: bv32)
      requires IsStorageWidth(bits) && IsFlag(v, bits)
      ensures Valid() && this.bits == bits && value == FlagBit(v, bits)
    {
      this.bits := bits;
      value := FlagBit(v, bits);
    }

    /** `operator&`: the bit `v - 1` of the mask, for a non-zero enumerator `v`. */
    function Test(v: bv32): (r: bool)
      reads this
      requires Valid() && IsFlag(v, bits)
      ensures v == 0 ==> !r
      ensures v != 0 ==> (r <==> (value >> (v - 1)) & 1 == 1)
    {
      TestFlag(value, v, bits)
    }

    /** `operator|`: the mask with the flag's bit added, as a new value. */
    function Or(v: bv32): (m: bv32)
      reads this
      requires Valid() && IsFlag(v, bits)
      ensures FitsStorage(m, bits)
      ensures v != 0 ==> TestFlag(m, v, bits)
      ensures OthersUnchanged(value, m, v, bits)
    {
      var m := value | FlagBit(v, bits);
      OrFacts(value, v, bits, m);
      m
    }

    /** `operator|=`. */
    method OrAssign(v: bv32)
      requires Valid() && IsFlag(v, bits)
      modifies this
      ensures Valid()
      ensures value == old(value) | FlagBit(v, bits)
      ensures v != 0 ==> Test(v)
    {
      value := Or(v);
    }

    /**
     * `operator==`: the mask is exactly the enumerator's single bit, so the
     * flag tests true and every other flag tests false.
     */
    function Equals(v: bv32): (r: bool)
      reads this
      requires Valid() && IsFlag(v, bits)
      ensures r ==> (Test(v) <==> v != 0)
      ensures r ==> forall g | IsFlag(g, bits) && g != v :: !TestFlag(value, g, bits)
    {
      OrKeepsOtherFlags(0, v, bits);
      value == FlagBit(v, bits)
    }

    /** `reset()`. */
    method Reset()
      requires Valid()
      modifies this
      ensures Valid() && value == 0
    {
      value := 0;
    }

    /** `reset(flag)`: afterwards the mask equals exactly that flag. */
    method ResetTo(v: bv32)
      requires Valid() && IsFlag(v, bits)
      modifies this
      ensures Valid() && value == FlagBit(v, bits)
      ensures Equals(v)
    {
      value := FlagBit(v, bits);
    }
  }

  // ---------------------------------------------------------------------------
  // find_or
  // ---------------------------------------------------------------------------

  /** `find_or(container, key, fallback)`: the mapped value if the key is present, otherwise the fallback. */
  function FindOr<K, V>(m: map<K, V>, key: K, fallback: V): (r: V)
    ensures key in m ==> r == m[key]
    ensures key !in m ==> r == fallback
  {
    if key in m then m[key] else fallback
  }
}
