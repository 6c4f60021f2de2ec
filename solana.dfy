/** Runtime vocabulary the registry program is written against: fixed-width
    integers, public keys, and program-derived addresses (PDAs).

    A PDA is found from a list of seeds: the runtime concatenates the seeds,
    appends a one-byte "bump", and hashes the result; the bump is the first
    one (searching down from 255) whose hash is not a point on the curve.
    The hash is modelled by its preimage, so it is injective by construction,
    and the curve test that decides the bump is an injected function. */
module Solana {

  newtype u8 = x: int | 0 <= x < 0x100
  newtype u64 = x: int | 0 <= x < 0x1_0000_0000_0000_0000

  /** An ed25519 public key: 32 raw bytes. */
  type Pubkey = s: seq<u8> | |s| == 32 witness seq(32, _ => 0 as u8)

  datatype Option<+T> = None | Some(value: T)

  /** Maximum length of a single seed, in bytes. */
  const MaxSeedLen: nat := 32
  /** Maximum number of seeds, the bump included. */
  const MaxSeeds: nat := 16

  /** Any account address: an ordinary key, or an address derived from the
      concatenated seeds followed by the bump (the hash is left abstract). */
  datatype Address = Key(key: Pubkey) | ProgramDerived(preimage: seq<u8>)

  /** The runtime's bump search, as a function of the concatenated seeds. */
  type BumpSearch = seq<u8> -> u8

  /** The bytes of a string all of whose characters are ASCII (one byte each
      in UTF-8). */
  function AsciiBytes(s: string): seq<u8>
    requires forall i :: 0 <= i < |s| ==> s[i] < 128 as char
  {
    seq(|s|, i requires 0 <= i < |s| => s[i] as int as u8)
  }

  /** Distinct ASCII strings have distinct bytes, so names compared as bytes
      are compared as strings. */
  lemma AsciiBytesInjective(s: string, t: string)
    requires forall i :: 0 <= i < |s| ==> s[i] < 128 as char
    requires forall i :: 0 <= i < |t| ==> t[i] < 128 as char
    ensures AsciiBytes(s) == AsciiBytes(t) ==> s == t
  {
    if AsciiBytes(s) == AsciiBytes(t) {
      assert |s| == |AsciiBytes(s)| == |t|;
      forall i | 0 <= i < |s| ensures s[i] == t[i] {
        assert AsciiBytes(s)[i] == AsciiBytes(t)[i];
      }
    }
  }

  function Concat(seeds: seq<seq<u8>>): seq<u8> {
    if seeds == [] then [] else seeds[0] + Concat(seeds[1..])
  }

  lemma ConcatPair(a: seq<u8>, b: seq<u8>)
    ensures Concat([a, b]) == a + b
  {
    assert [a, b][1..] == [b];
    assert [b][1..] == [];
    assert Concat([b]) == b + Concat([]);
    assert b + [] == b;
  }

  predicate SeedsWithinLimits(seeds: seq<seq<u8>>) {
    |seeds| < MaxSeeds && forall i :: 0 <= i < |seeds| ==> |seeds[i]| <= MaxSeedLen
  }

  /** `Pubkey::find_program_address`: fails when a seed is too long (or
      there are too many), otherwise yields the address and its bump. */
  function FindProgramAddress(seeds: seq<seq<u8>>, search: BumpSearch): Option<(Address, u8)>
  {
    if SeedsWithinLimits(seeds) then
      var bump := search(Concat(seeds));
      Some((ProgramDerived(Concat(seeds) + [bump]), bump))
    else
      None
  }

  /** Derivation is deterministic and the address determines what was
      hashed: two seed lists that derive the same address have the same
      concatenation and were given the same bump. */
  lemma AddressDeterminesSeeds(s1: seq<seq<u8>>, s2: seq<seq<u8>>, search: BumpSearch)
    requires FindProgramAddress(s1, search).Some? && FindProgramAddress(s2, search).Some?
    requires FindProgramAddress(s1, search).value.0 == FindProgramAddress(s2, search).value.0
    ensures Concat(s1) == Concat(s2)
    ensures FindProgramAddress(s1, search) == FindProgramAddress(s2, search)
  {
    var p := FindProgramAddress(s1, search).value.0.preimage;
    assert Concat(s1) == p[..|p| - 1] == Concat(s2);
  }

  /** For a fixed first seed, the derived address determines the second
      seed: two seed lists `[tag, x]`, `[tag, y]` that derive the same
      address have `x == y`. (With different tags this fails, since the
      seeds are concatenated before hashing.) */
  lemma SameTagAddressInjective(tag: seq<u8>, x: seq<u8>, y: seq<u8>, search: BumpSearch)
    requires FindProgramAddress([tag, x], search).Some? && FindProgramAddress([tag, y], search).Some?
    requires FindProgramAddress([tag, x], search).value.0 == FindProgramAddress([tag, y], search).value.0
    ensures x == y
  {
    ConcatPair(tag, x);
    ConcatPair(tag, y);
    var p := FindProgramAddress([tag, x], search).value.0.preimage;
    assert p == tag + x + [search(tag + x)] == tag + y + [search(tag + y)];
    assert |x| == |y|;
    assert x == p[|tag|..|tag| + |x|];
    assert y == p[|tag|..|tag| + |y|];
  }

  /** The concatenation is what is hashed: seeds split differently can
      derive the same address. */
  lemma SplitSeedsCollide(search: BumpSearch)
    ensures FindProgramAddress([[1], [2, 3]], search) == FindProgramAddress([[1, 2], [3]], search)
  {
    ConcatPair([1], [2, 3]);
    ConcatPair([1, 2], [3]);
    var x: seq<u8>, y: seq<u8> := [1] + [2, 3], [1, 2] + [3];
    assert x == [1, 2, 3] == y;
  }
}
