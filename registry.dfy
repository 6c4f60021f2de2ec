/** The challenge registry program: one account type,
    `ChallengeRegistryMetadata`, stored at the program-derived address of
    the seeds `["challenge", name]`, and three instructions. Only
    `create_challenge` touches state; `stake_challenge` and
    `claim_challenge` log a greeting and succeed.

    The accounts the program owns are a map from address to record. A
    transaction that fails is reverted by the runtime, so every failed
    instruction leaves that map as it was. */
module ChallengeRegistry {
  import opened Solana

  /** The stored record (field order is the serialized order). */
  datatype ChallengeRegistryMetadata = ChallengeRegistryMetadata(
    name: seq<u8>,
    uri: seq<u8>,
    nft: Pubkey,
    totalStaked: u64,
    requireStake: u64,
    bump: u8)

  /** Why an instruction fails. */
  datatype ProgramError =
    | MaxSeedLengthExceeded   // the name is longer than a seed may be: the runtime's
                              // address derivation aborts the transaction
    | ConstraintSeeds         // the `pda` account passed is not the derived address
    | AccountAlreadyInUse     // `init` on an address that already holds an account
    | AccountDidNotSerialize  // the record does not fit the allocated space

  datatype Outcome = Ok | Err(error: ProgramError)

  type Store = map<Address, ChallengeRegistryMetadata>

  /** The first seed of every challenge address: the bytes of "challenge". */
  const ChallengeTag: seq<u8> := AsciiBytes("challenge")

  function ChallengeSeeds(name: seq<u8>): seq<seq<u8>> {
    [ChallengeTag, name]
  }

  // Serialized sizes, in bytes, of the pieces of an account.
  const DiscriminatorLen: nat := 8
  const LengthPrefixLen: nat := 4
  const PubkeyLen: nat := 32
  const U64Len: nat := 8
  const U8Len: nat := 1

  /** The space allocated by `init`: the discriminator, then a budget of 32
      bytes of name and 200 bytes of uri, each after its length prefix, then
      the key, the two counters and the bump. */
  const Space: nat := 8 + (4 + 32) + (4 + 200) + 32 + 8 + 8 + 1

  /** Size of the account once the record is serialized after its
      discriminator: strings are a 4-byte length followed by their bytes. */
  function SerializedLen(m: ChallengeRegistryMetadata): nat {
    DiscriminatorLen
    + (LengthPrefixLen + |m.name|)
    + (LengthPrefixLen + |m.uri|)
    + PubkeyLen + U64Len + U64Len + U8Len
  }

  /** Whether the record can be written into the allocated account. The
      budget is shared: it is the name and uri TOGETHER that are limited
      to 232 bytes, not each to its own share (the 297 bytes of `Space`
      less the 65 bytes of everything else). */
  function Fits(m: ChallengeRegistryMetadata): (b: bool)
    ensures b <==> |m.name| + |m.uri| <= 232
  {
    assert Space == 297;
    SerializedLen(m) <= Space
  }

  /** What `Pubkey::find_program_address` yields for a challenge name. */
  function DeriveChallenge(name: seq<u8>, search: BumpSearch): Option<(Address, u8)> {
    FindProgramAddress(ChallengeSeeds(name), search)
  }

  /** Distinct names derive distinct addresses, and a name too long to be a
      seed derives none. */
  lemma DeriveChallengeInjective(x: seq<u8>, y: seq<u8>, search: BumpSearch)
    ensures DeriveChallenge(x, search).Some? <==> |x| <= MaxSeedLen
    ensures (DeriveChallenge(x, search).Some? && DeriveChallenge(y, search).Some? &&
             DeriveChallenge(x, search).value.0 == DeriveChallenge(y, search).value.0) ==> x == y
  {
    assert |ChallengeTag| == 9;
    assert ChallengeSeeds(x)[0] == ChallengeTag && ChallengeSeeds(x)[1] == x;
    if DeriveChallenge(x, search).Some? && DeriveChallenge(y, search).Some? &&
       DeriveChallenge(x, search).value.0 == DeriveChallenge(y, search).value.0 {
      SameTagAddressInjective(ChallengeTag, x, y, search);
    }
  }

  /** The registry invariant: every record sits at the address derived from
      its own name, carries the bump found for that address, fits its
      account, and has nothing staked. */
  ghost predicate WellFormed(s: Store, search: BumpSearch) {
    forall a :: a in s ==>
      DeriveChallenge(s[a].name, search) == Some((a, s[a].bump)) &&
      Fits(s[a]) &&
      s[a].totalStaked == 0
  }

  /** What the client reads back: the record at the address derived from
      the name, if there is one. */
  function Fetch(s: Store, name: seq<u8>, search: BumpSearch): Option<ChallengeRegistryMetadata> {
    match DeriveChallenge(name, search)
    case None => None
    case Some((a, _)) => if a in s then Some(s[a]) else None
  }

  /** `create_challenge` with its `Challenge` accounts constraint, on the
      store before the transaction: the outcome and the store after it.
      The checks run in the order of the generated account validation:
      derive the address, compare it with the `pda` passed, allocate (which
      fails if the address is taken), and, after the handler, serialize the
      record into the allocated space. */
  function ApplyCreate(s: Store, search: BumpSearch, pda: Address,
                       name: seq<u8>, uri: seq<u8>, nft: Pubkey, requireStake: u64): (r: (Outcome, Store))
    // success exactly when every check passes
    ensures r.0.Ok? <==>
      |name| <= MaxSeedLen && DeriveChallenge(name, search).value.0 == pda && pda !in s &&
      |name| + |uri| <= 232
    // each error names the first check that fails
    ensures r.0 == Err(MaxSeedLengthExceeded) <==> |name| > MaxSeedLen
    ensures r.0 == Err(ConstraintSeeds) <==> |name| <= MaxSeedLen && DeriveChallenge(name, search).value.0 != pda
    ensures r.0 == Err(AccountAlreadyInUse) <==>
      |name| <= MaxSeedLen && DeriveChallenge(name, search).value.0 == pda && pda in s
    // a failed create stores nothing
    ensures r.0.Err? ==> r.1 == s
    // a successful one stores the arguments as passed, nothing staked, and
    // the bump found for the address, at the address of the name ...
    ensures r.0.Ok? ==>
      Fetch(r.1, name, search) == Some(ChallengeRegistryMetadata(name, uri, nft, 0, requireStake,
                                                                DeriveChallenge(name, search).value.1))
    // ... adds that one address and leaves every other record alone
    ensures r.0.Ok? ==> r.1.Keys == s.Keys + {pda} && forall a :: a in s ==> a in r.1 && r.1[a] == s[a]
    // and keeps the registry invariant
    ensures WellFormed(s, search) ==> WellFormed(r.1, search)
  {
    DeriveChallengeInjective(name, name, search);
    match DeriveChallenge(name, search)
    case None => (Err(MaxSeedLengthExceeded), s)
    case Some((address, bump)) =>
      if pda != address then (Err(ConstraintSeeds), s)
      else if pda in s then (Err(AccountAlreadyInUse), s)
      else
        var metadata := ChallengeRegistryMetadata(name, uri, nft, 0, requireStake, bump);
        if !Fits(metadata) then (Err(AccountDidNotSerialize), s)
        else (Ok, s[pda := metadata])
  }

  /** The limits a create actually meets on an empty store, at the right
      address: a 1-byte name leaves room for a 231-byte uri (beyond the 200
      bytes budgeted for it); a 32-byte name with a 201-byte uri does not
      fit; a 33-byte name cannot be a seed at all. */
  lemma SizeLimits(search: BumpSearch, nft: Pubkey, stake: u64, anyPda: Address)
    ensures var short, longUri := seq(1, _ => 0x61 as u8), seq(231, _ => 0x61 as u8);
            ApplyCreate(map[], search, DeriveChallenge(short, search).value.0, short, longUri, nft, stake).0 == Ok
    ensures var full, uri := seq(32, _ => 0x61 as u8), seq(201, _ => 0x61 as u8);
            ApplyCreate(map[], search, DeriveChallenge(full, search).value.0, full, uri, nft, stake).0
              == Err(AccountDidNotSerialize)
    ensures ApplyCreate(map[], search, anyPda, seq(33, _ => 0x61 as u8), [], nft, stake).0 == Err(MaxSeedLengthExceeded)
  {
    DeriveChallengeInjective(seq(1, _ => 0x61 as u8), [], search);
    DeriveChallengeInjective(seq(32, _ => 0x61 as u8), [], search);
  }

  /** The program's accounts, updated in place by its instructions. The
      bump search is fixed for the life of the program (it depends only on
      the seeds and the program id). */
  class Registry {
    const bumpSearch: BumpSearch
    var accounts: Store

    ghost predicate Valid()
      reads this
    {
      WellFormed(accounts, bumpSearch)
    }

    /** A freshly deployed program owns no accounts. */
    constructor (bumpSearch: BumpSearch)
      ensures this.bumpSearch == bumpSearch && accounts == map[]
      ensures Valid()
    {
      this.bumpSearch := bumpSearch;
      accounts := map[];
    }

    /** `create_challenge(name, uri, nft, require_stake)` with `pda` the
        account the client passes for the new record. */
    method CreateChallenge(pda: Address, name: seq<u8>, uri: seq<u8>, nft: Pubkey, requireStake: u64)
      returns (r: Outcome)
      requires Valid()
      modifies this`accounts
      ensures Valid()
      ensures (r, accounts) == ApplyCreate(old(accounts), bumpSearch, pda, name, uri, nft, requireStake)
    {
      var found := FindProgramAddress(ChallengeSeeds(name), bumpSearch);
      if found.None? {
        return Err(MaxSeedLengthExceeded);
      }
      var (address, bump) := found.value;
      if pda != address {
        return Err(ConstraintSeeds);
      }
      if pda in accounts {
        return Err(AccountAlreadyInUse);
      }
      var metadata := ChallengeRegistryMetadata(name, uri, nft, 0, requireStake, bump);
      if SerializedLen(metadata) > Space {
        return Err(AccountDidNotSerialize);
      }
      accounts := accounts[pda := metadata];
      r := Ok;
    }

    /** `stake_challenge`: takes no accounts and no arguments, and succeeds
        without touching any account (it has no `modifies` clause). */
    method StakeChallenge() returns (r: Outcome)
      requires Valid()
      ensures r == Ok
    {
      r := Ok;
    }

    /** `claim_challenge`: the same empty handler; it neither resets
        `total_staked` nor marks anything claimed. */
    method ClaimChallenge() returns (r: Outcome)
      requires Valid()
      ensures r == Ok
    {
      r := Ok;
    }

    /** The record the client reads for a name. */
    method FetchChallenge(name: seq<u8>) returns (m: Option<ChallengeRegistryMetadata>)
      requires Valid()
      ensures m == Fetch(accounts, name, bumpSearch)
      ensures m.Some? ==> m.value.name == name && m.value.totalStaked == 0
    {
      var found := FindProgramAddress(ChallengeSeeds(name), bumpSearch);
      if found.None? {
        return None;
      }
      var address := found.value.0;
      if address in accounts {
        m := Some(accounts[address]);
        DeriveChallengeInjective(name, m.value.name, bumpSearch);
      } else {
        m := None;
      }
    }
  }
}
