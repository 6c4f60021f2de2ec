# Challenge registry program — a verified Dafny model

The repository's on-chain Anchor program, `challenge_registry_program`,
keeps one kind of account. That account is a `ChallengeRegistryMetadata`
record holding a challenge's name, metadata URI, reward NFT key, staked
total, required stake and address bump. Each record lives at the
program-derived address (PDA) of the seeds `["challenge", name]`. The
program has three instructions:

- `create_challenge(name, uri, nft, require_stake)` allocates the record at
  that address with the `init` constraint, so it fails if the address is
  already taken. It then stores the arguments with `total_staked = 0` and
  the bump the runtime found. The account has a fixed size of 297 bytes.
- `stake_challenge` and `claim_challenge` take no accounts and no
  arguments. They log a greeting and succeed.

The model has three modules:

- `Solana` (`solana.dfy`) holds the runtime vocabulary: `u8`, `u64`,
  `Pubkey`, account addresses and `FindProgramAddress`. Derivation
  succeeds when every seed is at most 32 bytes and there are fewer than
  16 seeds (the bump takes the last place). The address hash is modelled by its preimage,
  which is the concatenated seeds followed by the bump, so it is injective.
  The bump search that picks the bump is an injected function.
- `ChallengeRegistry` (`registry.dfy`) holds the record, the space budget
  and `ApplyCreate`. `ApplyCreate` is the pure specification of
  `create_challenge` together with its `Challenge` accounts constraint.
  The module also holds the `Registry` class. Its `accounts` map is
  updated in place by `CreateChallenge`, and `Valid()` is its invariant.
- `RegistryTraces` (`traces.dfy`) covers sequences of instructions. It
  proves that records are written once and never change, that a name is
  registered at most once, that nothing is ever staked, and that the stake
  and claim instructions are no-ops. It also gives the program's handling
  of the integration test's instructions. The handlers ignore the
  arguments the test passes to stake and claim, and the player account
  the test fetches does not exist in the program.

A failed instruction is reverted by the runtime, so in the model every
error leaves the accounts exactly as they were. The checks run in the
order of Anchor's generated account validation:

1. The address is derived. A name longer than one seed allows gives
   `MaxSeedLengthExceeded`. The program never returns this error itself:
   the runtime's address derivation fails and aborts the transaction.
2. The derived address is compared with the `pda` account the client
   passed. A mismatch gives `ConstraintSeeds`.
3. `init` allocates the account. If the address is taken, this gives
   `AccountAlreadyInUse`.
4. After the handler runs, the record is serialized into the 297 bytes.
   If it does not fit, this gives `AccountDidNotSerialize`.

The model performs the size check before it writes anything. Because the
transaction is reverted, this has the same effect as writing and then
failing.

Behaviour worth knowing, all of it proved:

- The comments on the `space` expression (lib.rs:71-77) budget 32 bytes
  for the name and 200 for the uri. No code enforces those two limits
  separately. Serialization only needs name and uri together to fit in
  232 bytes. The name is further limited to 32 bytes because it is a PDA
  seed. So a 1-byte name with a 231-byte uri is stored (`SizeLimits`).
- The integration test expects staking to record 50000000 in
  `total_staked` and expects a player account. It also expects claiming to
  set `isActive` to false. The program has no such accounting, no player
  record and no `is_active` field. In the model, `total_staked` is 0 in
  every record forever (`TotalStakedStaysZero`, `TestScenario`).

## Model

| member | source | states |
|---|---|---|
| `Solana.AddressDeterminesSeeds` | programs/challenge_registry_program/src/lib.rs:78-79 | Derivation is deterministic, and the address determines what was hashed. Two seed lists that derive the same address have the same concatenation and get the same bump. |
| `Solana.AsciiBytesInjective` | programs/challenge_registry_program/src/lib.rs:78 | Distinct ASCII strings have distinct bytes. So for ASCII names, such as the `"challenge"` tag and the test's name, comparing the seed bytes compares the names themselves. |
| `Solana.SameTagAddressInjective` | programs/challenge_registry_program/src/lib.rs:78 | With the same first seed, two names that derive the same address are equal. |
| `Solana.SplitSeedsCollide` | programs/challenge_registry_program/src/lib.rs:78 | Seeds are concatenated before hashing, so seed lists split at different places derive the same address. Injectivity therefore needs the fixed tag. |
| `ChallengeRegistry.Fits` | programs/challenge_registry_program/src/lib.rs:71-77 | The allocated space is 297 bytes. A record fits exactly when name and uri together take at most 232 bytes. |
| `ChallengeRegistry.DeriveChallengeInjective` | programs/challenge_registry_program/src/lib.rs:78-79 | A challenge name derives an address exactly when it is at most 32 bytes. Distinct names derive distinct addresses. |
| `ChallengeRegistry.ApplyCreate` | programs/challenge_registry_program/src/lib.rs:9-32 | A create succeeds exactly when the name is a valid seed, the `pda` passed is the derived address, that address is free, and the record fits. Each error is named for the first check that fails. A failed create changes nothing. A successful create makes the fetched record hold `name`, `uri`, `nft` and `require_stake` as passed, with `total_staked == 0` and the found bump. It adds only that address, leaves every other record unchanged, and keeps the registry invariant. |
| `ChallengeRegistry.SizeLimits` | programs/challenge_registry_program/src/lib.rs:71-78 | On an empty registry, a 1-byte name with a 231-byte uri is created. A 32-byte name with a 201-byte uri fails with `AccountDidNotSerialize`. A 33-byte name fails with `MaxSeedLengthExceeded`. |
| `ChallengeRegistry.Registry.CreateChallenge` | programs/challenge_registry_program/src/lib.rs:59-83 | The in-place create keeps `Valid()`. Its outcome and the new `accounts` are those of `ApplyCreate` on the old accounts. |
| `ChallengeRegistry.Registry.StakeChallenge` | programs/challenge_registry_program/src/lib.rs:34-37 | Always returns `Ok`. It has no `modifies` clause, so it changes no account. |
| `ChallengeRegistry.Registry.ClaimChallenge` | programs/challenge_registry_program/src/lib.rs:39-42 | Always returns `Ok` and changes no account. In particular, it neither resets `total_staked` nor deactivates anything. |
| `ChallengeRegistry.Registry.FetchChallenge` | tests/challenge_registry_program.ts:40-45 | Reading the record at the address derived from a name returns a record carrying that name and `total_staked == 0`, or nothing. |
| `RegistryTraces.Step` | programs/challenge_registry_program/src/lib.rs:9-42 | Only a successful create changes the accounts. Stake and claim never fail. |
| `RegistryTraces.RunWellFormed` | programs/challenge_registry_program/src/lib.rs:18-26 | Any sequence of instructions keeps every record at its own name's address, with its bump, within the space and with nothing staked. |
| `RegistryTraces.RecordsPersist` | programs/challenge_registry_program/src/lib.rs:68-70 | A record present at some point is present and unchanged at every later point. `init` never overwrites. |
| `RegistryTraces.CreatedAtMostOnce` | programs/challenge_registry_program/src/lib.rs:68-80 | Of two creates of the same name in any sequence, at most one succeeds. Once one has succeeded, a later create at that address fails with `AccountAlreadyInUse`. |
| `RegistryTraces.StakeAndClaimChangeNothing` | programs/challenge_registry_program/src/lib.rs:34-46 | Dropping every stake and claim instruction from a sequence leaves the final accounts the same. |
| `RegistryTraces.TotalStakedStaysZero` | programs/challenge_registry_program/src/lib.rs:22 | After any sequence on a fresh program, every record fetched by name carries that name and `total_staked == 0`. |
| `RegistryTraces.TestScenario` | tests/challenge_registry_program.ts:21-98 | The program's handling of the test's create, stake and claim: all three succeed. A repeated create, added in the model and not sent by the test, fails with `AccountAlreadyInUse`. The fetched record holds the create's arguments with `total_staked == 0`, not the 50000000 the test expects. |

## Left out

- Logging (`msg!`) is not modelled. It produces no state.
- Rent, funding of the new account by `payer`, the `system_program`
  account (lib.rs:82), and the writability of the `pda` account are not
  modelled. `init` implies `mut`, so the client must pass that account as
  writable. The payer's balance and signature are not tracked. So a create
  cannot fail in the model for lack of lamports, a missing signature, a
  read-only `pda` account, or a wrong system program account. The
  "exactly when" of `ApplyCreate` assumes these are correct.
- The program id is not modelled. There is one program, so it is a fixed
  part of every address and is left out of the preimage.
- SHA-256 and the ed25519 curve test are not modelled. Addresses are
  compared by preimage, so hash collisions are excluded. The bump search
  is a parameter that always finds a bump; the runtime's "no viable bump"
  failure is practically unreachable.
- The Anchor discriminator's value and the Borsh byte encoding are not
  modelled. Only their sizes enter, through the space check.
- UTF-8 validity of the `String` arguments is not modelled. Names and uris
  are byte sequences, as `name.as_bytes()` uses them. UTF-8 encoding is
  injective, so distinct names still give distinct seeds.
- An address that holds lamports but no data when `init` runs is not
  modelled. Only the program's own records are tracked.
- `#[derive(Default)]` on the record is not modelled. No instruction uses
  it.
- The staking and claim accounting the clients expect is not modelled:
  player stake records, `stakeAmount`, `isActive`, the zeroed pool and the
  reward mint. The program does not implement any of it.
- Client arguments to stake and claim are not modelled. Clients pass
  `(name, amount)` and `name`, but the handlers take no arguments.
- The React UI, the RPC client and SPL Token minting are not modelled. They
  are client-side code outside the program.
