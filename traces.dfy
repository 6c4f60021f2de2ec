/** Sequences of instructions sent to the registry program, one transaction
    each, and what holds across any such sequence: records are written
    once and never change afterwards, a name is registered by at most one
    successful `create_challenge`, nothing is ever staked, and the stake and
    claim instructions could be left out without changing any account. */
module RegistryTraces {
  import opened Solana
  import opened ChallengeRegistry

  datatype Instruction =
    | CreateChallengeIx(pda: Address, name: seq<u8>, uri: seq<u8>, nft: Pubkey, requireStake: u64)
    | StakeChallengeIx
    | ClaimChallengeIx

  /** One instruction on the store: its outcome and the store after it. */
  function Step(s: Store, search: BumpSearch, ix: Instruction): (r: (Outcome, Store))
    // only a successful create changes anything
    ensures r.1 != s ==> ix.CreateChallengeIx? && r.0.Ok?
    // the stub instructions cannot fail
    ensures !ix.CreateChallengeIx? ==> r.0.Ok?
  {
    match ix
    case CreateChallengeIx(pda, name, uri, nft, requireStake) =>
      ApplyCreate(s, search, pda, name, uri, nft, requireStake)
    case StakeChallengeIx => (Ok, s)
    case ClaimChallengeIx => (Ok, s)
  }

  /** The store after running `ixs` in order from `s`. */
  function Run(s: Store, search: BumpSearch, ixs: seq<Instruction>): Store
    decreases |ixs|
  {
    if ixs == [] then s
    else Step(Run(s, search, ixs[..|ixs| - 1]), search, ixs[|ixs| - 1]).1
  }

  /** The outcome of the `i`-th instruction of `ixs` run from `s`. */
  function OutcomeAt(s: Store, search: BumpSearch, ixs: seq<Instruction>, i: nat): Outcome
    requires i < |ixs|
  {
    Step(Run(s, search, ixs[..i]), search, ixs[i]).0
  }

  lemma RunSnoc(s: Store, search: BumpSearch, ixs: seq<Instruction>, i: nat)
    requires i < |ixs|
    ensures Run(s, search, ixs[..i + 1]) == Step(Run(s, search, ixs[..i]), search, ixs[i]).1
  {
    assert ixs[..i + 1][..i] == ixs[..i];
  }

  /** Every store reached from a well-formed one is well-formed: each
      record at the address of its own name, with its bump, within the
      space, and with `total_staked == 0`. */
  lemma {:induction false} RunWellFormed(s: Store, search: BumpSearch, ixs: seq<Instruction>)
    requires WellFormed(s, search)
    ensures WellFormed(Run(s, search, ixs), search)
    decreases |ixs|
  {
    if ixs != [] {
      RunWellFormed(s, search, ixs[..|ixs| - 1]);
    }
  }

  /** A record present after the first `m` instructions is present, and
      unchanged, after the first `n`: no instruction overwrites or removes
      an account. */
  lemma {:induction false} RecordsPersist(s: Store, search: BumpSearch, ixs: seq<Instruction>, m: nat, n: nat, a: Address)
    requires m <= n <= |ixs|
    requires a in Run(s, search, ixs[..m])
    ensures a in Run(s, search, ixs[..n])
    ensures Run(s, search, ixs[..n])[a] == Run(s, search, ixs[..m])[a]
    decreases n
  {
    if m < n {
      RecordsPersist(s, search, ixs, m, n - 1, a);
      RunSnoc(s, search, ixs, n - 1);
    }
  }

  /** Uniqueness: of two creates of the same name, at most one succeeds;
      once one has, a later create at that name's address fails with
      `AccountAlreadyInUse`. */
  lemma CreatedAtMostOnce(s: Store, search: BumpSearch, ixs: seq<Instruction>, i: nat, j: nat)
    requires i < j < |ixs|
    requires ixs[i].CreateChallengeIx? && ixs[j].CreateChallengeIx? && ixs[i].name == ixs[j].name
    ensures !(OutcomeAt(s, search, ixs, i).Ok? && OutcomeAt(s, search, ixs, j).Ok?)
    ensures OutcomeAt(s, search, ixs, i).Ok? && ixs[j].pda == ixs[i].pda ==>
              OutcomeAt(s, search, ixs, j) == Err(AccountAlreadyInUse)
  {
    if OutcomeAt(s, search, ixs, i).Ok? {
      var first := ixs[i];
      RunSnoc(s, search, ixs, i);
      assert first.pda in Run(s, search, ixs[..i + 1]);
      RecordsPersist(s, search, ixs, i + 1, j, first.pda);
      DeriveChallengeInjective(first.name, first.name, search);
    }
  }

  /** The instructions of `ixs` that are creates, in order. */
  function Creates(ixs: seq<Instruction>): seq<Instruction>
    decreases |ixs|
  {
    if ixs == [] then []
    else
      var last := ixs[|ixs| - 1];
      Creates(ixs[..|ixs| - 1]) + (if last.CreateChallengeIx? then [last] else [])
  }

  lemma RunLast(s: Store, search: BumpSearch, prefix: seq<Instruction>, last: Instruction)
    ensures Run(s, search, prefix + [last]) == Step(Run(s, search, prefix), search, last).1
  {
    assert (prefix + [last])[..|prefix|] == prefix;
  }

  /** Stake and claim are no-ops in any sequence: dropping them leaves the
      final store the same. */
  lemma {:induction false} StakeAndClaimChangeNothing(s: Store, search: BumpSearch, ixs: seq<Instruction>)
    ensures Run(s, search, ixs) == Run(s, search, Creates(ixs))
    decreases |ixs|
  {
    if ixs != [] {
      var prefix, last := ixs[..|ixs| - 1], ixs[|ixs| - 1];
      assert ixs == prefix + [last];
      StakeAndClaimChangeNothing(s, search, prefix);
      RunLast(s, search, prefix, last);
      if last.CreateChallengeIx? {
        assert Creates(ixs) == Creates(prefix) + [last];
        RunLast(s, search, Creates(prefix), last);
      } else {
        assert Creates(ixs) == Creates(prefix);
        assert Step(Run(s, search, prefix), search, last).1 == Run(s, search, prefix);
      }
    }
  }

  /** Nothing is ever staked: whatever sequence of instructions the freshly
      deployed program receives, every record a client fetches by name has
      that name and `total_staked == 0`. */
  lemma TotalStakedStaysZero(search: BumpSearch, ixs: seq<Instruction>, name: seq<u8>)
    ensures var fetched := Fetch(Run(map[], search, ixs), name, search);
            fetched.Some? ==> fetched.value.name == name && fetched.value.totalStaked == 0
  {
    RunWellFormed(map[], search, ixs);
    var fetched := Fetch(Run(map[], search, ixs), name, search);
    if fetched.Some? {
      DeriveChallengeInjective(name, fetched.value.name, search);
    }
  }

  /** The program's handling of the integration test's instructions on a
      fresh program: create "Test Challenge" requiring 500000000, then the
      stake and the claim (whose arguments the handlers do not take). All
      three succeed, and the record then fetched holds the arguments of the
      create with `total_staked == 0`: the stake of 50000000 the test
      expects to see is never recorded. A fourth instruction, added here
      and not sent by the test, repeats the create and fails. */
  lemma TestScenario(search: BumpSearch, nft: Pubkey)
    ensures
      var name := AsciiBytes("Test Challenge");
      var uri := AsciiBytes("https://test-studio.com/metadata.json");
      var (pda, bump) := DeriveChallenge(name, search).value;
      var create := CreateChallengeIx(pda, name, uri, nft, 500000000);
      var ixs := [create, StakeChallengeIx, ClaimChallengeIx, create];
      OutcomeAt(map[], search, ixs, 0) == Ok &&
      OutcomeAt(map[], search, ixs, 1) == Ok &&
      OutcomeAt(map[], search, ixs, 2) == Ok &&
      OutcomeAt(map[], search, ixs, 3) == Err(AccountAlreadyInUse) &&
      Fetch(Run(map[], search, ixs), name, search) ==
        Some(ChallengeRegistryMetadata(name, uri, nft, 0, 500000000, bump))
  {
    var name := AsciiBytes("Test Challenge");
    var uri := AsciiBytes("https://test-studio.com/metadata.json");
    DeriveChallengeInjective(name, name, search);
    var (pda, bump) := DeriveChallenge(name, search).value;
    var create := CreateChallengeIx(pda, name, uri, nft, 500000000);
    var ixs := [create, StakeChallengeIx, ClaimChallengeIx, create];
    RunSnoc(map[], search, ixs, 0);
    RunSnoc(map[], search, ixs, 1);
    RunSnoc(map[], search, ixs, 2);
    RunSnoc(map[], search, ixs, 3);
    assert ixs[..4] == ixs;
    CreatedAtMostOnce(map[], search, ixs, 0, 3);
  }
}
