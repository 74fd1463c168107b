/** paxos_asyncio/process_generator.py: proposal generators. */
module ProcessGenerator {

  /** How far `IncProposalGenerator` advances its counter on each call. */
  const Step: int := 1000

  /**
   * `IncProposalGenerator`: a counter `x`, started at the seed; every call of
   * `GetProposal` returns `(x, x)` as (value, number) and then adds `Step`.
   */
  class IncProposalGenerator {
    var x: int

    constructor (seed: int)
      ensures x == seed
    {
      x := seed;
    }

    method GetProposal() returns (value: int, number: int)
      modifies this
      ensures value == old(x) && number == old(x)
      ensures x == old(x) + Step
    {
      value, number := x, x;
      x := x + Step;
    }
  }

  /** The (value, number) pairs returned by `k` successive calls on a generator whose counter is `x`. */
  function Proposals(x: int, k: nat): (r: seq<(int, int)>)
    ensures |r| == k
    ensures k > 0 ==> r[0] == (x, x)
    decreases k
  {
    if k == 0 then [] else [(x, x)] + Proposals(x + Step, k - 1)
  }

  /** One more call appends `(x + 1000*k, x + 1000*k)` to the list of the first `k`. */
  lemma {:induction false} ProposalsSnoc(x: int, k: nat)
    ensures Proposals(x, k + 1) == Proposals(x, k) + [(x + Step * k, x + Step * k)]
    decreases k
  {
    if k > 0 {
      ProposalsSnoc(x + Step, k - 1);
      assert x + Step + Step * (k - 1) == x + Step * k;
      assert [(x, x)] + (Proposals(x + Step, k - 1) + [(x + Step * k, x + Step * k)])
          == ([(x, x)] + Proposals(x + Step, k - 1)) + [(x + Step * k, x + Step * k)];
    }
  }

  /**
   * `k` calls of `get_proposal` in a row on one generator, as `k` due rounds of a
   * proposer's `action_loop` make them: they return exactly `Proposals`.
   */
  method TakeProposals(g: IncProposalGenerator, k: nat) returns (results: seq<(int, int)>)
    modifies g
    ensures results == Proposals(old(g.x), k)
    ensures g.x == old(g.x) + Step * k
  {
    results := [];
    var i := 0;
    while i < k
      invariant 0 <= i <= k
      invariant g.x == old(g.x) + Step * i
      invariant results == Proposals(old(g.x), i)
    {
      var value, number := g.GetProposal();
      ProposalsSnoc(old(g.x), i);
      results := results + [(value, number)];
      i := i + 1;
    }
  }

  /** The call numbered `i` (from 0) on a generator seeded with `seed` returns `seed + 1000*i` as both value and number. */
  lemma {:induction false} ProposalsAt(seed: int, k: nat, i: nat)
    requires i < k
    ensures Proposals(seed, k)[i] == (seed + Step * i, seed + Step * i)
    decreases i
  {
    if i > 0 {
      ProposalsAt(seed + Step, k - 1, i - 1);
    }
  }

  /** Numbers from one generator strictly increase from call to call. */
  lemma ProposalsIncrease(seed: int, k: nat, i: nat, j: nat)
    requires i < j < k
    ensures Proposals(seed, k)[i].1 < Proposals(seed, k)[j].1
  {
    ProposalsAt(seed, k, i);
    ProposalsAt(seed, k, j);
  }

  /** Every number a generator returns is congruent to its seed modulo 1000. */
  lemma {:induction false} ProposalsKeepResidue(seed: int, k: nat, i: nat)
    requires i < k
    ensures Proposals(seed, k)[i].1 % Step == seed % Step
    decreases i
  {
    if i > 0 {
      ProposalsKeepResidue(seed + Step, k - 1, i - 1);
      assert (seed + Step) % Step == seed % Step;
    }
  }

  /** Two generators whose seeds differ modulo 1000 never return the same number. */
  lemma DisjointSeeds(seed1: int, k1: nat, i: nat, seed2: int, k2: nat, j: nat)
    requires seed1 % Step != seed2 % Step
    requires i < k1 && j < k2
    ensures Proposals(seed1, k1)[i].1 != Proposals(seed2, k2)[j].1
  {
    ProposalsKeepResidue(seed1, k1, i);
    ProposalsKeepResidue(seed2, k2, j);
  }
}
