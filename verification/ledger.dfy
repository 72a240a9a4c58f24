/** The ledger the program runs against: escrow records at their derived
    addresses, a lamport balance per address, and the two primitive lamport
    moves every instruction is built from. */
module Ledger {
  import opened Bytes
  import opened Errors
  import opened State

  /** An account address. A wallet address is a key someone holds; a
      program-derived address is a function of its seeds and the owning
      program only. The constructor is one-to-one, and no derived address
      equals a wallet key (derived addresses lie off the curve, so nobody
      holds a signing key for one). */
  datatype Address =
    | Wallet(key: Pubkey)
    | ProgramDerived(seeds: seq<seq<Byte>>, program: Pubkey)

  /** What the model needs from the cluster: the program's id, the
      rent-exempt minimum for an account of LEN bytes, and the runtime's
      search for the canonical bump of a seed list. */
  datatype Runtime = Runtime(
    programId: Pubkey,
    rent: u64,
    bumpSearch: seq<seq<Byte>> -> u8)

  /** `Pubkey::create_program_address`: the bump is appended as a last seed. */
  function CreateProgramAddress(seeds: seq<seq<Byte>>, bump: u8, program: Pubkey): (a: Address)
    ensures a.ProgramDerived? && a.program == program
    ensures |a.seeds| == |seeds| + 1 && a.seeds[..|seeds|] == seeds && a.seeds[|seeds|] == [bump]
  {
    ProgramDerived(seeds + [[bump]], program)
  }

  /** `Pubkey::find_program_address`: the address under the canonical bump. */
  function FindProgramAddress(rt: Runtime, seeds: seq<seq<Byte>>): (r: (Address, u8))
    ensures r.0 == CreateProgramAddress(seeds, r.1, rt.programId)
  {
    var bump := rt.bumpSearch(seeds);
    (CreateProgramAddress(seeds, bump, rt.programId), bump)
  }

  /** The seeds of an escrow address: "escrow", the depositor's key, and the
      escrow id as 8 little-endian bytes. */
  function EscrowSeeds(depositor: Pubkey, escrowId: u64): (seeds: seq<seq<Byte>>)
    ensures |seeds| == 3
    ensures seeds[0] == SEED_PREFIX
    ensures seeds[1] == depositor
    ensures |seeds[2]| == 8 && FromLe(seeds[2]) == escrowId
  {
    [SEED_PREFIX, depositor, U64ToLe(escrowId)]
  }

  /** Distinct (depositor, id) pairs give distinct seed lists, and conversely. */
  lemma EscrowSeedsInjective(d1: Pubkey, i1: u64, d2: Pubkey, i2: u64)
    ensures EscrowSeeds(d1, i1) == EscrowSeeds(d2, i2) <==> d1 == d2 && i1 == i2
  {
    if EscrowSeeds(d1, i1) == EscrowSeeds(d2, i2) {
      U64ToLeInjective(i1, i2);
    }
  }

  function CanonicalBump(rt: Runtime, depositor: Pubkey, escrowId: u64): u8
  {
    FindProgramAddress(rt, EscrowSeeds(depositor, escrowId)).1
  }

  /** Where the record for (depositor, escrowId) lives. */
  function EscrowAddress(rt: Runtime, depositor: Pubkey, escrowId: u64): (a: Address)
    ensures a.ProgramDerived? && a.program == rt.programId
    ensures a == CreateProgramAddress(EscrowSeeds(depositor, escrowId), CanonicalBump(rt, depositor, escrowId), rt.programId)
  {
    FindProgramAddress(rt, EscrowSeeds(depositor, escrowId)).0
  }

  /** The address the `seeds`/`bump` constraint re-derives from the supplied
      depositor key and the record's own id and bump. */
  function Rederived(rt: Runtime, depositor: Pubkey, e: Escrow): (a: Address)
    ensures a.ProgramDerived? && a.program == rt.programId
    ensures e.bump == CanonicalBump(rt, depositor, e.escrowId) ==> a == EscrowAddress(rt, depositor, e.escrowId)
  {
    CreateProgramAddress(EscrowSeeds(depositor, e.escrowId), e.bump, rt.programId)
  }

  /** Re-deriving with a stored bump reaches a given address only from the
      seeds and bump it was derived from. The runtime hashes the seeds joined
      together, so this holds there only for seed lists of fixed widths, as
      the escrow seeds are (6, 32 and 8 bytes). */
  lemma CreateProgramAddressInjective(s1: seq<seq<Byte>>, b1: u8, s2: seq<seq<Byte>>, b2: u8, p: Pubkey)
    ensures CreateProgramAddress(s1, b1, p) == CreateProgramAddress(s2, b2, p) <==> s1 == s2 && b1 == b2
  {
    if CreateProgramAddress(s1, b1, p) == CreateProgramAddress(s2, b2, p) {
      assert (s1 + [[b1]])[|s1|] == [b1];
      assert (s2 + [[b2]])[..|s2|] == s2;
    }
  }

  /** The address depends on the depositor and the id only, and different
      pairs never share an address. */
  lemma EscrowAddressInjective(rt: Runtime, d1: Pubkey, i1: u64, d2: Pubkey, i2: u64)
    ensures EscrowAddress(rt, d1, i1) == EscrowAddress(rt, d2, i2) <==> d1 == d2 && i1 == i2
  {
    if EscrowAddress(rt, d1, i1) == EscrowAddress(rt, d2, i2) {
      CreateProgramAddressInjective(EscrowSeeds(d1, i1), CanonicalBump(rt, d1, i1),
                                    EscrowSeeds(d2, i2), CanonicalBump(rt, d2, i2), rt.programId);
      EscrowSeedsInjective(d1, i1, d2, i2);
    }
  }

  /** An escrow address is never a wallet: nobody can sign for it. */
  lemma EscrowAddressIsNotAWallet(rt: Runtime, d: Pubkey, i: u64, k: Pubkey)
    ensures EscrowAddress(rt, d, i) != Wallet(k)
  {
  }

  /** Records by address, and lamports by address (an absent address holds 0). */
  datatype Ledger = Ledger(records: map<Address, Escrow>, lamports: map<Address, nat>)

  function Balance(l: Ledger, a: Address): nat
  {
    if a in l.lamports then l.lamports[a] else 0
  }

  function SetBalance(l: Ledger, a: Address, v: nat): (l': Ledger)
    ensures l'.records == l.records
    ensures Balance(l', a) == v
    ensures forall b :: b != a ==> Balance(l', b) == Balance(l, b)
  {
    l.(lamports := l.lamports[a := v])
  }

  /** Every address outside `touched` keeps its balance. */
  ghost predicate BalancesFramed(l: Ledger, l': Ledger, touched: set<Address>)
  {
    forall a :: a !in touched ==> Balance(l', a) == Balance(l, a)
  }

  ghost function Pick(m: map<Address, nat>): (k: Address)
    requires |m| > 0
    ensures k in m
  {
    var k :| k in m; k
  }

  /** The sum of all balances. */
  ghost function Total(m: map<Address, nat>): nat
    decreases |m|
  {
    if |m| == 0 then 0 else
      var k := Pick(m);
      m[k] + Total(m - {k})
  }

  ghost function TotalLamports(l: Ledger): nat
  {
    Total(l.lamports)
  }

  /** The sum can be split at any key, not only at the one it picks. */
  lemma {:induction false} TotalRemove(m: map<Address, nat>, k: Address)
    requires k in m
    ensures Total(m) == m[k] + Total(m - {k})
    decreases |m|
  {
    var j := Pick(m);
    if j != k {
      var rest := m - {j} - {k};
      assert m - {k} - {j} == rest;
      TotalRemove(m - {j}, k);
      TotalRemove(m - {k}, j);
    }
  }

  /** Setting one balance changes the sum by the difference. */
  lemma TotalSet(l: Ledger, a: Address, v: nat)
    ensures TotalLamports(SetBalance(l, a, v)) + Balance(l, a) == TotalLamports(l) + v
  {
    var m := l.lamports;
    var m' := m[a := v];
    TotalRemove(m', a);
    if a in m {
      TotalRemove(m, a);
      assert m' - {a} == m - {a};
    } else {
      assert m' - {a} == m;
    }
  }

  /** Any two distinct balances together stay within the sum. */
  lemma BalancesWithinTotal(l: Ledger, a: Address, b: Address)
    requires a != b
    ensures Balance(l, a) + Balance(l, b) <= TotalLamports(l)
  {
    var m := l.lamports;
    if a in m {
      TotalRemove(m, a);
      if b in m {
        TotalRemove(m - {a}, b);
      }
    } else if b in m {
      TotalRemove(m, b);
    }
  }

  /** Debit `from` and credit `to` by n lamports, checking both ends as u64
      arithmetic does: a debit below zero fails with `shortfall` (the system
      transfer's insufficient-funds error, or a subtraction panic), a credit
      past the u64 range fails with ArithmeticOverflow. */
  function MoveLamports(l: Ledger, from: Address, to: Address, n: nat, shortfall: Error): (r: Result<Ledger>)
    ensures Balance(l, from) < n ==> r == Err(shortfall)
    ensures r.Err? ==> r.error == shortfall || r.error == ArithmeticOverflow
    ensures from != to && Balance(l, from) >= n ==>
              (r.Err? <==> Balance(l, to) + n > U64_MAX)
    ensures r.Ok? ==> r.value.records == l.records
    ensures r.Ok? && from != to ==>
              && Balance(r.value, from) == Balance(l, from) - n
              && Balance(r.value, to) == Balance(l, to) + n
    ensures r.Ok? ==> BalancesFramed(l, r.value, {from, to})
    ensures r.Ok? ==> TotalLamports(r.value) == TotalLamports(l)
  {
    if Balance(l, from) < n then Err(shortfall)
    else
      var debited := SetBalance(l, from, Balance(l, from) - n);
      if Balance(debited, to) + n > U64_MAX then Err(ArithmeticOverflow)
      else
        var credited := SetBalance(debited, to, Balance(debited, to) + n);
        TotalSet(l, from, Balance(l, from) - n);
        TotalSet(debited, to, Balance(debited, to) + n);
        Ok(credited)
  }

  /** Anchor's `close = dest`: every lamport of the account goes to `dest`
      (a checked u64 addition), the account is left with none, and its record
      is gone. */
  function CloseAccount(l: Ledger, account: Address, dest: Address): (r: Result<Ledger>)
    requires account != dest
    ensures r.Err? <==> Balance(l, dest) + Balance(l, account) > U64_MAX
    ensures r.Err? ==> r.error == ArithmeticOverflow
    ensures r.Ok? ==> r.value.records == l.records - {account}
    ensures r.Ok? ==> Balance(r.value, account) == 0
    ensures r.Ok? ==> Balance(r.value, dest) == Balance(l, dest) + Balance(l, account)
    ensures r.Ok? ==> BalancesFramed(l, r.value, {account, dest})
    ensures r.Ok? ==> TotalLamports(r.value) == TotalLamports(l)
  {
    var all := Balance(l, account);
    if Balance(l, dest) + all > U64_MAX then Err(ArithmeticOverflow)
    else
      var credited := SetBalance(l, dest, Balance(l, dest) + all);
      var emptied := SetBalance(credited, account, 0);
      TotalSet(l, dest, Balance(l, dest) + all);
      TotalSet(credited, account, 0);
      Ok(emptied.(records := l.records - {account}))
  }
}
