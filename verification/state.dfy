/** The escrow record: its six fields at their declared widths, the space the
    account is allocated with, the seed prefix of its address, and its
    persisted layout (an 8-byte account discriminator followed by the fields
    in declaration order, each at its fixed width). */
module State {
  import opened Bytes
  import opened Errors

  /** An account key: 32 bytes. */
  type Pubkey = s: seq<Byte> | |s| == 32 witness seq(32, _ => 0)

  datatype Escrow = Escrow(
    depositor: Pubkey,   // who created and funded the escrow
    recipient: Pubkey,   // who may claim it
    amount: u64,         // lamports held, not counting the storage reservation
    bump: u8,            // bump seed of the record's derived address
    escrowId: u64,       // the depositor's identifier for this escrow
    createdAt: i64)      // creation time in Unix seconds

  const PUBKEY_SIZE: nat := 32
  const DISCRIMINATOR_SIZE: nat := 8

  /** Space allocated for an escrow account: discriminator plus the fields. */
  const LEN: nat := 8 + 32 + 32 + 8 + 1 + 8 + 8

  /** The first seed of every escrow address: the ASCII bytes of "escrow". */
  const SEED_PREFIX: seq<Byte> := [0x65, 0x73, 0x63, 0x72, 0x6f, 0x77]

  /** First 8 bytes of SHA-256("account:Escrow"), which Anchor writes in front
      of the fields to mark the account's type. */
  const DISCRIMINATOR: seq<Byte> := [31, 213, 123, 187, 186, 22, 218, 155]

  lemma SeedPrefixIsEscrow()
    ensures |SEED_PREFIX| == |"escrow"|
    ensures forall i :: 0 <= i < |SEED_PREFIX| ==> SEED_PREFIX[i] == "escrow"[i] as int
  {
  }

  /** Field offsets within the account data. */
  const DEPOSITOR_AT: nat := DISCRIMINATOR_SIZE
  const RECIPIENT_AT: nat := DEPOSITOR_AT + PUBKEY_SIZE
  const AMOUNT_AT: nat := RECIPIENT_AT + PUBKEY_SIZE
  const BUMP_AT: nat := AMOUNT_AT + 8
  const ESCROW_ID_AT: nat := BUMP_AT + 1
  const CREATED_AT_AT: nat := ESCROW_ID_AT + 8

  /** The account data of a record: discriminator, then the fields in order. */
  function Encode(e: Escrow): (data: seq<Byte>)
    ensures |data| == LEN == 97
    ensures data[..DISCRIMINATOR_SIZE] == DISCRIMINATOR
    ensures data[DEPOSITOR_AT..RECIPIENT_AT] == e.depositor
    ensures data[RECIPIENT_AT..AMOUNT_AT] == e.recipient
    ensures FromLe(data[AMOUNT_AT..BUMP_AT]) == e.amount
    ensures data[BUMP_AT] == e.bump
    ensures FromLe(data[ESCROW_ID_AT..CREATED_AT_AT]) == e.escrowId
    ensures I64FromLe(data[CREATED_AT_AT..LEN]) == e.createdAt
  {
    var data := DISCRIMINATOR + e.depositor + e.recipient + U64ToLe(e.amount)
      + [e.bump] + U64ToLe(e.escrowId) + I64ToLe(e.createdAt);
    assert data[..DISCRIMINATOR_SIZE] == DISCRIMINATOR;
    assert data[DEPOSITOR_AT..RECIPIENT_AT] == e.depositor;
    assert data[RECIPIENT_AT..AMOUNT_AT] == e.recipient;
    assert data[AMOUNT_AT..BUMP_AT] == U64ToLe(e.amount);
    assert data[ESCROW_ID_AT..CREATED_AT_AT] == U64ToLe(e.escrowId);
    assert data[CREATED_AT_AT..LEN] == I64ToLe(e.createdAt);
    I64RoundTrip(e.createdAt);
    data
  }

  /** The record whose fields sit at their offsets in `data`. */
  function FieldsAt(data: seq<Byte>): (e: Escrow)
    requires |data| >= LEN
    ensures data[..DISCRIMINATOR_SIZE] == DISCRIMINATOR ==> Encode(e) == data[..LEN]
  {
    var e := Escrow(
      data[DEPOSITOR_AT..RECIPIENT_AT],
      data[RECIPIENT_AT..AMOUNT_AT],
      U64FromLe(data[AMOUNT_AT..BUMP_AT]),
      data[BUMP_AT],
      U64FromLe(data[ESCROW_ID_AT..CREATED_AT_AT]),
      I64FromLe(data[CREATED_AT_AT..LEN]));
    FieldsAtEncode(data, e);
    e
  }

  lemma FieldsAtEncode(data: seq<Byte>, e: Escrow)
    requires |data| >= LEN
    requires e.depositor == data[DEPOSITOR_AT..RECIPIENT_AT]
    requires e.recipient == data[RECIPIENT_AT..AMOUNT_AT]
    requires U64ToLe(e.amount) == data[AMOUNT_AT..BUMP_AT]
    requires e.bump == data[BUMP_AT]
    requires U64ToLe(e.escrowId) == data[ESCROW_ID_AT..CREATED_AT_AT]
    requires I64ToLe(e.createdAt) == data[CREATED_AT_AT..LEN]
    ensures data[..DISCRIMINATOR_SIZE] == DISCRIMINATOR ==> Encode(e) == data[..LEN]
  {
    if data[..DISCRIMINATOR_SIZE] == DISCRIMINATOR {
      var d := data[..LEN];
      assert d == d[..DISCRIMINATOR_SIZE] + d[DEPOSITOR_AT..RECIPIENT_AT] + d[RECIPIENT_AT..AMOUNT_AT]
        + d[AMOUNT_AT..BUMP_AT] + [d[BUMP_AT]] + d[ESCROW_ID_AT..CREATED_AT_AT] + d[CREATED_AT_AT..LEN];
    }
  }

  /** Reading an account as an escrow record: the data must start with the
      discriminator and hold at least the fields; bytes past them are ignored. */
  function Decode(data: seq<Byte>): (r: Result<Escrow>)
    ensures |data| < DISCRIMINATOR_SIZE ==> r == Err(AccountDiscriminatorNotFound)
    ensures |data| >= DISCRIMINATOR_SIZE && data[..DISCRIMINATOR_SIZE] != DISCRIMINATOR ==>
              r == Err(AccountDiscriminatorMismatch)
    ensures r.Err? ==> |data| < LEN || data[..DISCRIMINATOR_SIZE] != DISCRIMINATOR
    ensures r.Ok? ==> |data| >= LEN && Encode(r.value) == data[..LEN]
  {
    if |data| < DISCRIMINATOR_SIZE then Err(AccountDiscriminatorNotFound)
    else if data[..DISCRIMINATOR_SIZE] != DISCRIMINATOR then Err(AccountDiscriminatorMismatch)
    else if |data| < LEN then Err(AccountDidNotDeserialize)
    else Ok(FieldsAt(data))
  }

  /** Writing a record and reading it back gives the same record. */
  lemma DecodeEncode(e: Escrow)
    ensures Decode(Encode(e)) == Ok(e)
  {
    var d := Encode(e);
    var r := Decode(d);
    assert r.Ok?;
    EncodeInjective(r.value, e);
  }

  /** Distinct records have distinct account data. */
  lemma EncodeInjective(e1: Escrow, e2: Escrow)
    ensures Encode(e1) == Encode(e2) <==> e1 == e2
  {
    if Encode(e1) == Encode(e2) {
      var d := Encode(e1);
      U64ToLeInjective(e1.amount, e2.amount);
      assert U64ToLe(e1.amount) == U64ToLe(e2.amount) by {
        assert U64FromLe(d[AMOUNT_AT..BUMP_AT]) == e1.amount;
        assert U64FromLe(d[AMOUNT_AT..BUMP_AT]) == e2.amount;
      }
      assert e1.escrowId == U64FromLe(d[ESCROW_ID_AT..CREATED_AT_AT]) == e2.escrowId;
    }
  }
}
