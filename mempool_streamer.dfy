// The transaction classifier and the call-data encoders of the simulated
// mempool stream. A call's kind is read off its 4-byte function selector
// (the Solidity contract ABI's "Function Selector"); the uint256 argument
// follows as one 32-byte big-endian word.
module Streamer {
  import opened Types
  import opened Abi

  datatype TransactionType = Deposit | Withdraw | Borrow | Repay | Liquidate

  /**
   * The fields of an ethers Transaction that the pipeline reads (`from`, `to`,
   * `input`) plus the `value` the generator sets; hash, nonce, gas and
   * signature fields are not modelled.
   */
  datatype Transaction = Transaction(from: Address, to: Option<Address>, value: nat, input: seq<byte>)

  const SELECTOR_SIZE: nat := 4

  const DEPOSIT_SELECTOR: seq<byte> := [0xd0, 0xe3, 0x0d, 0xb0]
  const BORROW_SELECTOR: seq<byte> := [0xc5, 0xeb, 0xea, 0xec]
  const WITHDRAW_SELECTOR: seq<byte> := [0x2e, 0x1a, 0x7d, 0x4d]
  const REPAY_SELECTOR: seq<byte> := [0x37, 0x1f, 0xd8, 0xe6]
  const LIQUIDATE_SELECTOR: seq<byte> := [0x26, 0xcd, 0xbe, 0x1a]

  /** The selector table, read from kind to code. */
  function SelectorOf(t: TransactionType): (sel: seq<byte>)
    ensures |sel| == SELECTOR_SIZE
  {
    match t
    case Deposit => DEPOSIT_SELECTOR
    case Borrow => BORROW_SELECTOR
    case Withdraw => WITHDRAW_SELECTOR
    case Repay => REPAY_SELECTOR
    case Liquidate => LIQUIDATE_SELECTOR
  }

  /** TransactionClassifier::is_protocol_transaction. */
  predicate IsProtocolTransaction(tx: Transaction, protocol: Address)
    ensures IsProtocolTransaction(tx, protocol) <==> tx.to == Some(protocol)
  {
    match tx.to
    case Some(addr) => addr == protocol
    case None => false
  }

  /** TransactionClassifier::extract_user_address: the acting account is the sender. */
  function ExtractUserAddress(tx: Transaction): Address
  {
    tx.from
  }

  /**
   * TransactionClassifier::classify_transaction, on the call data: None for
   * fewer than four bytes, otherwise the exact match of the first four bytes
   * against the five selectors.
   */
  function Classify(input: seq<byte>): (r: Option<TransactionType>)
    ensures |input| < SELECTOR_SIZE ==> r == None
    ensures r.Some? ==> |input| >= SELECTOR_SIZE && input[..SELECTOR_SIZE] == SelectorOf(r.value)
    ensures forall t :: |input| >= SELECTOR_SIZE && input[..SELECTOR_SIZE] == SelectorOf(t) ==> r == Some(t)
  {
    if |input| < SELECTOR_SIZE then None
    else
      var selector := input[..SELECTOR_SIZE];
      if selector == DEPOSIT_SELECTOR then Some(Deposit)
      else if selector == BORROW_SELECTOR then Some(Borrow)
      else if selector == WITHDRAW_SELECTOR then Some(Withdraw)
      else if selector == REPAY_SELECTOR then Some(Repay)
      else if selector == LIQUIDATE_SELECTOR then Some(Liquidate)
      else None
  }

  /** Every prefix outside the table is unrecognised. */
  lemma ClassifyUnknownSelector(input: seq<byte>)
    requires |input| >= SELECTOR_SIZE
    requires forall t :: input[..SELECTOR_SIZE] != SelectorOf(t)
    ensures Classify(input) == None
  {
  }

  /** Only the first four bytes decide: appending arguments keeps the kind. */
  lemma ClassifyIgnoresArguments(input: seq<byte>, args: seq<byte>)
    requires |input| >= SELECTOR_SIZE
    ensures Classify(input + args) == Classify(input)
  {
    assert (input + args)[..SELECTOR_SIZE] == input[..SELECTOR_SIZE];
  }

  /** Call data made of a selector followed by a 32-byte big-endian amount. */
  function EncodeAmountCall(selector: seq<byte>, amount: U256): (r: seq<byte>)
    requires |selector| == SELECTOR_SIZE
    ensures |r| == SELECTOR_SIZE + WORD_SIZE
    ensures r[..SELECTOR_SIZE] == selector
    ensures FromBigEndian(r[SELECTOR_SIZE..SELECTOR_SIZE + WORD_SIZE]) == amount
  {
    var r := selector + EncodeWord(amount);
    assert r[SELECTOR_SIZE..SELECTOR_SIZE + WORD_SIZE] == EncodeWord(amount);
    r
  }

  /** encode_deposit_call: just the deposit() selector. */
  function EncodeDepositCall(): (r: seq<byte>)
    ensures Classify(r) == Some(Deposit)
    ensures |r| == SELECTOR_SIZE
  {
    DEPOSIT_SELECTOR
  }

  /** encode_borrow_call: borrow(uint256). */
  function EncodeBorrowCall(amount: U256): (r: seq<byte>)
    ensures Classify(r) == Some(Borrow)
    ensures |r| == 36 && FromBigEndian(r[4..36]) == amount
  {
    EncodeAmountCall(BORROW_SELECTOR, amount)
  }

  /** encode_withdraw_call: withdraw(uint256). */
  function EncodeWithdrawCall(amount: U256): (r: seq<byte>)
    ensures Classify(r) == Some(Withdraw)
    ensures |r| == 36 && FromBigEndian(r[4..36]) == amount
  {
    EncodeAmountCall(WITHDRAW_SELECTOR, amount)
  }

  /** encode_repay_call: repay(uint256). */
  function EncodeRepayCall(amount: U256): (r: seq<byte>)
    ensures Classify(r) == Some(Repay)
    ensures |r| == 36 && FromBigEndian(r[4..36]) == amount
  {
    EncodeAmountCall(REPAY_SELECTOR, amount)
  }

  /**
   * MempoolStreamer::generate_synthetic_transaction. The random sender
   * (Address::random) is a parameter. The call is a deposit of 1 ether for
   * nonce % 10 in 0..3, a borrow of 1000 * 10^18 for 4..6, a withdraw of
   * 5 * 10^17 for 7..8 and a repay of 500 * 10^18 for 9; never a liquidation.
   */
  function GenerateSyntheticTransaction(protocol: Address, nonce: nat, sender: Address): (tx: Transaction)
    ensures IsProtocolTransaction(tx, protocol)
    ensures ExtractUserAddress(tx) == sender
    ensures Classify(tx.input) != Some(Liquidate)
    ensures nonce % 10 <= 3 ==> Classify(tx.input) == Some(Deposit) && tx.value == TEN_POW_18
    ensures 4 <= nonce % 10 <= 6 ==>
      Classify(tx.input) == Some(Borrow) && |tx.input| == 36 && FromBigEndian(tx.input[4..36]) == 1000 * TEN_POW_18 && tx.value == 0
    ensures 7 <= nonce % 10 <= 8 ==>
      Classify(tx.input) == Some(Withdraw) && |tx.input| == 36 && FromBigEndian(tx.input[4..36]) == TEN_POW_18 / 2 && tx.value == 0
    ensures nonce % 10 == 9 ==>
      Classify(tx.input) == Some(Repay) && |tx.input| == 36 && FromBigEndian(tx.input[4..36]) == 500 * TEN_POW_18 && tx.value == 0
  {
    var tx := Transaction(sender, Some(protocol), 0, []);
    match nonce % 10
    case 0 | 1 | 2 | 3 => tx.(input := EncodeDepositCall(), value := TEN_POW_18)
    case 4 | 5 | 6 => tx.(input := EncodeBorrowCall(1000 * TEN_POW_18))
    case 7 | 8 => tx.(input := EncodeWithdrawCall(500_000_000_000_000_000))
    case _ => tx.(input := EncodeRepayCall(500 * TEN_POW_18))
  }
}
