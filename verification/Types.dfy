/** Results, machine integers and the chain's records: accounts, transactions, blocks and receipts. */
module Types {

  datatype Option<+T> = None | Some(value: T)

  datatype Result<+T, +E> = Ok(value: T) | Err(error: E) {
    predicate IsFailure() { Err? }

    function PropagateFailure<U>(): Result<U, E>
      requires Err?
    {
      Err(error)
    }

    function Extract(): T
      requires Ok?
    {
      value
    }
  }

  const U64_MAX := 0xFFFF_FFFF_FFFF_FFFF
  type U64 = x: int | 0 <= x <= U64_MAX

  const U256_MAX := 0xFFFF_FFFF_FFFF_FFFF_FFFF_FFFF_FFFF_FFFF_FFFF_FFFF_FFFF_FFFF_FFFF_FFFF_FFFF_FFFF
  type U256 = x: int | 0 <= x <= U256_MAX

  type Byte = x: int | 0 <= x < 256
  type Bytes = seq<Byte>

  type Address = string
  type Hash = string     // lower-case hex, as blocks store it
  type Digest = U256     // 32 raw bytes, read as the number they spell
  type TxId = Digest
  type Slot = Digest

  const ZERO_DIGEST: Digest := 0

  const CHAIN_ID_REGTEST := 3

  /** Every way the state machine can refuse. `Overflow` stands for an unchecked `u64`
      operation that leaves the range: a panic in debug builds. */
  datatype CoreError =
    | InvalidChainId
    | InvalidCoinbaseAmount
    | UnsupportedTxType
    | InsufficientBalance
    | InvalidAddress
    | ContractCollision
    | InvalidCode
    | StateOverflow
    | Overflow

  /** What an account is besides its balance and nonce. */
  datatype Kind = Eoa | Contract(codeHash: Digest, storageRoot: Digest)

  datatype Account = Account(kind: Kind, balance: U64, nonce: U64)

  datatype Transaction =
    | Transfer(from: Address, to: Address, amount: U64, fee: U64, nonce: U64, chainId: nat,
               signature: Bytes, coinbase: bool)
    | Create(from: Address, initCode: Bytes, initArgs: Bytes, params: seq<string>, endowment: U64,
             gasLimit: U64, fee: U64, nonce: U64, chainId: nat, signature: Bytes)
    | Call(from: Address, to: Address, data: Bytes, callValue: U64,
           gasLimit: U64, fee: U64, nonce: U64, chainId: nat, signature: Bytes)
  {
    predicate IsCoinbase() { Transfer? && coinbase }

    function Value(): U64 {
      match this
      case Transfer(_, _, amount, _, _, _, _, _) => amount
      case Create(_, _, _, _, endowment, _, _, _, _, _) => endowment
      case Call(_, _, _, callValue, _, _, _, _, _) => callValue
    }
  }

  datatype Header = Header(
    index: U64, timestamp: U64, previousHash: Hash, hash: Hash, nonce: U64, target: U256,
    version: nat, stateRoot: Digest, txRoot: Digest, receiptsRoot: Digest)

  datatype Block = Block(header: Header, transactions: seq<Transaction>)

  datatype TxStatus = Success | Reverted | OutOfGas | Failed

  datatype ValueTransfer = ValueTransfer(from: Address, to: Address, amount: U64)

  datatype Log = Log(address: Address, topics: seq<Digest>, data: Bytes)

  datatype Receipt = Receipt(
    txid: TxId, gasUsed: U64, logs: seq<Log>, status: TxStatus, height: U64, txIndex: nat,
    transfers: seq<ValueTransfer>)
}
