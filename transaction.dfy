/** The transaction row of `src/db/models/transaction.rs`: the transaction type codes, the
    conversion of an RPC transaction into a row (`from_rpc`) and the receipt columns filled in
    afterwards (`add_receipt_data`).

    Addresses reach the model as the text alloy renders for them (the EIP-55 checksummed form,
    which needs keccak and is not modelled); block and transaction hashes and storage keys are
    32-byte values, which alloy renders as "0x" followed by their lowercase hex, as
    `Format.FormatBytesSlice` does. */
module Transaction {
  import opened Wrappers
  import opened Format

  // ---------------------------------------------------------------------------------------
  // TransactionType (transaction.rs:12-20)

  /** The transaction envelope kinds, stored as their one-byte codes. */
  datatype TransactionType = Legacy | Eip2930 | Eip1559 | Eip4844 | Eip7702
  {
    /** The `#[repr(u8)]` discriminant the column stores. */
    function Code(): (c: Byte)
      ensures c <= 4
    {
      match this
      case Legacy => 0
      case Eip2930 => 1
      case Eip1559 => 2
      case Eip4844 => 3
      case Eip7702 => 4
    }
  }

  /** `Deserialize_repr`: the type a stored code stands for; any other code is rejected. */
  function TypeFromCode(c: Byte): (r: Option<TransactionType>)
    ensures r.Some? <==> c <= 4
    ensures r.Some? ==> r.value.Code() == c
  {
    if c == 0 then Some(Legacy)
    else if c == 1 then Some(Eip2930)
    else if c == 2 then Some(Eip1559)
    else if c == 3 then Some(Eip4844)
    else if c == 4 then Some(Eip7702)
    else None
  }

  /** Writing a type and reading it back gives the same type, so no two types share a code. */
  lemma TypeCodeRoundTrip(t: TransactionType)
    ensures TypeFromCode(t.Code()) == Some(t)
  {
  }

  lemma CodeInjective(t: TransactionType, t': TransactionType)
    requires t.Code() == t'.Code()
    ensures t == t'
  {
    TypeCodeRoundTrip(t);
    TypeCodeRoundTrip(t');
  }

  // ---------------------------------------------------------------------------------------
  // The RPC values

  /** A 32-byte value: a block or transaction hash, or a storage key. */
  type B256 = b: seq<Byte> | |b| == 32 witness seq(32, _ => 0)

  /** An access list entry: an address and the storage keys it touches. */
  datatype AccessListItem = AccessListItem(address: string, storageKeys: seq<B256>)

  /** The fields of an RPC transaction that `from_rpc` reads. The four flags are the envelope's
      `is_eip1559`, `is_eip2930`, `is_eip4844` and `is_eip7702`; `to` is `None` for a contract
      creation; the block fields are `None` for a pending transaction. */
  datatype RpcTransaction = RpcTransaction(
    to: Option<string>,
    isEip1559: bool, isEip2930: bool, isEip4844: bool, isEip7702: bool,
    accessList: Option<seq<AccessListItem>>,
    input: seq<Byte>,
    blockHash: Option<B256>, blockNumber: Option<U64>, transactionIndex: Option<U64>,
    from: string, gasLimit: U64, gasPrice: Option<U128>, hash: B256,
    maxFeePerGas: U128, maxPriorityFeePerGas: Option<U128>, nonce: U64, value: U256)

  /** The fields of a transaction receipt that `add_receipt_data` reads. */
  datatype RpcReceipt = RpcReceipt(
    contractAddress: Option<string>, cumulativeGasUsed: U64, effectiveGasPrice: U128,
    gasUsed: U64, status: bool)

  // ---------------------------------------------------------------------------------------
  // The derived columns of from_rpc

  /** alloy's text for `Address::ZERO`. */
  const ZERO_ADDRESS: string := "0x0000000000000000000000000000000000000000"

  /** transaction.rs:58-61: the recipient, or the zero address for a contract creation. */
  function ToColumn(to: Option<string>): (r: string)
  {
    match to
    case Some(address) => address
    case None => ZERO_ADDRESS
  }

  /** The column cannot tell a contract creation from a transfer to the zero address: it holds
      the zero address exactly when either happened, and the recipient otherwise. */
  lemma ToColumnZero(to: Option<string>)
    ensures ToColumn(to) == ZERO_ADDRESS <==> (to.None? || to == Some(ZERO_ADDRESS))
    ensures to.Some? && to.value != ZERO_ADDRESS ==> ToColumn(to) == to.value
  {
  }

  /** transaction.rs:63-73: the first flag that holds, in the order EIP-1559, EIP-2930,
      EIP-4844, EIP-7702; `Legacy` when none does. */
  function Classify(tx: RpcTransaction): (t: TransactionType)
  {
    if tx.isEip1559 then Eip1559
    else if tx.isEip2930 then Eip2930
    else if tx.isEip4844 then Eip4844
    else if tx.isEip7702 then Eip7702
    else Legacy
  }

  /** The order of the tests: each type is chosen exactly when its flag holds and no flag examined
      before it does. */
  lemma ClassifyPriority(tx: RpcTransaction)
    ensures Classify(tx) == Eip1559 <==> tx.isEip1559
    ensures Classify(tx) == Eip2930 <==> !tx.isEip1559 && tx.isEip2930
    ensures Classify(tx) == Eip4844 <==> !tx.isEip1559 && !tx.isEip2930 && tx.isEip4844
    ensures Classify(tx) == Eip7702 <==> !tx.isEip1559 && !tx.isEip2930 && !tx.isEip4844 && tx.isEip7702
    ensures Classify(tx) == Legacy <==> !tx.isEip1559 && !tx.isEip2930 && !tx.isEip4844 && !tx.isEip7702
  {
  }

  /** The lowercase "0x" text of each storage key (transaction.rs:82-86). */
  function StorageKeyStrings(keys: seq<B256>): (r: seq<string>)
    ensures |r| == |keys|
    ensures forall i | 0 <= i < |keys| ::
              |r[i]| == 66 && r[i][..2] == "0x" && IsLowerHex(r[i][2..]) && DecodeBytes(r[i]) == Some(keys[i])
  {
    seq(|keys|, i requires 0 <= i < |keys| => KeyString(keys[i]))
  }

  function KeyString(key: B256): (s: string)
    ensures |s| == 66 && s[..2] == "0x" && IsLowerHex(s[2..])
    ensures DecodeBytes(s) == Some(key)
  {
    FormatThenDecode(key);
    FormatBytesSlice(key)
  }

  /** `column` is the access list column of `accessList`: empty when there is none, else one
      entry per item with its address and the texts of its storage keys, in order (each text
      `0x` and lowercase hex that decodes back to its key, by `StorageKeyStrings`). */
  ghost predicate AccessListFilled(column: seq<(string, seq<string>)>, accessList: Option<seq<AccessListItem>>)
  {
    && (accessList.None? ==> column == [])
    && (accessList.Some? ==>
          && |column| == |accessList.value|
          && forall i | 0 <= i < |column| ::
               column[i].0 == accessList.value[i].address
               && column[i].1 == StorageKeyStrings(accessList.value[i].storageKeys))
  }

  /** transaction.rs:75-94: the access list column of a transaction. */
  method AccessListColumn(accessList: Option<seq<AccessListItem>>) returns (column: seq<(string, seq<string>)>)
    ensures AccessListFilled(column, accessList)
  {
    match accessList {
      case None =>
        column := [];
      case Some(items) =>
        column := [];
        for i := 0 to |items|
          invariant |column| == i
          invariant forall k | 0 <= k < i ::
                      column[k].0 == items[k].address && column[k].1 == StorageKeyStrings(items[k].storageKeys)
        {
          var keys := StorageKeyStrings(items[i].storageKeys);
          column := column + [(items[i].address, keys)];
        }
    }
  }

  /** transaction.rs:96 and 116: the method column, "0x" and the hex of the first four input
      bytes, or of four zero bytes when the input is shorter. The input text is always
      well-formed, so `byte4_from_input` does not panic here. */
  function MethodColumn(input: seq<Byte>): (m: string)
    ensures |m| == 10 && m[..2] == "0x" && IsLowerHex(m[2..])
    ensures DecodeBytes(m) == Some(if |input| < 4 then ZERO_SELECTOR else input[..4])
  {
    SelectorOfFormatted(input);
    var selector := Byte4FromInput(FormatBytesSlice(input)).value;
    FormatThenDecode(selector);
    FormatBytesSlice(selector)
  }

  /** A selector determines its method column and back: two inputs share a method column
      exactly when they share a selector. */
  lemma MethodColumnInjective(a: seq<Byte>, b: seq<Byte>)
    ensures MethodColumn(a) == MethodColumn(b) <==>
            (if |a| < 4 then ZERO_SELECTOR else a[..4]) == (if |b| < 4 then ZERO_SELECTOR else b[..4])
  {
    var sa := if |a| < 4 then ZERO_SELECTOR else a[..4];
    var sb := if |b| < 4 then ZERO_SELECTOR else b[..4];
    if sa == sb {
      SelectorOfFormatted(a);
      SelectorOfFormatted(b);
    }
  }

  // ---------------------------------------------------------------------------------------
  // DatabaseTransaction (transaction.rs:22-141)

  /** The columns of a row that `from_rpc` fills from the transaction, as one value. */
  datatype FilledColumns = FilledColumns(
    accessList: seq<(string, seq<string>)>, blockHash: string, blockNumber: U64, chain: U64,
    from: string, gasLimit: U64, gasPrice: Option<U128>, hash: string, input: string,
    maxFeePerGas: U128, maxPriorityFeePerGas: Option<U128>, methodId: string, nonce: U64,
    timestamp: U64, to: string, transactionIndex: U64, transactionType: TransactionType, value: U256)

  /** `c` holds the columns `from_rpc` derives from a mined transaction, its chain and its
      block's timestamp. */
  ghost predicate FilledFrom(c: FilledColumns, transaction: RpcTransaction, chain: U64, timestamp: U64)
    requires transaction.blockHash.Some? && transaction.blockNumber.Some? && transaction.transactionIndex.Some?
  {
    && c.to == ToColumn(transaction.to)
    && c.transactionType == Classify(transaction)
    && AccessListFilled(c.accessList, transaction.accessList)
    && c.input == FormatBytesSlice(transaction.input)
    && c.methodId == MethodColumn(transaction.input)
    && c.blockHash == FormatBytesSlice(transaction.blockHash.value)
    && c.blockNumber == transaction.blockNumber.value
    && c.transactionIndex == transaction.transactionIndex.value
    && c.hash == FormatBytesSlice(transaction.hash)
    && c.chain == chain && c.timestamp == timestamp
    && c.from == transaction.from && c.gasLimit == transaction.gasLimit && c.gasPrice == transaction.gasPrice
    && c.maxFeePerGas == transaction.maxFeePerGas && c.maxPriorityFeePerGas == transaction.maxPriorityFeePerGas
    && c.nonce == transaction.nonce && c.value == transaction.value
  }

  /** A row of the transactions table. The receipt columns (base fee, contract created,
      cumulative gas, effective gas price, gas used, status) start empty and are filled in by
      `AddReceiptData`. */
  class DatabaseTransaction {
    var accessList: seq<(string, seq<string>)>
    var baseFeePerGas: Option<U64>
    var blockHash: string
    var blockNumber: U64
    var chain: U64
    var contractCreated: Option<string>
    var cumulativeGasUsed: Option<U64>
    var effectiveGasPrice: Option<U128>
    var from: string
    var gasLimit: U64
    var gasPrice: Option<U128>
    var gasUsed: Option<U64>
    var hash: string
    var input: string
    var maxFeePerGas: U128
    var maxPriorityFeePerGas: Option<U128>
    var methodId: string  // the `method` column
    var nonce: U64
    var status: Option<bool>
    var timestamp: U64
    var to: string
    var transactionIndex: U64
    var transactionType: TransactionType
    var value: U256

    /** The row has no receipt data yet. */
    ghost predicate AwaitingReceipt()
      reads this
    {
      && baseFeePerGas.None? && contractCreated.None? && cumulativeGasUsed.None?
      && effectiveGasPrice.None? && gasUsed.None? && status.None?
    }

    /** The columns `from_rpc` fills from the transaction. */
    ghost function Filled(): FilledColumns
      reads this`accessList, this`blockHash, this`blockNumber, this`chain, this`from, this`gasLimit
      reads this`gasPrice, this`hash, this`input, this`maxFeePerGas, this`maxPriorityFeePerGas
      reads this`methodId, this`nonce, this`timestamp, this`to, this`transactionIndex
      reads this`transactionType, this`value
    {
      FilledColumns(accessList, blockHash, blockNumber, chain, from, gasLimit, gasPrice, hash, input,
                    maxFeePerGas, maxPriorityFeePerGas, methodId, nonce, timestamp, to,
                    transactionIndex, transactionType, value)
    }

    /** `from_rpc`. The three `unwrap`s (transaction.rs:101, 102, 121) demand a mined
        transaction: block hash, block number and index present. */
    constructor FromRpc(transaction: RpcTransaction, chain: U64, timestamp: U64)
      requires transaction.blockHash.Some? && transaction.blockNumber.Some? && transaction.transactionIndex.Some?
      ensures AwaitingReceipt()
      ensures FilledFrom(Filled(), transaction, chain, timestamp)
      ensures DecodeBytes(input) == Some(transaction.input)
      ensures DecodeBytes(methodId) == Some(if |transaction.input| < 4 then ZERO_SELECTOR else transaction.input[..4])
    {
      var to := ToColumn(transaction.to);
      var transactionType := Classify(transaction);
      var accessList := AccessListColumn(transaction.accessList);
      var input := FormatBytesSlice(transaction.input);
      FormatThenDecode(transaction.input);

      this.accessList := accessList;
      baseFeePerGas := None;
      blockHash := FormatBytesSlice(transaction.blockHash.value);
      blockNumber := transaction.blockNumber.value;
      this.chain := chain;
      contractCreated := None;
      cumulativeGasUsed := None;
      effectiveGasPrice := None;
      from := transaction.from;
      gasLimit := transaction.gasLimit;
      gasPrice := transaction.gasPrice;
      gasUsed := None;
      hash := FormatBytesSlice(transaction.hash);
      this.input := input;
      maxFeePerGas := transaction.maxFeePerGas;
      maxPriorityFeePerGas := transaction.maxPriorityFeePerGas;
      methodId := MethodColumn(transaction.input);
      nonce := transaction.nonce;
      status := None;
      this.timestamp := timestamp;
      this.to := to;
      transactionIndex := transaction.transactionIndex.value;
      this.transactionType := transactionType;
      value := transaction.value;
    }

    /** The receipt columns hold the block's base fee and the receipt's values. */
    ghost predicate HoldsReceipt(baseFeePerGas: Option<U64>, receipt: RpcReceipt)
      reads this`baseFeePerGas, this`contractCreated, this`cumulativeGasUsed
      reads this`effectiveGasPrice, this`gasUsed, this`status
    {
      && this.baseFeePerGas == baseFeePerGas
      && contractCreated == receipt.contractAddress
      && cumulativeGasUsed == Some(receipt.cumulativeGasUsed)
      && effectiveGasPrice == Some(receipt.effectiveGasPrice)
      && gasUsed == Some(receipt.gasUsed)
      && status == Some(receipt.status)
    }

    /** `add_receipt_data`: sets the six receipt columns from the block's base fee and the
        receipt, and nothing else: the frame names only those six fields, and every column
        `from_rpc` filled is unchanged. */
    method AddReceiptData(baseFeePerGas: Option<U64>, receipt: RpcReceipt)
      modifies this`baseFeePerGas, this`contractCreated, this`cumulativeGasUsed,
               this`effectiveGasPrice, this`gasUsed, this`status
      ensures HoldsReceipt(baseFeePerGas, receipt)
      ensures unchanged(this`accessList, this`blockHash, this`blockNumber, this`chain, this`from, this`gasLimit,
                        this`gasPrice, this`hash, this`input, this`maxFeePerGas, this`maxPriorityFeePerGas,
                        this`methodId, this`nonce, this`timestamp, this`to, this`transactionIndex,
                        this`transactionType, this`value)
    {
      this.baseFeePerGas := baseFeePerGas;
      contractCreated := receipt.contractAddress;
      cumulativeGasUsed := Some(receipt.cumulativeGasUsed);
      effectiveGasPrice := Some(receipt.effectiveGasPrice);
      gasUsed := Some(receipt.gasUsed);
      status := Some(receipt.status);
    }
  }

  /** A row built from a mined transaction and completed with its receipt: every column that
      `from_rpc` filled is as it left it, and the receipt columns hold the receipt. */
  method RowOf(transaction: RpcTransaction, chain: U64, timestamp: U64, baseFeePerGas: Option<U64>, receipt: RpcReceipt)
    returns (row: DatabaseTransaction)
    requires transaction.blockHash.Some? && transaction.blockNumber.Some? && transaction.transactionIndex.Some?
    ensures fresh(row)
    ensures FilledFrom(row.Filled(), transaction, chain, timestamp)
    ensures row.HoldsReceipt(baseFeePerGas, receipt)
  {
    row := new DatabaseTransaction.FromRpc(transaction, chain, timestamp);
    row.AddReceiptData(baseFeePerGas, receipt);
  }
}
