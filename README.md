# Token metadata resolution, byte helpers and transaction rows, in Dafny

This project models three parts of a blockchain indexer and proves properties of them:

- **Token metadata resolution** (`src/utils/tokens.rs`). Given a set of token addresses, `get_tokens_metadata` runs one round:
  - it looks the addresses up in the metadata store;
  - it fetches each address the store lacks from the chain;
  - it returns the stored records followed by the fetched ones.

  `get_tokens` builds an address→record map from that round and aborts when the map's size differs from the request's. It then collects the `token0`/`token1` components of the first-round records and runs a second round over them, whose records overwrite first-round entries.
- **Byte helpers** (`src/utils/format.rs`): the `0x`-prefixed hex codec, the method-selector extraction `byte4_from_input`, the U256→u64 narrowing `format_u256`, and the 32-byte little-endian `SerU256` codec.
- **Transaction rows** (`src/db/models/transaction.rs`): the `TransactionType` codes, `DatabaseTransaction::from_rpc` and `add_receipt_data`.

Files:

- `wrappers.dfy`: `Option` and `Result`.
- `format.dfy` (module `Format`): pure functions and their round trips.
- `token_spec.dfy` (module `TokenSpec`): the record type, the fetcher, and reference definitions of what a round and the two-round resolution yield (`ResolveTokens`), with lemmas about them.
- `tokens.dfy` (module `Tokens`): the imperative resolver, proved against `TokenSpec`.
  - The store is a class `Database` holding a map.
  - Iteration over a `HashSet` is a loop that picks an arbitrary remaining element.
  - The fetches run one after another.
  - `calls` ghost outputs record which addresses were passed to the fetcher.
- `transaction.dfy` (module `Transaction`): the type codes, the derived columns, and a class `DatabaseTransaction` whose constructor is `from_rpc` and whose `AddReceiptData` may change only the six receipt fields.

Panics become error values. A failed fetch's `unwrap` and the count check's `panic!` are the `Failure` outcomes `FetchFailed` and `InconsistentTokenCount`. The `unwrap`s in `byte4_from_input`, `decode_bytes` and `format_u256` return `None`. The three `unwrap`s of the block fields in `from_rpc` are preconditions of its constructor.

Consequences of the code as written that the lemmas make explicit:

- **Write-back.** Fetched records are collected from both rounds for a single write-back at the end (tokens.rs:76-80). Because of the drain listed under Findings, that list is always empty and the write-back never runs.
- **Overwriting.** The second round's `insert` (tokens.rs:73) replaces any first-round entry under the same key (`Tokens.InsertRows`, `Tokens.TwoRoundMap`). Both rounds read the same store and fetcher, so an address looked up in both rounds gets the same record from each (`TokenSpec.RoundsAgree`). The replacement changes an entry only when the fetcher answers some address with a record of another address: requesting a pool and an address x that is answered with a record of the pool's component b, the first round files that record under b and the second round replaces it with b's own record (`Tokens.SecondRoundReplaces`).
- **Repeat calls.** Since nothing is written back, a second identical call fetches every missing address again (`Tokens.RepeatAsWritten`). With the write-back corrected, it makes no fetches (`Tokens.RepeatCorrected`).
- **Double fetches.** The store is not updated between the rounds, so an unstored address that is requested and is also a component of a requested pool is fetched in both rounds (`Tokens.FetchedInBothRounds`).
- **Count check.** The check compares only sizes (tokens.rs:53). A fetcher that answers for one address with another address's record can pass the check while a requested address gets no entry (`TokenSpec.CountCheckAdmitsMissingKey`). For a fetcher that answers each address with that address's own record (`Rpc.KeyedByAddress`), the count check never fires and the outcome is exactly `ResolveTokens`.

## Model

| member | source | states |
|---|---|---|
| Format.HexEncode | src/utils/format.rs:16 | `hex::encode` gives two lowercase hex digits per byte |
| Format.HexDecode | src/utils/format.rs:12 | `hex::decode` succeeds exactly on even-length text of hex digits of either case, giving one byte per two digits |
| Format.HexValue | src/utils/format.rs:12 | a character has a digit value exactly when it is a hex digit of either case |
| Format.HexRoundTrip | src/utils/format.rs:12-16 | decoding the encoding of any bytes gives the bytes back |
| Format.HexEncodeOfDecoded | src/utils/format.rs:12-16 | lowercase hex text that decodes is the encoding of what it decodes to |
| Format.FormatBytesSlice | src/utils/format.rs:15-17 | `format_bytes_slice(b)` is `0x` followed by 2·\|b\| lowercase hex digits |
| Format.DropTwoBytes | src/utils/format.rs:11 | `&s[2..]` drops two UTF-8 bytes: two ASCII characters, or one two-byte character; it panics on shorter text or a split character |
| Format.DecodeBytes | src/utils/format.rs:10-13 | `decode_bytes` hex-decodes what follows the first two bytes and fails on text shorter than two ASCII characters |
| Format.FormatThenDecode | src/utils/format.rs:10-17 | `decode_bytes(format_bytes_slice(b)) == b` for all bytes |
| Format.DecodeThenFormat | src/utils/format.rs:10-17 | `0x`-prefixed lowercase hex that decodes reformats to itself |
| Format.DecodeBytesIgnoresPrefix | src/utils/format.rs:11 | the dropped prefix is never checked: `ab12` and `\u{e9}12` decode like `0x12` |
| Format.StripPrefix | src/utils/format.rs:20 | `strip_prefix` succeeds exactly when the text starts with the prefix, and returns the remainder |
| Format.Byte4FromInput | src/utils/format.rs:19-36 | the selector is four bytes; it fails exactly when the `0x` prefix is missing or a non-empty remainder is not valid hex |
| Format.SelectorOfValidInput | src/utils/format.rs:22-35 | for valid input the selector is the first four decoded bytes in order, or four zeros when fewer than four (including none) decode |
| Format.SelectorOfFormatted | src/utils/format.rs:19-36 | the selector of any formatted byte string exists and is its first four bytes, or zeros |
| Format.ToDecimal | src/utils/format.rs:7 | `to_string` of a number is non-empty decimal digits |
| Format.DecimalRoundTrip | src/utils/format.rs:7 | reading the decimal text of a number back gives the number |
| Format.ParseU64 | src/utils/format.rs:7 | `parse::<u64>`: accepts an optional `+` followed by one or more decimal digits whose value is below 2^64 (no ensures of its own; `Format.DecimalRoundTrip` and `Format.FormatU256` state its property) |
| Format.FormatU256 | src/utils/format.rs:6-8 | `format_u256(u)` succeeds exactly when u < 2^64, and then returns u unchanged |
| Format.ToLeBytes | src/utils/format.rs:45 | `to_le_bytes` into n bytes has length n |
| Format.FromLeBytes | src/utils/format.rs:56 | little-endian bytes denote a value below 256^\|bytes\| |
| Format.FromLeOfToLe | src/utils/format.rs:40-57 | a value below 256^n survives writing and reading n little-endian bytes |
| Format.ToLeOfFromLe | src/utils/format.rs:40-57 | any bytes survive reading and writing back their value |
| Format.SerializeU256 | src/utils/format.rs:40-48 | the stored form of a U256 is 32 bytes, least significant first |
| Format.DeserializeU256 | src/utils/format.rs:50-57 | reading succeeds exactly on 32 bytes |
| Format.SerU256RoundTrip | src/utils/format.rs:40-57 | deserialising the serialised form of any U256 gives it back |
| Format.SerU256Onto | src/utils/format.rs:40-57 | every 32-byte form is the serialisation of the value it reads as |
| TokenSpec.Rpc.GetTokenMetadata | src/utils/tokens.rs:26 | the fetch of one address: the fetcher's record for it, or nothing when the fetch fails (no ensures of its own; `Tokens.FetchEach` states what the fetch loop does with it) |
| TokenSpec.ResolveTokens | src/utils/tokens.rs:40-83 | the reference outcome of `get_tokens`: `FetchFailed` when a first-round fetch fails, else `InconsistentTokenCount` when the count check fails, else `FetchFailed` when a second-round fetch fails, else both rounds' maps, the second over the first (no ensures of its own; `TokenSpec.ResolveTokensSuccess`, `TokenSpec.ResultCoverage` and `Tokens.GetTokens` state its properties) |
| TokenSpec.Resolve | src/utils/tokens.rs:15-33 | a round yields the stored record of an address when there is one, else the fetched one |
| TokenSpec.KeyedRoundKeys | src/utils/tokens.rs:49-55 | with the store and the fetcher keyed by address, a round's records carry exactly the requested addresses |
| TokenSpec.KeyedNeverInconsistent | src/utils/tokens.rs:53-55 | with the store and the fetcher keyed by address, the count check never aborts |
| TokenSpec.CountCheckAdmitsMissingKey | src/utils/tokens.rs:53-55 | the count check compares sizes only: requests {A, B}, with A answered by a record of C, pass it while A gets no key |
| TokenSpec.ResultCoverage | src/utils/tokens.rs:47-82 | on success the map's keys are the requested addresses plus the components of their records |
| TokenSpec.RoundsAgree | src/utils/tokens.rs:72-74 | on success a component's entry is the record a lookup gives it, and a requested address that is also a component gets the same record from both rounds |
| TokenSpec.ReplacedEntryScenario | src/utils/tokens.rs:45-74 | with an empty store, requesting a pool with one unknown component b and an address answered with a record of b passes the count check; the first round's records are the pool and that record, and the second round looks up b alone and yields b's own record |
| TokenSpec.ComponentOrigin | src/utils/tokens.rs:57-67 | every component address is the `token0` or `token1` of a requested token's record |
| TokenSpec.NoThirdRound | src/utils/tokens.rs:69-74 | components of components are never looked up (depth 2) |
| TokenSpec.ResolveTokensSuccess | src/utils/tokens.rs:40-83 | resolution succeeds exactly when both rounds' fetches succeed and the count check passes, and then yields both rounds' maps, the second over the first |
| TokenSpec.StoredRound | src/utils/tokens.rs:15-21 | for addresses all in the store, a round yields the stored records under their own addresses |
| TokenSpec.FullCacheHit | src/utils/tokens.rs:15-74 | when the requested tokens and their components are all stored, the result is the store restricted to them |
| TokenSpec.WriteBackMakesRepeatAHit | src/utils/tokens.rs:76-80 | after writing back every fetched record, the store covers both rounds and a repeat resolves to the same result |
| TokenSpec.PoolScenario | src/utils/tokens.rs:40-83 | requesting one pool whose two components are unknown yields three entries: the pool and both components |
| TokenSpec.PoolWithComponentScenario | src/utils/tokens.rs:45-70 | requesting a pool together with one of its unknown components passes the count check, and that component is requested again in the second round |
| Tokens.Addresses | src/utils/tokens.rs:16 | the addresses of the store's rows, one per row and in order |
| Tokens.MapOf | src/utils/tokens.rs:49-51 | inserting rows yields a map keyed by the rows' own addresses, each entry one of the rows |
| Tokens.MapOfAgrees | src/utils/tokens.rs:49-51 | rows that agree with a reference map build exactly the part of it they mention |
| Tokens.UnwrapAll | src/utils/tokens.rs:29-33 | the unwrap succeeds exactly when every fetch did, and keeps the answers in order |
| Tokens.RoundFacts | src/utils/tokens.rs:15-37 | a round's first vector has one record per requested address; its records and their keys are those of `Resolve`; for a keyed fetcher it builds `ResolvedMap` |
| Tokens.Database.GetTokens | src/utils/tokens.rs:15 | the store answers with each requested stored address's record, once each |
| Tokens.Database.StoreTokenDetails | src/utils/tokens.rs:79 | the store records each row under its address, a later row over an earlier one |
| Tokens.MissingTokens | src/utils/tokens.rs:18-21 | the missing list holds exactly the requested addresses the store did not return, each once |
| Tokens.FetchEach | src/utils/tokens.rs:23-31 | one fetch per missing address, answers in call order |
| Tokens.AnswersComplete | src/utils/tokens.rs:29-33 | every answer is present exactly when every requested address is stored or fetchable |
| Tokens.LookupAndFetch | src/utils/tokens.rs:15-33 | the fetched addresses are exactly the requested unstored ones, each once; success exactly when all fetches succeed; the stored part and the fetched part as above |
| Tokens.GetTokensMetadata | src/utils/tokens.rs:10-38 | as written: same fetches and failure; the first vector is the hits followed by the fetched records; the second vector is always empty; no fetch on a full cache hit |
| Tokens.GetTokensMetadataCorrected | src/utils/tokens.rs:35-37 | corrected: the second vector is the fetched records in call order |
| Tokens.InsertRows | src/utils/tokens.rs:49-51 | the insert loop yields the old map overridden by the rows' map |
| Tokens.CollectUnderlying | src/utils/tokens.rs:57-67 | the underlying set is exactly the present `token0`/`token1` values of the rows |
| Tokens.TwoRoundMap | src/utils/tokens.rs:69-74 | the merged map's keys are both rounds' record addresses; every entry carries its key; component keys hold second-round records |
| Tokens.FirstFetchFailed | src/utils/tokens.rs:45 | a failed first-round fetch ends the call as `FetchFailed` with no second round |
| Tokens.CountCheckFailed | src/utils/tokens.rs:53-55 | a size mismatch ends the call as `InconsistentTokenCount` with no second round |
| Tokens.SecondFetchFailed | src/utils/tokens.rs:69-70 | a failed second-round fetch ends the call as `FetchFailed` |
| Tokens.BothRoundsSucceeded | src/utils/tokens.rs:72-82 | the map after both rounds is what `get_tokens` promises |
| Tokens.GetTokens | src/utils/tokens.rs:40-83 | as written: it fails exactly when `ResolveTokens` fails, with the same error; it fetches exactly the unstored requested addresses and, in round two, the unstored components; the map's keys and records are as `ResolveTokens` describes, and equal to it for a keyed fetcher; it never writes the store |
| Tokens.GetTokensCorrected | src/utils/tokens.rs:76-80 | corrected: same outcome and fetches; on failure the store is unchanged; on success the store gains exactly the fetched records |
| Tokens.FetchedInBothRounds | src/utils/tokens.rs:45-70 | with an empty store, a pool requested together with one of its components makes that component be fetched in both rounds |
| Tokens.SecondRoundReplaces | src/utils/tokens.rs:72-74 | in the scenario of `TokenSpec.ReplacedEntryScenario`, the first round yields a record of b from the lookup of another address, and every outcome of `get_tokens` succeeds and holds b's own record under b |
| Tokens.WrittenBack | src/utils/tokens.rs:76-80 | for a keyed fetcher the corrected write-back stores exactly the records of every address the store lacked |
| Tokens.RepeatAsWritten | src/utils/tokens.rs:76-80 | as written, for any fetcher, a repeat call fetches the same missing addresses again and fails exactly when the first did; for a keyed fetcher it returns the same outcome |
| Tokens.RepeatCorrected | src/utils/tokens.rs:76-80 | corrected, a repeat after a success makes no fetch in either round and returns the same map |
| Transaction.TransactionType.Code | src/db/models/transaction.rs:12-20 | the stored codes are Legacy=0, Eip2930=1, Eip1559=2, Eip4844=3, Eip7702=4 |
| Transaction.TypeFromCode | src/db/models/transaction.rs:12-20 | reading a code succeeds exactly for 0..4, and gives the type with that code |
| Transaction.TypeCodeRoundTrip | src/db/models/transaction.rs:12-20 | reading back any type's code gives the type |
| Transaction.CodeInjective | src/db/models/transaction.rs:12-20 | no two types share a code |
| Transaction.ToColumn | src/db/models/transaction.rs:58-61 | the `to` text: the recipient, or the zero address for a contract creation (no ensures of its own; `Transaction.ToColumnZero` states its property) |
| Transaction.ToColumnZero | src/db/models/transaction.rs:58-61 | `to` is the zero address exactly when there is no recipient or the recipient is the zero address; otherwise it is the recipient |
| Transaction.Classify | src/db/models/transaction.rs:63-73 | the type chosen by the chain of envelope tests (no ensures of its own; `Transaction.ClassifyPriority` states its property) |
| Transaction.ClassifyPriority | src/db/models/transaction.rs:63-73 | each type is chosen exactly when its own test holds and no earlier test (1559, 2930, 4844, 7702) does; Legacy when none holds |
| Transaction.StorageKeyStrings | src/db/models/transaction.rs:82-86 | the key texts keep the count and order of the storage keys; each is `0x` and 64 lowercase hex digits and decodes back to its key |
| Transaction.KeyString | src/db/models/transaction.rs:85 | a storage key's text is `0x` followed by 64 lowercase hex digits and decodes back to the key |
| Transaction.AccessListColumn | src/db/models/transaction.rs:75-94 | the access list keeps the entries' count, order and addresses, and each entry's key list is exactly the text of its storage keys, each `0x` and 64 lowercase hex digits decoding back to its key; it is empty when the transaction has none |
| Transaction.MethodColumn | src/db/models/transaction.rs:96-116 | `method` is `0x` followed by 8 lowercase hex digits, and decodes to the input's first four bytes, or zeros when the input is shorter |
| Transaction.MethodColumnInjective | src/db/models/transaction.rs:116 | two inputs share a `method` exactly when they share a selector |
| Transaction.DatabaseTransaction.FromRpc | src/db/models/transaction.rs:53-125 | the row copies the transaction's fields; `to`, type, access list and `method` are as above; `input` is the text `method` is derived from and decodes to the input; the six receipt fields are `None` |
| Transaction.DatabaseTransaction.AddReceiptData | src/db/models/transaction.rs:127-140 | it sets the base fee, the contract created, and, wrapped in `Some`, the cumulative gas, effective gas price, gas used and status; the frame allows no other field to change, and every column `from_rpc` fills keeps its value |
| Transaction.RowOf | src/db/models/transaction.rs:53-140 | a row built and then completed with its receipt holds every column `from_rpc` fills, as it filled them (hashes, block position, chain, timestamp, input, `method`, access list, type, sender, recipient, gas and fee fields, nonce, value), and the block's base fee with the receipt's contract address, gas used, cumulative gas, effective gas price and status |

## Left out

- The metadata store is a map from address to record, queried and written as a whole. The ClickHouse queries are not modelled, and the write of tokens.rs:79 is taken to succeed (its `unwrap` is not modelled).
- The chain fetcher `Rpc::get_token_metadata` is a partial map. `src/rpc/rpc.rs` is not part of this model, so the model does not assume that the fetcher answers an address with that address's own record; the exact results are stated for a fetcher that does (`Rpc.KeyedByAddress`).
- `src/db/models/token_detail.rs` is not part of this model. The record keeps the address, the two components, and the chain, name, symbol and decimals as plain values.
- `futures::join_all`: the fetches are independent, so they run one after another in the model.
- The iteration order of a `HashSet` and of the store's answer is left arbitrary. The lists are specified up to that order.
- Transaction.DatabaseTransaction.FromRpc: the `unwrap`s of the block hash, block number and transaction index (transaction.rs:101, 102, 121) are preconditions, so a pending transaction, for which `from_rpc` panics, is outside the model.
- Tokens.GetTokens: for a fetcher that may answer one address with another address's record, the contract gives the map's keys and which records its entries may hold, not each entry. In that case two records of one address could be merged into one entry, so the entry is not determined by the reference definitions alone.
- Addresses are the text alloy renders for them: `to_string` of an `Address` applies the EIP-55 checksum, which needs keccak. Transaction hashes, block hashes and storage keys are 32-byte values. Their text is `0x` followed by lowercase hex, as alloy's `Display` renders them. `tx_hash` itself and the envelope tests `is_eip1559`…`is_eip7702` are inputs.
- The serde, serde_with and serde_repr plumbing: only the byte-level `SerU256` codec and the `repr(u8)` codes are modelled.
- Integer widths are subset types (`U64`, `U128`, `U256`). Nothing in the modelled code adds or multiplies them, so no wrap-around arises.
- `src/db/models/block.rs`, `withdrawal.rs`, `contract.rs` and `contract_metadata.rs`: field-copy adapters with no logic to verify.
- The `ethers` types that `format.rs` imports are not used by the modelled functions.

## Findings

| source | as written | input that shows it | evidently intended | confidence | as-written member | corrected member |
|---|---|---|---|---|---|---|
| src/utils/tokens.rs:35 | `db_tokens.append(&mut missing_tokens_metadata)` moves the fetched records into `db_tokens` and leaves `missing_tokens_metadata` empty, so the write-back list of lines 76-80 is always empty and `store_token_details` never runs | requested {A}, with A not in the store and the fetch of A succeeding: A is fetched, nothing is stored, and a repeat call fetches A again | return the fetched records as the second vector so that they are written back and a repeat call is a cache hit | high; not executed | Tokens.GetTokensMetadata, Tokens.RepeatAsWritten | Tokens.GetTokensCorrected, Tokens.RepeatCorrected |
