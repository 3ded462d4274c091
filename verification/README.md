# Acala currency identifiers in Dafny

A verified model of the asset-identifier codec of the Acala runtime
(`primitives/src/currency.rs`). It covers:

- the closed `TokenSymbol` registry: seventeen tokens, each with a one-byte code, a display name and a number of decimal places;
- the `DexShare` and `CurrencyId` tagged unions, with the variant predicates and the split and join of pool shares;
- the decimals resolver;
- the 32-byte, address-shaped encoding that pre-deployed EVM contracts read, and its partial decoder;
- the lossy `u32` index;
- parsing a token identifier from its ASCII spelling.

Modules, one per component:

| file | module | models |
|---|---|---|
| `wrappers.dfy` | `Wrappers` | `Option` and `Result<_, ()>` |
| `bytes.dfy` | `Bytes` | `u8`, `u32`, `to_be_bytes` / `from_be_bytes`, `copy_from_slice` |
| `token_symbol.dfy` | `TokenSymbols` | the expanded `create_currency_id!` table, `TryFrom<u8>`, `get_info` |
| `currency_id.dfy` | `Currency` | `DexShare`, `CurrencyId`, `is_*`, split/join, `Into<CurrencyId>`, `decimals`, `TryFrom<Vec<u8>>` |
| `index_codec.dfy` | `IndexCodec` | `From<CurrencyId> for u32` |
| `codec32.dfy` | `Codec32` | `From<CurrencyId> for [u8; 32]`, `TryFrom<[u8; 32]>` |

The two encoders fill a zeroed buffer step by step. They are modelled as
methods that do the same on an array, and each is proved equal to a
specification function (`IndexCodec.Index`, `Codec32.Layout32`). The lemmas
state the layout and the round trips in terms of those functions. The
decoders and the other operations are pure functions.

The code behaves as follows where one might expect otherwise:

- An unassigned code and a malformed layout both fail with the same unit error `()`, so `Result` has a payload-free `Err`.
- The 32-byte decoder has no branch for contract tokens. A stand-alone contract token never survives encoding followed by decoding (`Codec32.Erc20NoRoundTrip`), and neither does a share with a contract side.
- The 32-byte encoder is not injective:
  - the zero address encodes exactly like the token ACA (`Codec32.Layout32Collision`);
  - a share with a contract side can encode like a share of two tokens, and then decodes as that share (`Codec32.DexShareWithErc20Misdecodes`).
- In the `u32` index of a share, the right side's bytes overwrite the left side's, so only the right side is reflected (`IndexCodec.IndexIgnoresLeft`). A contract token's index keeps only the first four address bytes.

## Model

| member | source | states |
|---|---|---|
| `TokenSymbols.Code` | primitives/src/currency.rs:129-164 | every symbol's code is an assigned one, has the reserved bit (weight 64) clear, and has the ecosystem bit (weight 128) set exactly for the Kusama tokens KAR, KUSD, KSM, LKSM, SDN and KILT |
| `TokenSymbols.FromCode` | primitives/src/currency.rs:43-52 | decoding a byte succeeds exactly for the assigned codes 0-9, 11, 128-131, 135 and 138, and the symbol found has that code |
| `TokenSymbols.FromCodeOfCode` | primitives/src/currency.rs:43-52 | decoding a symbol's code gives that symbol back |
| `TokenSymbols.CodeInjective` | primitives/src/currency.rs:139-163 | no two symbols share a code |
| `TokenSymbols.AllSymbols` | primitives/src/currency.rs:137-164 | the declaration list has seventeen entries, each code larger than the one before |
| `TokenSymbols.AllSymbolsComplete` | primitives/src/currency.rs:137-164 | every symbol appears in the declaration list |
| `TokenSymbols.AllSymbolsSorted` | primitives/src/currency.rs:137-164 | codes increase strictly along the whole list, so no symbol is listed twice |
| `TokenSymbols.GetInfo` | primitives/src/currency.rs:94-100 | one entry per listed symbol, in declaration order, holding that symbol's identifier and declared decimals |
| `TokenSymbols.GetInfoComplete` | primitives/src/currency.rs:94-100 | every symbol's identifier and declared decimals appear in the listing |
| `TokenSymbols.IdentifierInjective` | primitives/src/currency.rs:139-163 | identifiers are upper-case ASCII and no two symbols share one |
| `TokenSymbols.NameIsNoIdentifier` | primitives/src/currency.rs:139-163 | no display name is spelled like any identifier |
| `Currency.ExactlyOneKind` | primitives/src/currency.rs:187-197 | exactly one of `is_token`, `is_dex_share` and `is_erc20` holds for every identifier |
| `Currency.DexShareToCurrencyId` | primitives/src/currency.rs:344-351 | a share side becomes a token or contract identifier (never a share), a token exactly when the side is one |
| `Currency.CurrencyIdToDexShare` | primitives/src/currency.rs:217-226 | an identifier becomes a share side exactly when it is not itself a share |
| `Currency.DexShareConversionsInverse` | primitives/src/currency.rs:344-351 | the two side conversions are mutually inverse |
| `Currency.SplitDexShare` | primitives/src/currency.rs:199-214 | splitting succeeds exactly for shares and yields two non-share identifiers |
| `Currency.JoinDexShare` | primitives/src/currency.rs:216-228 | joining succeeds exactly when neither argument is a share, and gives a share whose sides are the arguments, in order |
| `Currency.SplitJoin` | primitives/src/currency.rs:199-228 | splitting a join of two non-shares gives the pair back |
| `Currency.JoinSplit` | primitives/src/currency.rs:199-228 | joining the halves of a split share gives the share back |
| `Currency.Decimals` | primitives/src/currency.rs:64-90 | a token has its declared decimals; a contract token has none; a share has none exactly when a side is a contract token, otherwise the larger side's decimals |
| `Currency.DecimalsOfDexShare` | primitives/src/currency.rs:68-83 | a share's decimals are the maximum of its sides' and do not depend on the sides' order |
| `Currency.DecimalsExamples` | primitives/src/currency.rs:64-90 | ACA has 12, DOT has 10, an ACA/DOT share has 12, a share with a contract side has none |
| `Currency.IdentifierBytes` | primitives/src/currency.rs:58 | a symbol's identifier as bytes, one byte per character |
| `Currency.IdentifierBytesInjective` | primitives/src/currency.rs:58 | no two symbols have the same identifier bytes |
| `Currency.FindByIdentifier` | primitives/src/currency.rs:57-60 | finds a listed symbol spelled by the bytes, or shows that no listed symbol is |
| `Currency.ParseCurrencyId` | primitives/src/currency.rs:54-62 | a successful parse is the token whose identifier the bytes spell |
| `Currency.ParseCurrencyIdExactly` | primitives/src/currency.rs:54-62 | parsing gives `Token(t)` if and only if the bytes are `t`'s identifier; every other byte string is rejected |
| `Currency.ParseCurrencyIdRejectsNames` | primitives/src/currency.rs:54-62 | display names such as "Acala" are rejected |
| `Bytes.FromToBeBytes` | primitives/src/currency.rs:340 | reading big-endian bytes back gives the value written |
| `Bytes.ToFromBeBytes` | primitives/src/currency.rs:340 | writing a read value gives the bytes back |
| `Bytes.CopyFromSlice` | primitives/src/currency.rs:281 | the slice is overwritten with the source bytes, the rest of the buffer is unchanged |
| `IndexCodec.ToU32` | primitives/src/currency.rs:310-342 | the buffer-overwriting conversion equals the index function (token code, right side of a share, leading address bytes) |
| `IndexCodec.IndexOfToken` | primitives/src/currency.rs:314-316 | a token's index is its code, below 256, written as three zero bytes and the code |
| `IndexCodec.IndexIgnoresLeft` | primitives/src/currency.rs:317-334 | a share's index is its right side's index; the left side has no effect |
| `IndexCodec.IndexOfErc20` | primitives/src/currency.rs:335-338 | a contract token's index is its first four address bytes read big-endian; the rest is dropped |
| `IndexCodec.IndexCollisions` | primitives/src/currency.rs:310-342 | distinct identifiers can share an index (ACA/DOT share vs DOT; a contract address vs DOT) |
| `Codec32.ToBytes32` | primitives/src/currency.rs:276-308 | the zero-then-overwrite encoder produces exactly the 32-byte layout |
| `Codec32.Layout32OfToken` | primitives/src/currency.rs:280-282 | a token is all zero bytes except byte 27, which holds its code |
| `Codec32.Layout32OfDexShare` | primitives/src/currency.rs:283-301 | a share has zeros in bytes 0-22, 1 in byte 23, the left side's index big-endian in bytes 24-27 and the right side's in 28-31 |
| `Codec32.Layout32OfTokenShare` | primitives/src/currency.rs:283-301 | a share of two tokens is all zero bytes except byte 23 (the tag 1), byte 27 (left code) and byte 31 (right code) |
| `Codec32.Layout32OfErc20` | primitives/src/currency.rs:302-304 | a contract token has zeros in bytes 0-11 and its address in bytes 12-31 |
| `Codec32.Decode32` | primitives/src/currency.rs:233-272 | the decoder never yields a contract token nor a share with a contract side |
| `Codec32.Decode32OfLayout32` | primitives/src/currency.rs:233-308 | every token and every share of two tokens decodes back from its encoding |
| `Codec32.Layout32OfDecode32` | primitives/src/currency.rs:233-308 | whatever the decoder accepts is the encoding of the value it returns |
| `Codec32.Decode32Exactly` | primitives/src/currency.rs:233-308 | decoding gives `c` if and only if `c` is a token or a share of two tokens and the bytes are `c`'s encoding |
| `Codec32.Decode32Rejects` | primitives/src/currency.rs:238-270 | rejected: a nonzero byte in 0-22; byte 23 not 0 or 1; nonzero padding for either tag; an unassigned code in byte 27 or 31 |
| `Codec32.Erc20NoRoundTrip` | primitives/src/currency.rs:238-270 | a contract token never decodes back to itself, and is rejected when any of its first eleven address bytes is nonzero |
| `Codec32.Layout32Collision` | primitives/src/currency.rs:276-308 | the zero address and the token ACA have the same 32-byte encoding |
| `Codec32.DexShareWithErc20Misdecodes` | primitives/src/currency.rs:247-301 | a share whose contract side's address starts 0, 0, 0, 2 decodes as a share of the token DOT |

## Left out

- `generate_token_resources` (primitives/src/currency.rs:102-125): a test that writes a JSON file with `serde_json` and `std::fs`, which is file I/O and a serialisation library.
- The derived SCALE `Encode`/`Decode`, serde `Serialize`/`Deserialize`, `RuntimeDebug` and the derived orderings: this code is generated by libraries outside the file.
- The `create_currency_id!` macro itself. The model is its expansion over the fixed table.
- The per-symbol constants (`pub const ACA: CurrencyId = ...`, line 92). They are plain aliases for `CurrencyId.Token(ACA)` and so on.
- `EvmAddress` is defined outside this file (`crate::evm`). It is modelled as an opaque 20-byte sequence.
- `Currency.DexShareToCurrencyId`: the source repeats this match inline in `split_dex_share_currency_id`; the model writes it once and reuses it.
- `TokenSymbols.GetInfo`: the source returns each symbol's decimals as a `u32`; the model keeps them as the table's `Byte` value, which is the same number.
