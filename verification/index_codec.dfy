/**
 * `From<CurrencyId> for u32`: the compact four-byte index of an identifier.
 * It is lossy by construction: a pool share keeps only its right side, and a
 * contract token keeps only the first four bytes of its address.
 */
module IndexCodec {
  import opened Bytes
  import opened TokenSymbols
  import opened Currency

  /**
   * The index an identifier gets: a token's code; the first four bytes of a
   * contract address read big-endian; for a share, the index of its right
   * side alone, because the right side's bytes are written over the left's.
   */
  function Index(c: CurrencyId): (r: U32)
    decreases if c.DexShare? then 1 else 0
  {
    match c
    case Token(t) => Code(t)
    case DexShare(_, right) => Index(DexShareToCurrencyId(right))
    case Erc20(a) => FromBeBytes(a[..4])
  }

  /**
   * The conversion as the source performs it: start from four zero bytes,
   * write the token code into the last one, or copy a four-byte big-endian
   * value over all of them (for a share, the left side's and then the
   * right side's), and read the buffer back big-endian.
   */
  method ToU32(c: CurrencyId) returns (r: U32)
    decreases if c.DexShare? then 1 else 0
    ensures r == Index(c)
  {
    var bytes := new Byte[4](_ => 0);
    match c {
      case Token(t) =>
        bytes[3] := Code(t);
        ToBeBytesOfSmall(Code(t));
      case DexShare(left, right) =>
        match left {
          case Token(t) =>
            var x := ToU32(CurrencyId.Token(t));
            CopyFromSlice(bytes, 0, ToBeBytes(x));
          case Erc20(a) =>
            var x := ToU32(CurrencyId.Erc20(a));
            CopyFromSlice(bytes, 0, ToBeBytes(x));
        }
        var y: U32;
        match right {
          case Token(t) =>
            y := ToU32(CurrencyId.Token(t));
            CopyFromSlice(bytes, 0, ToBeBytes(y));
          case Erc20(a) =>
            y := ToU32(CurrencyId.Erc20(a));
            CopyFromSlice(bytes, 0, ToBeBytes(y));
        }
        assert bytes[..] == ToBeBytes(y);
        FromToBeBytes(y);
      case Erc20(a) =>
        CopyFromSlice(bytes, 0, a[..4]);
    }
    r := FromBeBytes(bytes[..]);
  }

  /** A token's index is its code, which is below 256: only the low byte is used. */
  lemma IndexOfToken(t: TokenSymbol)
    ensures Index(CurrencyId.Token(t)) == Code(t) < 0x100
    ensures ToBeBytes(Index(CurrencyId.Token(t))) == [0, 0, 0, Code(t)]
  {
    ToBeBytesOfSmall(Code(t));
  }

  /** A share's index is that of its right side alone: the left side has no effect. */
  lemma IndexIgnoresLeft(l0: DexShare, l1: DexShare, right: DexShare)
    ensures Index(CurrencyId.DexShare(l0, right)) == Index(CurrencyId.DexShare(l1, right))
    ensures Index(CurrencyId.DexShare(l0, right)) == Index(DexShareToCurrencyId(right))
  {
  }

  /** A contract token's index spells the first four bytes of its address, the other sixteen are dropped. */
  lemma IndexOfErc20(a: EvmAddress, b: EvmAddress)
    ensures ToBeBytes(Index(CurrencyId.Erc20(a))) == a[..4]
    ensures a[..4] == b[..4] ==> Index(CurrencyId.Erc20(a)) == Index(CurrencyId.Erc20(b))
  {
    ToFromBeBytes(a[..4]);
  }

  /** Distinct identifiers can share an index: the index is not reversible. */
  lemma IndexCollisions()
    ensures Index(CurrencyId.DexShare(DexShare.Token(ACA), DexShare.Token(DOT))) == Index(CurrencyId.Token(DOT))
    ensures Index(CurrencyId.Erc20([0, 0, 0, 2] + Zeros(16))) == Index(CurrencyId.Token(DOT))
  {
  }
}
