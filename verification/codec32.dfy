/**
 * The 32-byte, address-shaped form of an identifier
 * (`From<CurrencyId> for [u8; 32]` and `TryFrom<[u8; 32]> for CurrencyId`).
 * Pre-deployed EVM contracts read identifiers in this layout, so it is a
 * fixed binary format:
 *
 *   token       bytes 0..24 zero, bytes 24..28 the big-endian index (code in byte 27), 28..32 zero
 *   pool share  bytes 0..23 zero, byte 23 = 1, bytes 24..28 left side's index, 28..32 right side's
 *   contract    bytes 0..12 zero, bytes 12..32 the 20-byte address
 *
 * Encoding is total. Decoding accepts only tokens and shares of two tokens.
 */
module Codec32 {
  import opened Wrappers
  import opened Bytes
  import opened TokenSymbols
  import opened Currency
  import opened IndexCodec

  /** Rust's `[u8; 32]`. */
  type Bytes32 = s: seq<Byte> | |s| == 32 witness Zeros(32)

  /** The 32 bytes an identifier is encoded to. */
  function Layout32(c: CurrencyId): Bytes32
  {
    match c
    case Token(_) => Zeros(24) + ToBeBytes(Index(c)) + Zeros(4)
    case DexShare(left, right) =>
      Zeros(23) + [1] + ToBeBytes(Index(DexShareToCurrencyId(left)))
        + ToBeBytes(Index(DexShareToCurrencyId(right)))
    case Erc20(a) => Zeros(12) + a
  }

  /**
   * The encoder as the source performs it: start from 32 zero bytes, set
   * the share tag, and copy the big-endian indices or the address into place.
   */
  method ToBytes32(c: CurrencyId) returns (r: Bytes32)
    ensures r == Layout32(c)
  {
    var bytes := new Byte[32](_ => 0);
    assert bytes[..] == Zeros(32);
    match c {
      case Token(_) =>
        var x := ToU32(c);
        CopyFromSlice(bytes, 24, ToBeBytes(x));
        assert bytes[..] == Zeros(24) + ToBeBytes(x) + Zeros(4);
      case DexShare(left, right) =>
        bytes[23] := 1;
        assert bytes[..] == Zeros(23) + [1] + Zeros(8);
        var x: U32;
        match left {
          case Token(t) => x := ToU32(CurrencyId.Token(t));
          case Erc20(a) => x := ToU32(CurrencyId.Erc20(a));
        }
        CopyFromSlice(bytes, 24, ToBeBytes(x));
        assert bytes[..] == Zeros(23) + [1] + ToBeBytes(x) + Zeros(4);
        var y: U32;
        match right {
          case Token(t) => y := ToU32(CurrencyId.Token(t));
          case Erc20(a) => y := ToU32(CurrencyId.Erc20(a));
        }
        CopyFromSlice(bytes, 28, ToBeBytes(y));
        assert bytes[..] == Zeros(23) + [1] + ToBeBytes(x) + ToBeBytes(y);
      case Erc20(a) =>
        CopyFromSlice(bytes, 12, a);
        assert bytes[..] == Zeros(12) + a;
    }
    r := bytes[..];
  }

  /** A token is encoded as all zeros except byte 27, which holds its code. */
  lemma Layout32OfToken(t: TokenSymbol, i: nat)
    requires i < 32
    ensures Layout32(CurrencyId.Token(t))[i] == if i == 27 then Code(t) else 0
  {
    IndexOfToken(t);
  }

  /**
   * A share is encoded as 23 zero bytes, the tag 1 in byte 23, and the
   * big-endian indices of its left and right sides in bytes 24..28 and 28..32.
   */
  lemma Layout32OfDexShare(left: DexShare, right: DexShare)
    ensures AllZero(Layout32(CurrencyId.DexShare(left, right))[..23])
    ensures Layout32(CurrencyId.DexShare(left, right))[23] == 1
    ensures FromBeBytes(Layout32(CurrencyId.DexShare(left, right))[24..28]) == Index(DexShareToCurrencyId(left))
    ensures FromBeBytes(Layout32(CurrencyId.DexShare(left, right))[28..32]) == Index(DexShareToCurrencyId(right))
  {
    var v := Layout32(CurrencyId.DexShare(left, right));
    FromToBeBytes(Index(DexShareToCurrencyId(left)));
    FromToBeBytes(Index(DexShareToCurrencyId(right)));
    assert v[24..28] == ToBeBytes(Index(DexShareToCurrencyId(left)));
    assert v[28..32] == ToBeBytes(Index(DexShareToCurrencyId(right)));
  }

  /** A contract token is encoded as 12 zero bytes followed by its address. */
  lemma Layout32OfErc20(a: EvmAddress)
    ensures AllZero(Layout32(CurrencyId.Erc20(a))[..12])
    ensures Layout32(CurrencyId.Erc20(a))[12..] == a
  {
    assert Layout32(CurrencyId.Erc20(a))[..12] == Zeros(12);
  }

  /**
   * `CurrencyId::try_from([u8; 32])`. The first 23 bytes must be zero; byte
   * 23 then selects a token (0, with bytes 24..27 and 28..32 zero and a code
   * in byte 27) or a share of two tokens (1, with bytes 24..27 and 28..31
   * zero and codes in bytes 27 and 31). There is no contract-token branch.
   */
  function Decode32(v: Bytes32): (r: Result<CurrencyId>)
    ensures r.Ok? ==> !r.value.Erc20?
    ensures r.Ok? && r.value.DexShare? ==> r.value.left.Token? && r.value.right.Token?
  {
    if !AllZero(v[..23]) then Err
    else if v[23] == 0 && AllZero(v[24..27]) && AllZero(v[28..32]) then
      match FromCode(v[27])
      case Some(t) => Ok(CurrencyId.Token(t))
      case None => Err
    else if v[23] == 1 then
      if !AllZero(v[24..27]) then Err
      else
        match FromCode(v[27])
        case None => Err
        case Some(left) =>
          if !AllZero(v[28..31]) then Err
          else
            match FromCode(v[31])
            case None => Err
            case Some(right) => Ok(CurrencyId.DexShare(DexShare.Token(left), DexShare.Token(right)))
    else Err
  }

  /** The identifiers the 32-byte decoder can give back: tokens and shares of two tokens. */
  predicate TokenSided(c: CurrencyId)
  {
    match c
    case Token(_) => true
    case DexShare(left, right) => left.Token? && right.Token?
    case Erc20(_) => false
  }

  /**
   * A share of two tokens is all zero bytes except byte 23, which holds the
   * tag 1, and bytes 27 and 31, which hold the codes of its sides.
   */
  lemma Layout32OfTokenShare(left: TokenSymbol, right: TokenSymbol, i: nat)
    requires i < 32
    ensures Layout32(CurrencyId.DexShare(DexShare.Token(left), DexShare.Token(right)))[i]
         == if i == 23 then 1 else if i == 27 then Code(left) else if i == 31 then Code(right) else 0
  {
    IndexOfToken(left);
    IndexOfToken(right);
  }

  /** Every token, and every share of two tokens, survives encoding and decoding. */
  lemma Decode32OfLayout32(c: CurrencyId)
    requires TokenSided(c)
    ensures Decode32(Layout32(c)) == Ok(c)
  {
    var v := Layout32(c);
    match c
    case Token(t) =>
      forall i | 0 <= i < 32 ensures v[i] == if i == 27 then Code(t) else 0 {
        Layout32OfToken(t, i);
      }
      assert AllZero(v[..23]);
      assert AllZero(v[24..27]);
      assert AllZero(v[28..32]);
      FromCodeOfCode(t);
    case DexShare(left, right) =>
      forall i | 0 <= i < 32
        ensures v[i] == if i == 23 then 1 else if i == 27 then Code(left.symbol)
                        else if i == 31 then Code(right.symbol) else 0
      {
        Layout32OfTokenShare(left.symbol, right.symbol, i);
      }
      assert AllZero(v[..23]);
      assert AllZero(v[24..27]);
      assert AllZero(v[28..31]);
      FromCodeOfCode(left.symbol);
      FromCodeOfCode(right.symbol);
  }

  /** Whatever the decoder accepts is the encoding of the value it returns. */
  lemma Layout32OfDecode32(v: Bytes32)
    requires Decode32(v).Ok?
    ensures Layout32(Decode32(v).value) == v
  {
    assert AllZero(v[..23]);
    if v[23] == 0 && AllZero(v[24..27]) && AllZero(v[28..32]) {
      var t := FromCode(v[27]).value;
      forall i | 0 <= i < 32 ensures Layout32(CurrencyId.Token(t))[i] == v[i] {
        Layout32OfToken(t, i);
        if i < 23 {
          assert v[..23][i] == 0;
        } else if 24 <= i < 27 {
          assert v[24..27][i - 24] == 0;
        } else if 28 <= i {
          assert v[28..32][i - 28] == 0;
        }
      }
    } else {
      assert v[23] == 1 && AllZero(v[24..27]) && AllZero(v[28..31]);
      var left := FromCode(v[27]).value;
      var right := FromCode(v[31]).value;
      forall i | 0 <= i < 32
        ensures Layout32(CurrencyId.DexShare(DexShare.Token(left), DexShare.Token(right)))[i] == v[i]
      {
        Layout32OfTokenShare(left, right, i);
        if i < 23 {
          assert v[..23][i] == 0;
        } else if 24 <= i < 27 {
          assert v[24..27][i - 24] == 0;
        } else if 28 <= i < 31 {
          assert v[28..31][i - 28] == 0;
        }
      }
    }
  }

  /**
   * The decoder is exactly the inverse of the encoder on tokens and shares
   * of two tokens, and accepts nothing else.
   */
  lemma Decode32Exactly(v: Bytes32, c: CurrencyId)
    ensures Decode32(v) == Ok(c) <==> TokenSided(c) && Layout32(c) == v
  {
    if Decode32(v) == Ok(c) {
      Layout32OfDecode32(v);
    }
    if TokenSided(c) && Layout32(c) == v {
      Decode32OfLayout32(c);
    }
  }

  /** The byte patterns the decoder rejects. */
  lemma Decode32Rejects(v: Bytes32)
    ensures !AllZero(v[..23]) ==> Decode32(v).Err?
    ensures v[23] != 0 && v[23] != 1 ==> Decode32(v).Err?
    ensures v[23] == 0 && !(AllZero(v[24..27]) && AllZero(v[28..32])) ==> Decode32(v).Err?
    ensures v[23] == 1 && !(AllZero(v[24..27]) && AllZero(v[28..31])) ==> Decode32(v).Err?
    ensures v[23] == 0 && v[27] !in AssignedCodes() ==> Decode32(v).Err?
    ensures v[23] == 1 && (v[27] !in AssignedCodes() || v[31] !in AssignedCodes()) ==> Decode32(v).Err?
  {
  }

  /**
   * A contract token never survives the round trip: the decoder gives an
   * error, or some other identifier with the same encoding. It gives an
   * error whenever one of the address's first eleven bytes is nonzero.
   */
  lemma Erc20NoRoundTrip(a: EvmAddress, i: nat)
    ensures Decode32(Layout32(CurrencyId.Erc20(a))) != Ok(CurrencyId.Erc20(a))
    ensures i < 11 && a[i] != 0 ==> Decode32(Layout32(CurrencyId.Erc20(a))).Err?
  {
    var v := Layout32(CurrencyId.Erc20(a));
    if i < 11 && a[i] != 0 {
      assert v[12 + i] == a[i];
      assert !AllZero(v[..23]) by { assert v[..23][12 + i] != 0; }
    }
  }

  /** The encoder is not injective: the zero address encodes like the token ACA. */
  lemma Layout32Collision()
    ensures Layout32(CurrencyId.Erc20(Zeros(20))) == Layout32(CurrencyId.Token(ACA))
  {
    IndexOfToken(ACA);
  }

  /**
   * A share with a contract-token side does not survive the round trip: a
   * contract side whose address starts 0, 0, 0, 2 comes back as the token DOT.
   */
  lemma DexShareWithErc20Misdecodes()
    ensures Decode32(Layout32(CurrencyId.DexShare(DexShare.Erc20([0, 0, 0, 2] + Zeros(16)), DexShare.Token(ACA))))
         == Ok(CurrencyId.DexShare(DexShare.Token(DOT), DexShare.Token(ACA)))
  {
    var a: EvmAddress := [0, 0, 0, 2] + Zeros(16);
    var mixed := CurrencyId.DexShare(DexShare.Erc20(a), DexShare.Token(ACA));
    var tokens := CurrencyId.DexShare(DexShare.Token(DOT), DexShare.Token(ACA));
    IndexOfToken(DOT);
    assert Index(CurrencyId.Erc20(a)) == 2;
    assert Layout32(mixed) == Layout32(tokens);
    Decode32OfLayout32(tokens);
  }
}
