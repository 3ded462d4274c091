/**
 * The asset identifier: a registered token, a liquidity-pool share between
 * two sides, or a token deployed as an EVM contract. Also the predicates that
 * tell the kinds apart, the composition and decomposition of pool shares,
 * the decimals resolver and the parser from symbol spellings.
 */
module Currency {
  import opened Wrappers
  import opened Bytes
  import opened TokenSymbols

  /** A 20-byte EVM contract address, treated as opaque bytes. */
  type EvmAddress = a: seq<Byte> | |a| == 20 witness Zeros(20)

  /** One side of a pool share: a registered token or an EVM contract token. */
  datatype DexShare = Token(symbol: TokenSymbol) | Erc20(address: EvmAddress)

  /**
   * The identifier of an asset. A pool share is an ordered pair: its sides
   * are neither sorted nor required to differ, and cannot be shares themselves.
   */
  datatype CurrencyId =
    | Token(symbol: TokenSymbol)
    | DexShare(left: DexShare, right: DexShare)
    | Erc20(address: EvmAddress)

  /** `is_token_currency_id`. */
  predicate IsTokenCurrencyId(c: CurrencyId)
  {
    match c
    case Token(_) => true
    case _ => false
  }

  /** `is_dex_share_currency_id`. */
  predicate IsDexShareCurrencyId(c: CurrencyId)
  {
    match c
    case DexShare(_, _) => true
    case _ => false
  }

  /** `is_erc20_currency_id`. */
  predicate IsErc20CurrencyId(c: CurrencyId)
  {
    match c
    case Erc20(_) => true
    case _ => false
  }

  /** Every identifier is of exactly one kind. */
  lemma ExactlyOneKind(c: CurrencyId)
    ensures IsTokenCurrencyId(c) || IsDexShareCurrencyId(c) || IsErc20CurrencyId(c)
    ensures !(IsTokenCurrencyId(c) && IsDexShareCurrencyId(c))
    ensures !(IsTokenCurrencyId(c) && IsErc20CurrencyId(c))
    ensures !(IsDexShareCurrencyId(c) && IsErc20CurrencyId(c))
  {
  }

  /** `Into<CurrencyId> for DexShare`: a side seen as an identifier of its own, never a share. */
  function DexShareToCurrencyId(d: DexShare): (r: CurrencyId)
    ensures !IsDexShareCurrencyId(r)
    ensures IsTokenCurrencyId(r) <==> d.Token?
  {
    match d
    case Token(t) => CurrencyId.Token(t)
    case Erc20(a) => CurrencyId.Erc20(a)
  }

  /**
   * The per-argument step of `join_dex_share_currency_id`: an identifier as a
   * side, which fails for a share.
   */
  function CurrencyIdToDexShare(c: CurrencyId): (r: Option<DexShare>)
    ensures r.Some? <==> !IsDexShareCurrencyId(c)
  {
    match c
    case Token(t) => Some(DexShare.Token(t))
    case Erc20(a) => Some(DexShare.Erc20(a))
    case DexShare(_, _) => None
  }

  /** Taking a side to an identifier and back gives the side; the other way round too. */
  lemma DexShareConversionsInverse(d: DexShare, c: CurrencyId)
    ensures CurrencyIdToDexShare(DexShareToCurrencyId(d)) == Some(d)
    ensures CurrencyIdToDexShare(c).Some? ==> DexShareToCurrencyId(CurrencyIdToDexShare(c).value) == c
  {
  }

  /**
   * `split_dex_share_currency_id`: the two sides of a share as identifiers,
   * and nothing for any other kind.
   */
  function SplitDexShare(c: CurrencyId): (r: Option<(CurrencyId, CurrencyId)>)
    ensures r.Some? <==> IsDexShareCurrencyId(c)
    ensures r.Some? ==> !IsDexShareCurrencyId(r.value.0) && !IsDexShareCurrencyId(r.value.1)
  {
    match c
    case DexShare(left, right) => Some((DexShareToCurrencyId(left), DexShareToCurrencyId(right)))
    case _ => None
  }

  /**
   * `join_dex_share_currency_id`: the share with sides `c0` and `c1`, in that
   * order, or nothing when either of them is itself a share.
   */
  function JoinDexShare(c0: CurrencyId, c1: CurrencyId): (r: Option<CurrencyId>)
    ensures r.Some? <==> !IsDexShareCurrencyId(c0) && !IsDexShareCurrencyId(c1)
    ensures r.Some? ==> (IsDexShareCurrencyId(r.value)
                         && DexShareToCurrencyId(r.value.left) == c0
                         && DexShareToCurrencyId(r.value.right) == c1)
  {
    match CurrencyIdToDexShare(c0)
    case None => None
    case Some(side0) =>
      match CurrencyIdToDexShare(c1)
      case None => None
      case Some(side1) => Some(CurrencyId.DexShare(side0, side1))
  }

  /** Splitting a joined pair gives the pair back. */
  lemma SplitJoin(c0: CurrencyId, c1: CurrencyId)
    requires !IsDexShareCurrencyId(c0) && !IsDexShareCurrencyId(c1)
    ensures JoinDexShare(c0, c1).Some?
    ensures SplitDexShare(JoinDexShare(c0, c1).value) == Some((c0, c1))
  {
  }

  /** Joining the two halves of a split share gives the share back. */
  lemma JoinSplit(c: CurrencyId)
    requires IsDexShareCurrencyId(c)
    ensures SplitDexShare(c).Some?
    ensures JoinDexShare(SplitDexShare(c).value.0, SplitDexShare(c).value.1) == Some(c)
  {
    DexShareConversionsInverse(c.left, c);
    DexShareConversionsInverse(c.right, c);
  }

  /** The larger of two byte values (`sp_std::cmp::max`). */
  function Max(a: Byte, b: Byte): Byte
  {
    if a < b then b else a
  }

  /** The decimals of a pool-share side, when the registry knows them. */
  function SideDecimals(d: DexShare): Option<Byte>
  {
    match d
    case Token(t) => Some(TokenSymbols.Decimals(t))
    case Erc20(_) => None
  }

  /**
   * `GetDecimals::decimals`. A token has its declared decimals; an EVM
   * contract token has none here (its metadata lives elsewhere); a share has
   * none when either side is a contract token and otherwise the larger of
   * its two sides' decimals.
   */
  function Decimals(c: CurrencyId): (r: Option<Byte>)
    decreases if c.DexShare? then 1 else 0
    ensures c.Token? ==> r == Some(TokenSymbols.Decimals(c.symbol))
    ensures c.Erc20? ==> r.None?
    ensures c.DexShare? ==> (r.None? <==> c.left.Erc20? || c.right.Erc20?)
    ensures c.DexShare? && r.Some? ==>
              (r.value >= TokenSymbols.Decimals(c.left.symbol) && r.value >= TokenSymbols.Decimals(c.right.symbol)
               && (r.value == TokenSymbols.Decimals(c.left.symbol) || r.value == TokenSymbols.Decimals(c.right.symbol)))
  {
    match c
    case Token(t) => Some(TokenSymbols.Decimals(t))
    case DexShare(side0, side1) =>
      var decimals0 := match side0
        case Token(t) => Decimals(CurrencyId.Token(t))
        case Erc20(_) => None;
      var decimals1 := match side1
        case Token(t) => Decimals(CurrencyId.Token(t))
        case Erc20(_) => None;
      if decimals0.None? || decimals1.None? then None
      else Some(Max(decimals0.value, decimals1.value))
    case Erc20(_) => None
  }

  /** The decimals of a share depend only on its sides, and are the same with the sides swapped. */
  lemma DecimalsOfDexShare(l: DexShare, r: DexShare)
    ensures Decimals(CurrencyId.DexShare(l, r)) == Decimals(CurrencyId.DexShare(r, l))
    ensures Decimals(CurrencyId.DexShare(l, r)) ==
      if SideDecimals(l).None? || SideDecimals(r).None? then None
      else Some(Max(SideDecimals(l).value, SideDecimals(r).value))
  {
  }

  /** A few values of the decimals table. */
  lemma DecimalsExamples(a: EvmAddress)
    ensures Decimals(CurrencyId.Token(ACA)) == Some(12)
    ensures Decimals(CurrencyId.Token(DOT)) == Some(10)
    ensures Decimals(CurrencyId.DexShare(DexShare.Token(ACA), DexShare.Token(DOT))) == Some(12)
    ensures Decimals(CurrencyId.DexShare(DexShare.Token(ACA), DexShare.Erc20(a))) == None
  {
  }

  /** The bytes of an ASCII string (`b"..."`): one byte per character, each below 0x80. */
  function AsciiBytes(s: string): (r: seq<Byte>)
    requires forall i :: 0 <= i < |s| ==> s[i] as int < 0x80
    ensures |r| == |s| && forall i :: 0 <= i < |s| ==> r[i] == s[i] as int
  {
    seq(|s|, i requires 0 <= i < |s| => s[i] as int)
  }

  /** Two strings with the same ASCII bytes are the same string. */
  lemma AsciiBytesInjective(s: string, t: string)
    requires forall i :: 0 <= i < |s| ==> s[i] as int < 0x80
    requires forall i :: 0 <= i < |t| ==> t[i] as int < 0x80
    ensures AsciiBytes(s) == AsciiBytes(t) ==> s == t
  {
    if AsciiBytes(s) == AsciiBytes(t) {
      assert forall i :: 0 <= i < |s| ==> s[i] as int == AsciiBytes(s)[i];
    }
  }

  /** `bstringify!($symbol)`: the bytes of a symbol's identifier. */
  function IdentifierBytes(t: TokenSymbol): (r: seq<Byte>)
    ensures |r| == |Identifier(t)|
  {
    IdentifierInjective(t, t);
    AsciiBytes(Identifier(t))
  }

  /** Distinct symbols have distinct identifier bytes. */
  lemma IdentifierBytesInjective(s: TokenSymbol, t: TokenSymbol)
    ensures IdentifierBytes(s) == IdentifierBytes(t) ==> s == t
  {
    IdentifierInjective(s, t);
    IdentifierInjective(t, s);
    AsciiBytesInjective(Identifier(s), Identifier(t));
  }

  /** The first symbol in `symbols` whose identifier bytes are `v`, if any. */
  function FindByIdentifier(v: seq<Byte>, symbols: seq<TokenSymbol>): (r: Option<TokenSymbol>)
    ensures r.Some? ==> r.value in symbols && IdentifierBytes(r.value) == v
    ensures r.None? ==> forall t :: t in symbols ==> IdentifierBytes(t) != v
  {
    if symbols == [] then None
    else if IdentifierBytes(symbols[0]) == v then Some(symbols[0])
    else FindByIdentifier(v, symbols[1..])
  }

  /**
   * `CurrencyId::try_from(Vec<u8>)`: the token whose identifier is spelled
   * by `v`; any other byte string is rejected.
   */
  function ParseCurrencyId(v: seq<Byte>): (r: Result<CurrencyId>)
    ensures r.Ok? ==> r.value.Token? && IdentifierBytes(r.value.symbol) == v
  {
    match FindByIdentifier(v, AllSymbols())
    case Some(t) => Ok(CurrencyId.Token(t))
    case None => Err
  }

  /** Parsing accepts exactly the identifier spellings, each naming its own symbol. */
  lemma ParseCurrencyIdExactly(v: seq<Byte>, t: TokenSymbol)
    ensures ParseCurrencyId(v) == Ok(CurrencyId.Token(t)) <==> v == IdentifierBytes(t)
  {
    AllSymbolsComplete(t);
    var r := ParseCurrencyId(v);
    if r.Ok? {
      IdentifierBytesInjective(r.value.symbol, t);
    }
  }

  /** A display name such as "Acala" is not a spelling the parser accepts. */
  lemma ParseCurrencyIdRejectsNames(t: TokenSymbol)
    ensures forall i :: 0 <= i < |Name(t)| ==> Name(t)[i] as int < 0x80
    ensures ParseCurrencyId(AsciiBytes(Name(t))).Err?
  {
    var r := ParseCurrencyId(AsciiBytes(Name(t)));
    if r.Ok? {
      var s := r.value.symbol;
      IdentifierInjective(s, s);
      AsciiBytesInjective(Identifier(s), Name(t));
      NameIsNoIdentifier(t, s);
    }
  }
}
