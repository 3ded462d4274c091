/**
 * The closed registry of built-in tokens. Each symbol carries a one-byte
 * code (its wire form and sort key), a display name and a number of
 * decimal places. This is the expansion of the `create_currency_id!` table
 * over its seventeen entries.
 */
module TokenSymbols {
  import opened Wrappers
  import opened Bytes

  /** The symbols, in declaration order. */
  datatype TokenSymbol =
    // Polkadot ecosystem (high bit of the code clear)
    | ACA | AUSD | DOT | LDOT | XBTC | RENBTC | POLKABTC | PLM | PHA | HDT | BCG
    // Kusama ecosystem (high bit of the code set)
    | KAR | KUSD | KSM | LKSM | SDN | KILT

  /** The codes that name a symbol; every other byte, reserved ones included, names none. */
  function AssignedCodes(): set<Byte>
  {
    {0, 1, 2, 3, 4, 5, 6, 7, 8, 9, 11, 128, 129, 130, 131, 135, 138}
  }

  /**
   * `token as u8`. The code is an assigned one, the bit of weight 64 is
   * reserved (clear) in every code, and the bit of weight 128 selects the
   * ecosystem: clear for Polkadot tokens, set for Kusama tokens.
   */
  function Code(t: TokenSymbol): (r: Byte)
    ensures r in AssignedCodes()
    ensures (r / 64) % 2 == 0
    ensures r >= 128 <==> t in {KAR, KUSD, KSM, LKSM, SDN, KILT}
  {
    match t
    case ACA => 0
    case AUSD => 1
    case DOT => 2
    case LDOT => 3
    case XBTC => 4
    case RENBTC => 5
    case POLKABTC => 6
    case PLM => 7
    case PHA => 8
    case HDT => 9
    case BCG => 11
    case KAR => 128
    case KUSD => 129
    case KSM => 130
    case LKSM => 131
    case SDN => 135
    case KILT => 138
  }

  /** The declared number of decimal places. */
  function Decimals(t: TokenSymbol): Byte
  {
    match t
    case ACA => 12
    case AUSD => 12
    case DOT => 10
    case LDOT => 10
    case XBTC => 8
    case RENBTC => 8
    case POLKABTC => 8
    case PLM => 18
    case PHA => 12
    case HDT => 12
    case BCG => 18
    case KAR => 12
    case KUSD => 12
    case KSM => 12
    case LKSM => 12
    case SDN => 18
    case KILT => 15
  }

  /** The human-readable display name. */
  function Name(t: TokenSymbol): string
  {
    match t
    case ACA => "Acala"
    case AUSD => "Acala Dollar"
    case DOT => "Polkadot"
    case LDOT => "Liquid DOT"
    case XBTC => "ChainX BTC"
    case RENBTC => "Ren Protocol BTC"
    case POLKABTC => "PolkaBTC"
    case PLM => "Plasm"
    case PHA => "Phala"
    case HDT => "HydraDX"
    case BCG => "Bit.Country"
    case KAR => "Karura"
    case KUSD => "Karura Dollar"
    case KSM => "Kusama"
    case LKSM => "Liquid KSM"
    case SDN => "Shiden"
    case KILT => "Kilt"
  }

  /** The spelling of the symbol's identifier (`stringify!($symbol)`). */
  function Identifier(t: TokenSymbol): string
  {
    match t
    case ACA => "ACA"
    case AUSD => "AUSD"
    case DOT => "DOT"
    case LDOT => "LDOT"
    case XBTC => "XBTC"
    case RENBTC => "RENBTC"
    case POLKABTC => "POLKABTC"
    case PLM => "PLM"
    case PHA => "PHA"
    case HDT => "HDT"
    case BCG => "BCG"
    case KAR => "KAR"
    case KUSD => "KUSD"
    case KSM => "KSM"
    case LKSM => "LKSM"
    case SDN => "SDN"
    case KILT => "KILT"
  }

  /** `TokenSymbol::try_from(v: u8)`: the symbol whose code is `v`, if any. */
  function FromCode(v: Byte): (r: Option<TokenSymbol>)
    ensures r.Some? <==> v in AssignedCodes()
    ensures r.Some? ==> Code(r.value) == v
  {
    match v
    case 0 => Some(ACA)
    case 1 => Some(AUSD)
    case 2 => Some(DOT)
    case 3 => Some(LDOT)
    case 4 => Some(XBTC)
    case 5 => Some(RENBTC)
    case 6 => Some(POLKABTC)
    case 7 => Some(PLM)
    case 8 => Some(PHA)
    case 9 => Some(HDT)
    case 11 => Some(BCG)
    case 128 => Some(KAR)
    case 129 => Some(KUSD)
    case 130 => Some(KSM)
    case 131 => Some(LKSM)
    case 135 => Some(SDN)
    case 138 => Some(KILT)
    case _ => None
  }

  /** Decoding a symbol's code gives the symbol back. */
  lemma FromCodeOfCode(t: TokenSymbol)
    ensures FromCode(Code(t)) == Some(t)
  {
  }

  /** Distinct symbols have distinct codes. */
  lemma CodeInjective(s: TokenSymbol, t: TokenSymbol)
    ensures Code(s) == Code(t) ==> s == t
  {
    if Code(s) == Code(t) {
      FromCodeOfCode(s);
      FromCodeOfCode(t);
    }
  }

  /**
   * Every symbol in declaration order: all of them, each code larger than
   * the one before it.
   */
  function AllSymbols(): (r: seq<TokenSymbol>)
    ensures |r| == 17
    ensures forall i :: 0 < i < |r| ==> Code(r[i - 1]) < Code(r[i])
  {
    [ACA, AUSD, DOT, LDOT, XBTC, RENBTC, POLKABTC, PLM, PHA, HDT, BCG,
     KAR, KUSD, KSM, LKSM, SDN, KILT]
  }

  /** The declaration list is complete: every symbol is in it. */
  lemma AllSymbolsComplete(t: TokenSymbol)
    ensures t in AllSymbols()
  {
    match t
    case ACA => assert AllSymbols()[0] == t;
    case AUSD => assert AllSymbols()[1] == t;
    case DOT => assert AllSymbols()[2] == t;
    case LDOT => assert AllSymbols()[3] == t;
    case XBTC => assert AllSymbols()[4] == t;
    case RENBTC => assert AllSymbols()[5] == t;
    case POLKABTC => assert AllSymbols()[6] == t;
    case PLM => assert AllSymbols()[7] == t;
    case PHA => assert AllSymbols()[8] == t;
    case HDT => assert AllSymbols()[9] == t;
    case BCG => assert AllSymbols()[10] == t;
    case KAR => assert AllSymbols()[11] == t;
    case KUSD => assert AllSymbols()[12] == t;
    case KSM => assert AllSymbols()[13] == t;
    case LKSM => assert AllSymbols()[14] == t;
    case SDN => assert AllSymbols()[15] == t;
    case KILT => assert AllSymbols()[16] == t;
  }

  /** A sequence whose codes increase step by step increases overall. */
  lemma {:induction false} CodesIncreasing(s: seq<TokenSymbol>, i: nat, j: nat)
    requires forall k :: 0 < k < |s| ==> Code(s[k - 1]) < Code(s[k])
    requires i < j < |s|
    ensures Code(s[i]) < Code(s[j])
  {
    if i < j - 1 {
      CodesIncreasing(s, i, j - 1);
    }
  }

  /** The declaration list is sorted by code, so it holds each symbol exactly once. */
  lemma AllSymbolsSorted(i: nat, j: nat)
    requires i < j < |AllSymbols()|
    ensures Code(AllSymbols()[i]) < Code(AllSymbols()[j])
    ensures AllSymbols()[i] != AllSymbols()[j]
  {
    CodesIncreasing(AllSymbols(), i, j);
  }

  /** `TokenSymbol::get_info()`: `(identifier, decimals)` for every symbol, in declaration order. */
  function GetInfo(): (r: seq<(string, Byte)>)
    ensures |r| == |AllSymbols()|
    ensures forall i :: 0 <= i < |r| ==>
              r[i].0 == Identifier(AllSymbols()[i]) && r[i].1 == Decimals(AllSymbols()[i])
  {
    seq(|AllSymbols()|, i requires 0 <= i < |AllSymbols()| =>
      (Identifier(AllSymbols()[i]), Decimals(AllSymbols()[i])))
  }

  /** Every symbol is listed by `GetInfo` with its declared decimals. */
  lemma GetInfoComplete(t: TokenSymbol)
    ensures (Identifier(t), Decimals(t)) in GetInfo()
  {
    AllSymbolsComplete(t);
    var i :| 0 <= i < |AllSymbols()| && AllSymbols()[i] == t;
    assert GetInfo()[i] == (Identifier(t), Decimals(t));
  }

  /** Identifiers are spelled in upper-case ASCII letters only. */
  predicate IsUpperAscii(s: string)
  {
    forall i :: 0 <= i < |s| ==> 'A' <= s[i] <= 'Z'
  }

  /** Distinct symbols have distinct identifiers, each spelled in upper case. */
  lemma IdentifierInjective(s: TokenSymbol, t: TokenSymbol)
    ensures IsUpperAscii(Identifier(t))
    ensures Identifier(s) == Identifier(t) ==> s == t
  {
  }

  /** No display name is spelled like an identifier: its second letter is lower case. */
  lemma NameIsNoIdentifier(s: TokenSymbol, t: TokenSymbol)
    ensures Name(s) != Identifier(t)
  {
    assert 'a' <= Name(s)[1] <= 'z';
    IdentifierInjective(t, t);
  }
}
