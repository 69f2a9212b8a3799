/**
 The alias table for token symbols: "USDC.E" (bridged USDC) stands for "USDC"; every
 other symbol is its own canonical form.
 */
module Token {
  import Text

  const BridgedUsdc: string := "USDC.E"
  const Usdc: string := "USDC"

  /** `token.NormalizeTokenSymbol`: an exact, case-sensitive match on the one alias. */
  function NormalizeTokenSymbol(symbol: string): (r: string)
    ensures r == Usdc <==> symbol == Usdc || symbol == BridgedUsdc
    ensures symbol != BridgedUsdc ==> r == symbol
  {
    if symbol == BridgedUsdc then Usdc else symbol
  }

  /** Normalizing a canonical symbol changes nothing. */
  lemma NormalizeIdempotent(symbol: string)
    ensures NormalizeTokenSymbol(NormalizeTokenSymbol(symbol)) == NormalizeTokenSymbol(symbol)
  {
  }

  /** Two symbols share a canonical form exactly when they are equal or both name USDC. */
  lemma NormalizeMerges(a: string, b: string)
    ensures NormalizeTokenSymbol(a) == NormalizeTokenSymbol(b) <==>
              a == b || (a in {Usdc, BridgedUsdc} && b in {Usdc, BridgedUsdc})
  {
  }

  /**
   The symbol table the unit test expects, checked against the code as written: the
   lower-case tickers come back unchanged, not upper-cased.
   */
  lemma LowerCaseIsNotUpperCased()
    ensures NormalizeTokenSymbol("USDC.E") == "USDC"
    ensures NormalizeTokenSymbol("SFL") == "SFL"
    ensures NormalizeTokenSymbol("matic") == "matic" != "MATIC"
    ensures NormalizeTokenSymbol("usdc") == "usdc" != "USDC"
  {
  }

  /**
   Canonical form with upper-casing, as the unit test expects and as the pipeline's
   caller obtains it by upper-casing first: the upper-cased symbol, with the alias
   resolved. The result is upper-case and canonical.
   */
  function CanonicalSymbol(symbol: string): (r: string)
    ensures Text.Upper(r) == r
    ensures NormalizeTokenSymbol(r) == r
    ensures r == Usdc <==> Text.Upper(symbol) in {Usdc, BridgedUsdc}
    ensures Text.Upper(symbol) != BridgedUsdc ==> r == Text.Upper(symbol)
  {
    Text.UpperIdempotent(symbol);
    NormalizeTokenSymbol(Text.Upper(symbol))
  }

  /** Canonicalizing twice is canonicalizing once. */
  lemma CanonicalIdempotent(symbol: string)
    ensures CanonicalSymbol(CanonicalSymbol(symbol)) == CanonicalSymbol(symbol)
  {
  }

  /** The unit test's table, which the corrected definition meets row by row. */
  lemma CanonicalMeetsTheTests()
    ensures CanonicalSymbol("USDC.E") == "USDC"
    ensures CanonicalSymbol("SFL") == "SFL"
    ensures CanonicalSymbol("matic") == "MATIC"
    ensures CanonicalSymbol("usdc") == "USDC"
    ensures CanonicalSymbol("usdc.e") == "USDC"
  {
    assert Text.Upper("USDC.E") == "USDC.E";
    assert Text.Upper("SFL") == "SFL";
    assert Text.Upper("matic") == "MATIC";
    assert Text.Upper("usdc") == "USDC";
    assert Text.Upper("usdc.e") == "USDC.E";
  }
}
