/**
 Small helpers the pipeline's entry point uses: the set of currency symbols a batch of
 transactions mentions, the inversion of a string map, and the cut of a symbol at its
 first '.'. The entry point carries private copies of the first two, identical line for
 line; they are modelled once, here.
 */
module Utils {
  import opened Models
  import opened Collections
  import Text

  /** The currency symbols the first `n` transactions mention. */
  ghost function SymbolsOf(transactions: seq<Transaction>, n: int): set<string>
    requires 0 <= n <= |transactions|
  {
    set i | 0 <= i < n :: transactions[i].props.currencySymbol
  }

  /**
   `ExtractUniqueTokens`: every symbol some transaction carries, each exactly once, in
   the order the runtime walks the set.
   */
  method ExtractUniqueTokens(transactions: seq<Transaction>) returns (tokens: seq<string>)
    ensures Distinct(tokens)
    ensures forall s :: s in tokens <==> exists t :: t in transactions && t.props.currencySymbol == s
    ensures |tokens| <= |transactions|
  {
    var tokenSet: set<string> := {};
    for i := 0 to |transactions|
      invariant tokenSet == SymbolsOf(transactions, i)
    {
      tokenSet := tokenSet + {transactions[i].props.currencySymbol};
      assert SymbolsOf(transactions, i + 1) == SymbolsOf(transactions, i) + {transactions[i].props.currencySymbol};
    }
    tokens := Enumerate(tokenSet);
    forall s ensures s in tokens <==> exists t :: t in transactions && t.props.currencySymbol == s {
      if s in tokens {
        var i :| 0 <= i < |transactions| && transactions[i].props.currencySymbol == s;
        assert transactions[i] in transactions;
      }
      if t :| t in transactions && t.props.currencySymbol == s {
        var i :| 0 <= i < |transactions| && transactions[i] == t;
        assert s in SymbolsOf(transactions, |transactions|);
      }
    }
    SymbolsBound(transactions, |transactions|);
  }

  /** A prefix of n transactions mentions at most n symbols. */
  lemma {:induction false} SymbolsBound(transactions: seq<Transaction>, n: int)
    requires 0 <= n <= |transactions|
    ensures |SymbolsOf(transactions, n)| <= n
  {
    if n > 0 {
      SymbolsBound(transactions, n - 1);
      assert SymbolsOf(transactions, n) == SymbolsOf(transactions, n - 1) + {transactions[n - 1].props.currencySymbol};
    }
  }

  /** `inv` inverts `m`: its keys are m's values, and each maps back to a key holding it. */
  ghost predicate Inverts(m: map<string, string>, inv: map<string, string>)
  {
    && inv.Keys == m.Values
    && forall v :: v in inv ==> inv[v] in m && m[inv[v]] == v
  }

  ghost predicate Injective(m: map<string, string>)
  {
    forall k1, k2 :: k1 in m && k2 in m && m[k1] == m[k2] ==> k1 == k2
  }

  /**
   `InvertMap`: each value becomes a key mapping to a key that held it. When two keys
   share a value, the one the (unspecified) iteration order visits last wins.
   */
  method InvertMap(m: map<string, string>) returns (inverted: map<string, string>)
    ensures Inverts(m, inverted)
    ensures Injective(m) ==> forall k :: k in m ==> m[k] in inverted && inverted[m[k]] == k
  {
    var keys := Enumerate(m.Keys);
    inverted := map[];
    for i := 0 to |keys|
      invariant inverted.Keys == set j | 0 <= j < i :: m[keys[j]]
      invariant forall v :: v in inverted ==> inverted[v] in m && m[inverted[v]] == v
    {
      inverted := inverted[m[keys[i]] := keys[i]];
    }
    assert (set j | 0 <= j < |keys| :: m[keys[j]]) == m.Values by {
      forall v | v in m.Values ensures v in set j | 0 <= j < |keys| :: m[keys[j]] {
        var k :| k in m && m[k] == v;
        var j :| 0 <= j < |keys| && keys[j] == k;
      }
    }
  }

  /** For a one-to-one map, inverting twice gives the map back. */
  lemma InvertTwice(m: map<string, string>, inv: map<string, string>, back: map<string, string>)
    requires Injective(m) && Inverts(m, inv) && Inverts(inv, back)
    ensures back == m
  {
    assert back.Keys == m.Keys by {
      forall k | k in m ensures k in inv.Values {
        assert inv[m[k]] == k;
      }
    }
    forall k | k in m ensures back[k] == m[k] {
      assert inv[back[k]] == k;
      assert inv[m[k]] == k;
    }
  }

  /** `NormalizeTokenSymbol` of the utilities: everything before the first '.'. */
  function NormalizeTokenSymbol(symbol: string): (r: string)
    ensures r <= symbol && '.' !in r
    ensures r == symbol <==> '.' !in symbol
    ensures |r| < |symbol| ==> symbol[|r|] == '.'
  {
    Text.BeforeFirst(symbol, '.')
  }

  /** Cutting at '.' twice cuts once. */
  lemma NormalizeIdempotent(symbol: string)
    ensures NormalizeTokenSymbol(NormalizeTokenSymbol(symbol)) == NormalizeTokenSymbol(symbol)
  {
  }

  /** A symbol with a '.' keeps exactly what comes before its first '.'; whatever follows is dropped. */
  lemma NormalizeCuts(head: string, tail: string)
    requires '.' !in head
    ensures NormalizeTokenSymbol(head + "." + tail) == head
  {
    var s := head + "." + tail;
    assert head <= s && s[|head|] == '.';
    Text.BeforeFirstUnique(s, '.', head);
  }

  /** The bridged USDC ticker, in either case: the cut keeps the case it was given. */
  lemma NormalizeBridgedUsdc()
    ensures NormalizeTokenSymbol("USDC.E") == "USDC"
    ensures NormalizeTokenSymbol("usdc.e") == "usdc"
  {
    NormalizeCuts("USDC", "E");
    assert "USDC" + "." + "E" == "USDC.E";
    NormalizeCuts("usdc", "e");
    assert "usdc" + "." + "e" == "usdc.e";
  }

  /** Unlike the alias table, the cut drops any suffix, however many dots it holds. */
  lemma NormalizeDropsAnySuffix()
    ensures NormalizeTokenSymbol("WETH.X.Y") == "WETH"
  {
    NormalizeCuts("WETH", "X.Y");
    assert "WETH" + "." + "X.Y" == "WETH.X.Y";
  }

  /** A symbol without a dot is kept; one starting with a dot is cut to nothing. */
  lemma NormalizeEdgeCases()
    ensures NormalizeTokenSymbol("SFL") == "SFL"
    ensures NormalizeTokenSymbol(".E") == ""
  {
    NormalizeCuts("", "E");
    assert "" + "." + "E" == ".E";
  }
}
