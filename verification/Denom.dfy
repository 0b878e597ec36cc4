/** ERC20 tokens as peggy coins: the denom printer and its parser. */
module Denom {
  import opened Hex

  const PREFIX := "inj"
  const SEPARATOR := '/'
  const DENOM_LEN: nat := 46

  datatype Token = Token(contract: Address, amount: int)

  datatype Coin = Coin(denom: string, amount: int)

  datatype Error = FewerSeparators | MoreSeparators | WrongPrefix | BadAddress | WrongLength

  datatype Result<T> = Ok(value: T) | Err(error: Error)

  datatype Printed = Printed(coin: Coin) | Panic

  const MAX_AMOUNT: int := 0x1_0000000000000000_0000000000000000_0000000000000000_0000000000000000

  /** Printing panics on an amount that a coin cannot hold. */
  function PeggyCoin(t: Token, casing: Casing): Printed {
    if 0 <= t.amount < MAX_AMOUNT then Printed(Coin(PREFIX + [SEPARATOR] + AddressHex(t.contract, casing), t.amount))
    else Panic
  }

  function Split(s: string): (parts: seq<string>)
    ensures |parts| >= 1
  {
    if s == "" then [""]
    else
      var rest := Split(s[1..]);
      if s[0] == SEPARATOR then [""] + rest else [[s[0]] + rest[0]] + rest[1..]
  }

  function ValidateEthAddress(a: string): Result<()> {
    if |a| == 0 then Err(BadAddress)
    else if !IsEthAddress(a) then Err(BadAddress)
    else if |a| != 42 then Err(BadAddress)
    else Ok(())
  }

  function ValidatePeggyCoin(v: Coin): Result<string> {
    var parts := Split(v.denom);
    if |parts| < 2 then Err(FewerSeparators)
    else
      var address := ValidateEthAddress(parts[1]);
      if |parts| != 2 then Err(MoreSeparators)
      else if parts[0] != PREFIX then Err(WrongPrefix)
      else if address.Err? then Err(BadAddress)
      else if |v.denom| != DENOM_LEN then Err(WrongLength)
      else Ok(parts[1])
  }

  function ERC20FromPeggyCoin(v: Coin): Result<Token> {
    match ValidatePeggyCoin(v)
    case Err(e) => Err(e)
    case Ok(contract) => Ok(Token(HexToAddress(contract), v.amount))
  }

  function Join(parts: seq<string>): string
    requires |parts| >= 1
  {
    if |parts| == 1 then parts[0] else parts[0] + [SEPARATOR] + Join(parts[1..])
  }

  lemma {:induction false} JoinSplit(s: string)
    ensures Join(Split(s)) == s
  {
    if s != "" {
      var rest := Split(s[1..]);
      JoinSplit(s[1..]);
      var parts := Split(s);
      if s[0] == SEPARATOR {
        assert parts[1..] == rest;
      } else {
        assert parts[1..] == rest[1..];
      }
    }
  }

  lemma {:induction false} SplitPlain(s: string)
    requires SEPARATOR !in s
    ensures Split(s) == [s]
  {
    if s != "" {
      SplitPlain(s[1..]);
      assert [s[0]] + s[1..] == s;
    }
  }

  lemma {:induction false} SplitOnce(p: string, q: string)
    requires SEPARATOR !in p && SEPARATOR !in q
    ensures Split(p + [SEPARATOR] + q) == [p, q]
  {
    var s := p + [SEPARATOR] + q;
    if p == "" {
      assert s[1..] == q;
      SplitPlain(q);
    } else {
      assert s[1..] == p[1..] + [SEPARATOR] + q;
      SplitOnce(p[1..], q);
      assert [p[0]] + p[1..] == p && s[0] == p[0] != SEPARATOR;
    }
  }

  lemma AddressHasNoSeparator(c: string)
    requires IsEthAddress(c)
    ensures SEPARATOR !in c
  {
    forall k | 0 <= k < |c| ensures c[k] != SEPARATOR {
      if k >= 2 {
        assert IsHexDigit(c[k]);
      }
    }
  }

  lemma AcceptsPrefixed(v: Coin)
    ensures forall c :: ValidatePeggyCoin(v) == Ok(c) <==> IsEthAddress(c) && v.denom == PREFIX + [SEPARATOR] + c
    ensures ValidatePeggyCoin(v) != Err(WrongLength)
  {
    var parts := Split(v.denom);
    JoinSplit(v.denom);
    if |parts| == 2 {
      assert v.denom == parts[0] + [SEPARATOR] + parts[1];
    }
    forall c | IsEthAddress(c) && v.denom == PREFIX + [SEPARATOR] + c ensures ValidatePeggyCoin(v) == Ok(c) {
      AddressHasNoSeparator(c);
      SplitOnce(PREFIX, c);
    }
  }

  /**
   The parser accepts exactly "inj/" followed by a valid address. Its check of the total length
   never decides anything.
   */
  lemma AcceptsExactly(v: Coin)
    ensures forall c :: ValidatePeggyCoin(v) == Ok(c) <==> IsEthAddress(c) && v.denom == "inj/" + c
    ensures ValidatePeggyCoin(v) != Err(WrongLength)
  {
    AcceptsPrefixed(v);
    assert PREFIX + [SEPARATOR] == "inj/";
  }

  function Separators(s: string): nat {
    if s == "" then 0 else (if s[0] == SEPARATOR then 1 else 0) + Separators(s[1..])
  }

  lemma {:induction false} SplitCounts(s: string)
    ensures |Split(s)| == Separators(s) + 1
  {
    if s != "" {
      SplitCounts(s[1..]);
    }
  }

  lemma {:induction false} SeparatorsAppend(s: string, t: string)
    ensures Separators(s + t) == Separators(s) + Separators(t)
  {
    if s == "" {
      assert s + t == t;
    } else {
      SeparatorsAppend(s[1..], t);
      assert (s + t)[1..] == s[1..] + t;
    }
  }

  lemma {:induction false} NoSeparators(s: string)
    ensures Separators(s) == 0 <==> SEPARATOR !in s
  {
    if s != "" {
      NoSeparators(s[1..]);
    }
  }

  /** One separator, behind the prefix. */
  lemma SplitPrefixed(s: string, rest: string)
    requires s == PREFIX + [SEPARATOR] + rest && Separators(s) == 1
    ensures Split(s) == [PREFIX, rest]
  {
    SeparatorsAppend(PREFIX + [SEPARATOR], rest);
    SeparatorsAppend(PREFIX, [SEPARATOR]);
    NoSeparators(rest);
    SplitOnce(PREFIX, rest);
  }

  /** Which error a rejected coin gets: by the number of separators, then the prefix, then the address. */
  lemma RejectsExactly(v: Coin)
    ensures var r, n := ValidatePeggyCoin(v), Separators(v.denom);
            var prefixed := PREFIX + [SEPARATOR] <= v.denom;
            && (r == Err(FewerSeparators) <==> n == 0) && (r == Err(MoreSeparators) <==> n > 1)
            && (r == Err(WrongPrefix) <==> n == 1 && !prefixed)
            && (r == Err(BadAddress) <==> n == 1 && prefixed && !IsEthAddress(v.denom[|PREFIX| + 1..]))
  {
    var parts := Split(v.denom);
    SplitCounts(v.denom);
    JoinSplit(v.denom);
    AcceptsPrefixed(v);
    if Separators(v.denom) == 1 && PREFIX + [SEPARATOR] <= v.denom {
      SplitPrefixed(v.denom, v.denom[|PREFIX| + 1..]);
    }
  }

  /** A printed token is parsed back as it was, for every contract and every amount a coin can hold. */
  lemma TokenRoundTrip(t: Token, casing: Casing)
    ensures PeggyCoin(t, casing).Printed? <==> 0 <= t.amount < MAX_AMOUNT
    ensures PeggyCoin(t, casing).Printed? ==> ERC20FromPeggyCoin(PeggyCoin(t, casing).coin) == Ok(t)
  {
    if PeggyCoin(t, casing).Printed? {
      AcceptsPrefixed(PeggyCoin(t, casing).coin);
      AddressRoundTrip(t.contract, casing);
    }
  }

  /**
   Every coin that the parser accepts is printed back, up to the case of its hexadecimal letters,
   exactly if a coin can hold its amount: the parser does not look at the amount, printing does.
   */
  lemma CoinRoundTrip(v: Coin, casing: Casing)
    requires ERC20FromPeggyCoin(v).Ok?
    ensures var p := PeggyCoin(ERC20FromPeggyCoin(v).value, casing);
            && (p.Printed? <==> 0 <= v.amount < MAX_AMOUNT)
            && (p.Printed? ==> p.coin.amount == v.amount && Lower(p.coin.denom) == Lower(v.denom))
  {
    var c := ValidatePeggyCoin(v).value;
    AcceptsPrefixed(v);
    PrintRead(c, casing);
    LowerAppends(PREFIX + [SEPARATOR], c);
    LowerAppends(PREFIX + [SEPARATOR], AddressHex(HexToAddress(c), casing));
  }
}
