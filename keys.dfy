/** String keys of the cost cache: decimal ids joined by "-", smaller id first. */
module Keys {

  function Min(a: int, b: int): int { if a < b then a else b }
  function Max(a: int, b: int): int { if a < b then b else a }

  predicate IsDigit(c: char) { '0' <= c <= '9' }

  function DigitChar(d: nat): char
    requires d < 10
  {
    (48 + d) as char
  }

  /** Decimal digits of `n`, most significant first, without leading zeros. */
  function NatToString(n: nat): (s: string)
    ensures |s| >= 1
    ensures forall i :: 0 <= i < |s| ==> IsDigit(s[i])
    decreases n
  {
    if n < 10 then [DigitChar(n)] else NatToString(n / 10) + [DigitChar(n % 10)]
  }

  /** The decimal rendering of a Long id: a '-' sign for negative ids, then the digits. */
  function IdToString(n: int): (s: string)
    ensures |s| >= 1
    ensures s[0] == '-' <==> n < 0
    ensures forall i :: 1 <= i < |s| ==> IsDigit(s[i])
  {
    if n < 0 then "-" + NatToString(-n) else NatToString(n)
  }

  /** The cost cache key of the pair (idA, idB): the smaller id first, so the key opens with a
      sign exactly when the smaller id is negative. */
  function KeyGenerator(idA: int, idB: int): (k: string)
    ensures |k| >= 3
    ensures k[0] == '-' <==> Min(idA, idB) < 0
  {
    if idA < idB then IdToString(idA) + "-" + IdToString(idB) else IdToString(idB) + "-" + IdToString(idA)
  }

  lemma {:induction false} NatToStringInjective(m: nat, n: nat)
    requires NatToString(m) == NatToString(n)
    ensures m == n
    decreases m
  {
    var sm, sn := NatToString(m), NatToString(n);
    if m < 10 && n < 10 {
      assert sm[0] == DigitChar(m) && sn[0] == DigitChar(n);
    } else if m >= 10 && n >= 10 {
      assert sm == NatToString(m / 10) + [DigitChar(m % 10)];
      assert sn == NatToString(n / 10) + [DigitChar(n % 10)];
      assert sm[|sm| - 1] == DigitChar(m % 10) && sn[|sn| - 1] == DigitChar(n % 10);
      assert sm[..|sm| - 1] == NatToString(m / 10);
      assert sn[..|sn| - 1] == NatToString(n / 10);
      NatToStringInjective(m / 10, n / 10);
    }
  }

  /** Different ids never render to the same string. */
  lemma IdToStringInjective(m: int, n: int)
    requires IdToString(m) == IdToString(n)
    ensures m == n
  {
    if m < 0 && n < 0 {
      assert IdToString(m)[1..] == NatToString(-m);
      assert IdToString(n)[1..] == NatToString(-n);
      NatToStringInjective(-m, -n);
    } else if m >= 0 && n >= 0 {
      NatToStringInjective(m, n);
    }
  }

  /** In "x-t" with x a rendered id, the first '-' after position 0 is the separator. */
  lemma SeparatorPosition(x: int, t: string)
    ensures var s := IdToString(x) + "-" + t;
      s[|IdToString(x)|] == '-' && forall i :: 1 <= i < |IdToString(x)| ==> s[i] != '-'
  {
    var s := IdToString(x) + "-" + t;
    forall i | 1 <= i < |IdToString(x)|
      ensures s[i] != '-'
    {
      assert s[i] == IdToString(x)[i];
    }
  }

  /** A string "x-y" built from two rendered ids determines both ids. */
  lemma JoinedInjective(a: int, b: int, c: int, d: int)
    requires IdToString(a) + "-" + IdToString(b) == IdToString(c) + "-" + IdToString(d)
    ensures a == c && b == d
  {
    var sa, sb, sc, sd := IdToString(a), IdToString(b), IdToString(c), IdToString(d);
    var s := sa + "-" + sb;
    assert s == sc + "-" + sd;
    SeparatorPosition(a, sb);
    SeparatorPosition(c, sd);
    assert |sa| == |sc|;
    assert sa == s[..|sa|] == sc;
    assert sb == s[|sa| + 1..] == sd;
    IdToStringInjective(a, c);
    IdToStringInjective(b, d);
  }

  /** The key does not depend on the order of the ids and lists the smaller id first. */
  lemma KeyGeneratorNormalized(idA: int, idB: int)
    ensures KeyGenerator(idA, idB) == KeyGenerator(idB, idA)
    ensures KeyGenerator(idA, idB) == IdToString(Min(idA, idB)) + "-" + IdToString(Max(idA, idB))
  {
  }

  /** Two pairs share a key exactly when they are the same unordered pair. */
  lemma KeyGeneratorInjective(a: int, b: int, c: int, d: int)
    ensures KeyGenerator(a, b) == KeyGenerator(c, d) <==> Min(a, b) == Min(c, d) && Max(a, b) == Max(c, d)
  {
    KeyGeneratorNormalized(a, b);
    KeyGeneratorNormalized(c, d);
    if KeyGenerator(a, b) == KeyGenerator(c, d) {
      JoinedInjective(Min(a, b), Max(a, b), Min(c, d), Max(c, d));
    }
  }
}
