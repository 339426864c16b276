/** Ticker normalisation: the `symbol.upper()` applied by the buy and sell
    commands before a symbol is used as part of a ledger key. */
module Symbols {

  predicate IsLower(c: char)
  {
    'a' <= c <= 'z'
  }

  /** Upper-case image of one character: ASCII letters a-z map to A-Z,
      every other character is kept. */
  function UpperChar(c: char): (u: char)
    ensures !IsLower(u)
    ensures IsLower(c) ==> u as int == c as int - 32
    ensures !IsLower(c) ==> u == c
  {
    if IsLower(c) then (c as int - 32) as char else c
  }

  /** `str.upper()` on a ticker symbol. */
  function Upper(s: string): (r: string)
    ensures |r| == |s|
    ensures forall i :: 0 <= i < |s| ==> r[i] == UpperChar(s[i])
  {
    if s == [] then [] else [UpperChar(s[0])] + Upper(s[1..])
  }

  /** A string already in normal form: no lower-case letter left. */
  predicate IsNormalized(s: string)
  {
    forall i :: 0 <= i < |s| ==> !IsLower(s[i])
  }

  /** Two characters that differ at most in the case of a letter. */
  predicate SameIgnoringCase(a: char, b: char)
  {
    a == b
    || (IsLower(a) && b as int == a as int - 32)
    || (IsLower(b) && a as int == b as int - 32)
  }

  /** Two strings that differ at most in the case of their letters. */
  predicate EqualIgnoringCase(s: string, t: string)
  {
    |s| == |t| && forall i :: 0 <= i < |s| ==> SameIgnoringCase(s[i], t[i])
  }

  /** The result of `upper()` has no lower-case letter, and `upper()` leaves
      a normalised string as it is, so normalising twice is normalising once. */
  lemma UpperNormalizes(s: string)
    ensures IsNormalized(Upper(s))
    ensures IsNormalized(s) ==> Upper(s) == s
    ensures Upper(Upper(s)) == Upper(s)
  {
    var u := Upper(s);
    assert forall i :: 0 <= i < |u| ==> Upper(u)[i] == UpperChar(u[i]) == u[i];
  }

  lemma UpperCharSame(a: char, b: char)
    ensures UpperChar(a) == UpperChar(b) <==> SameIgnoringCase(a, b)
  {
  }

  /** Two spellings of a symbol address the same ledger key exactly when they
      differ only in the case of their letters ("aapl" and "AAPL"). */
  lemma {:induction false} UpperEqualIff(s: string, t: string)
    ensures Upper(s) == Upper(t) <==> EqualIgnoringCase(s, t)
  {
    if Upper(s) == Upper(t) {
      forall i | 0 <= i < |s|
        ensures SameIgnoringCase(s[i], t[i])
      {
        assert Upper(s)[i] == Upper(t)[i];
        UpperCharSame(s[i], t[i]);
      }
    }
    if EqualIgnoringCase(s, t) {
      forall i | 0 <= i < |s|
        ensures Upper(s)[i] == Upper(t)[i]
      {
        UpperCharSame(s[i], t[i]);
      }
    }
  }

  /** The two spellings of the example ticker are normalised alike. */
  lemma LowerAndUpperTickerAgree()
    ensures Upper("aapl") == Upper("AAPL") == "AAPL"
  {
    UpperEqualIff("aapl", "AAPL");
    UpperNormalizes("AAPL");
  }
}
