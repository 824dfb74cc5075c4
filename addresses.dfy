/**
 * Addresses as the scanner handles them: plain strings, compared exactly, with a
 * lower-casing normalisation used for the second try of a proof-dataset lookup.
 */
module Addresses {
  import opened Wrappers

  /** An account or contract address as written in the registries. */
  type Address = string

  /** viem's `zeroAddress`: "0x" followed by forty zeros. A merkle airdrop whose contract
      is this address is a dry-run marker. */
  const ZeroAddress: Address := "0x0000000000000000000000000000000000000000"

  predicate IsUpper(ch: char) { 'A' <= ch <= 'Z' }

  /** True when no character of `s` is an upper-case letter. */
  predicate IsLowerCase(s: string)
  {
    forall i :: 0 <= i < |s| ==> !IsUpper(s[i])
  }

  /** Two characters that are equal once upper-case letters are mapped to lower case. */
  predicate SameUpToCase(a: char, b: char)
  {
    a == b || (IsUpper(a) && a as int + 32 == b as int) || (IsUpper(b) && b as int + 32 == a as int)
  }

  function LowerChar(ch: char): (r: char)
    ensures !IsUpper(r) && SameUpToCase(ch, r)
    ensures !IsUpper(ch) ==> r == ch
  {
    if IsUpper(ch) then (ch as int + 32) as char else ch
  }

  /** `String.prototype.toLowerCase`, restricted to the ASCII letters that addresses use. */
  function ToLower(s: string): (r: string)
    ensures |r| == |s| && IsLowerCase(r)
    ensures forall i :: 0 <= i < |s| ==> SameUpToCase(s[i], r[i])
  {
    seq(|s|, i requires 0 <= i < |s| => LowerChar(s[i]))
  }

  /** `normalizeAddr`: a missing value becomes the empty string, anything else is lower-cased. */
  function NormalizeAddr(a: Option<string>): (r: string)
    ensures IsLowerCase(r)
    ensures a.None? ==> r == ""
    ensures a.Some? ==> |r| == |a.value| && (IsLowerCase(a.value) ==> r == a.value)
  {
    ToLower(a.GetOr(""))
  }

  /** Normalising twice is normalising once. */
  lemma NormalizeAddrIdempotent(a: Option<string>)
    ensures NormalizeAddr(Some(NormalizeAddr(a))) == NormalizeAddr(a)
  {
  }

  /** Strings that agree up to the case of their letters normalise to the same string. */
  lemma {:induction false} NormalizeAddrIgnoresCase(a: string, b: string)
    requires |a| == |b|
    requires forall i :: 0 <= i < |a| ==> SameUpToCase(a[i], b[i])
    ensures NormalizeAddr(Some(a)) == NormalizeAddr(Some(b))
  {
    var la, lb := NormalizeAddr(Some(a)), NormalizeAddr(Some(b));
    forall i | 0 <= i < |a|
      ensures la[i] == lb[i]
    {
      assert la[i] == LowerChar(a[i]) && lb[i] == LowerChar(b[i]);
    }
  }
}
