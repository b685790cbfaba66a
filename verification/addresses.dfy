/**
 * The two collection-address validators: the canonical entry point tests
 * `/^\w{32,44}$/`, the legacy one tests the base-58 alphabet
 * `/^[1-9A-HJ-NP-Za-km-z]{32,44}$/`. Neither regex carries the `m` flag, so
 * `^` and `$` anchor at the ends of the whole (already trimmed) text.
 */
module Addresses {

  /** Regex `\w` without the `u`/`i` flags: `[A-Za-z0-9_]`. */
  predicate IsWordChar(c: char) {
    ('A' <= c <= 'Z') || ('a' <= c <= 'z') || ('0' <= c <= '9') || c == '_'
  }

  /** The character class `[1-9A-HJ-NP-Za-km-z]`. */
  predicate IsBase58Char(c: char) {
    ('1' <= c <= '9') || ('A' <= c <= 'H') || ('J' <= c <= 'N') || ('P' <= c <= 'Z')
    || ('a' <= c <= 'k') || ('m' <= c <= 'z')
  }

  /** `/^\w{32,44}$/.test(s)`. */
  predicate IsWordAddress(s: string) {
    32 <= |s| <= 44 && forall i :: 0 <= i < |s| ==> IsWordChar(s[i])
  }

  /** `/^[1-9A-HJ-NP-Za-km-z]{32,44}$/.test(s)`. */
  predicate IsBase58Address(s: string) {
    32 <= |s| <= 44 && forall i :: 0 <= i < |s| ==> IsBase58Char(s[i])
  }

  /** The characters the two validators disagree on: base-58 drops `0`, `O`, `I`, `l` and `_` from `\w`. */
  predicate IsExcludedLookalike(c: char) {
    c == '0' || c == 'O' || c == 'I' || c == 'l' || c == '_'
  }

  /** The base-58 class is exactly `\w` minus the look-alike digits and letters and the underscore. */
  lemma Base58CharIff(c: char)
    ensures IsBase58Char(c) <==> IsWordChar(c) && !IsExcludedLookalike(c)
  {
  }

  /** Every address the legacy check accepts is accepted by the canonical one; the converse fails, see `UnderscoresPassWordCheckOnly`. */
  lemma Base58AddressIsWordAddress(s: string)
    requires IsBase58Address(s)
    ensures IsWordAddress(s)
    ensures forall i :: 0 <= i < |s| ==> !IsExcludedLookalike(s[i])
  {
    forall i | 0 <= i < |s| ensures IsWordChar(s[i]) && !IsExcludedLookalike(s[i]) {
      Base58CharIff(s[i]);
    }
  }

  /** A canonical-valid address fails the legacy check exactly when it contains `0`, `O`, `I`, `l` or `_`. */
  lemma ValidatorsDisagreeIff(s: string)
    requires IsWordAddress(s)
    ensures !IsBase58Address(s) <==> exists i :: 0 <= i < |s| && IsExcludedLookalike(s[i])
  {
    if !IsBase58Address(s) {
      var i :| 0 <= i < |s| && !IsBase58Char(s[i]);
      Base58CharIff(s[i]);
    } else {
      Base58AddressIsWordAddress(s);
    }
  }

  /** Thirty-two underscores pass the canonical `\w{32,44}` check although they are no base-58 address. */
  lemma UnderscoresPassWordCheckOnly()
    ensures IsWordAddress(seq(32, _ => '_'))
    ensures !IsBase58Address(seq(32, _ => '_'))
  {
    var s: string := seq(32, _ => '_');
    assert !IsBase58Char(s[0]);
  }
}
