/** The UUID check of the configuration screen
    (src/components/ESPConfiguration.js): the regular expression
    `^[0-9a-f]{8}-[0-9a-f]{4}-[0-9a-f]{4}-[0-9a-f]{4}-[0-9a-f]{12}$` with the
    `i` flag, written as a sequence of single-character tokens matched
    against the whole string, and shown to accept exactly the textual form
    of section 3 of RFC 4122. */
module Uuid {
  import opened Ascii

  /** One regular-expression atom: a hexadecimal digit class, or a literal dash. */
  datatype Token = HexDigit | Dash

  function Repeat(t: Token, n: nat): (r: seq<Token>)
    ensures |r| == n && forall i :: 0 <= i < n ==> r[i] == t
  {
    if n == 0 then [] else [t] + Repeat(t, n - 1)
  }

  /** The expression, quantifiers expanded: 8-4-4-4-12 digits between dashes. */
  const UuidPattern: seq<Token> :=
    Repeat(HexDigit, 8) + [Dash] + Repeat(HexDigit, 4) + [Dash] + Repeat(HexDigit, 4)
    + [Dash] + Repeat(HexDigit, 4) + [Dash] + Repeat(HexDigit, 12)

  /** The `i` flag: the digit class takes letters in either case. */
  predicate TokenMatches(t: Token, c: char) {
    match t
    case HexDigit => IsHexDigit(c)
    case Dash => c == '-'
  }

  /** Anchored at both ends: each token consumes one character and nothing is left over. */
  predicate MatchesPattern(p: seq<Token>, s: string)
    ensures MatchesPattern(p, s) ==> |s| == |p|
    decreases |p|
  {
    if p == [] then s == []
    else s != [] && TokenMatches(p[0], s[0]) && MatchesPattern(p[1..], s[1..])
  }

  /** `uuidRegex.test(s)`. */
  predicate IsUuid(s: string)
    ensures IsUuid(s) ==> |s| == 36
  {
    MatchesPattern(UuidPattern, s)
  }

  /** The dash positions of the RFC 4122 string form. */
  predicate IsDashPosition(i: int) {
    i == 8 || i == 13 || i == 18 || i == 23
  }

  /** The string form of section 3 of RFC 4122: 36 characters, dashes at
      offsets 8, 13, 18 and 23, hexadecimal digits everywhere else. */
  predicate IsRfc4122Text(s: string) {
    && |s| == 36
    && forall i :: 0 <= i < 36 ==> if IsDashPosition(i) then s[i] == '-' else IsHexDigit(s[i])
  }

  /** An anchored token match is a character-by-character match of equal length. */
  lemma {:induction false} MatchesPatternIff(p: seq<Token>, s: string)
    ensures MatchesPattern(p, s) <==>
      |p| == |s| && forall i :: 0 <= i < |p| ==> TokenMatches(p[i], s[i])
    decreases |p|
  {
    if p != [] && s != [] {
      MatchesPatternIff(p[1..], s[1..]);
      if |p| == |s| && forall i :: 0 <= i < |p| ==> TokenMatches(p[i], s[i]) {
        forall i | 0 <= i < |p| - 1 ensures TokenMatches(p[1..][i], s[1..][i]) {
          assert p[1..][i] == p[i + 1] && s[1..][i] == s[i + 1];
        }
      }
      if MatchesPattern(p, s) {
        forall i | 0 <= i < |p| ensures TokenMatches(p[i], s[i]) {
          if i > 0 {
            assert p[i] == p[1..][i - 1] && s[i] == s[1..][i - 1];
          }
        }
      }
    }
  }

  /** The expanded pattern has a dash exactly at the RFC 4122 dash positions. */
  lemma UuidPatternAt(i: int)
    requires 0 <= i < 36
    ensures |UuidPattern| == 36
    ensures UuidPattern[i] == if IsDashPosition(i) then Dash else HexDigit
  {
  }

  /** The regular expression accepts exactly the RFC 4122 string form. */
  lemma IsUuidIff(s: string)
    ensures IsUuid(s) <==> IsRfc4122Text(s)
  {
    MatchesPatternIff(UuidPattern, s);
    UuidPatternAt(0);
    forall i | 0 <= i < 36
      ensures UuidPattern[i] == if IsDashPosition(i) then Dash else HexDigit
    {
      UuidPatternAt(i);
    }
  }

  predicate AllHex(g: string) {
    forall i :: 0 <= i < |g| ==> IsHexDigit(g[i])
  }

  /** Five groups of 8, 4, 4, 4 and 12 digits joined by dashes pass the check. */
  lemma IsUuidFromGroups(s: string, g1: string, g2: string, g3: string, g4: string, g5: string)
    requires |g1| == 8 && |g2| == 4 && |g3| == 4 && |g4| == 4 && |g5| == 12
    requires AllHex(g1) && AllHex(g2) && AllHex(g3) && AllHex(g4) && AllHex(g5)
    requires s == g1 + "-" + g2 + "-" + g3 + "-" + g4 + "-" + g5
    ensures IsUuid(s)
  {
    forall i | 0 <= i < 36
      ensures if IsDashPosition(i) then s[i] == '-' else IsHexDigit(s[i])
    {
      if i < 8 { assert s[i] == g1[i]; }
      else if i < 13 && i != 8 { assert s[i] == g2[i - 9]; }
      else if i < 18 && i != 13 && i != 8 { assert s[i] == g3[i - 14]; }
      else if i < 23 && !IsDashPosition(i) { assert s[i] == g4[i - 19]; }
      else if i > 23 { assert s[i] == g5[i - 24]; }
    }
    IsUuidIff(s);
  }

  /** Because of the `i` flag, case does not matter. */
  lemma IsUuidIgnoresCase(s: string)
    ensures IsUuid(Lower(s)) == IsUuid(s)
  {
    IsUuidIff(s);
    IsUuidIff(Lower(s));
    forall i | 0 <= i < |s| ensures IsHexDigit(Lower(s)[i]) == IsHexDigit(s[i]) && (Lower(s)[i] == '-') == (s[i] == '-') {
    }
  }
}
