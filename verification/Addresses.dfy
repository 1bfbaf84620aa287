/** The address of a report: how the request schema trims it and how detection normalises it. */
module Addresses {

  /** U+001C to U+001F: white space to Python's split, not to the schema's trim. */
  predicate IsSeparator(c: char) {
    '\U{1C}' <= c <= '\U{1F}'
  }

  /** Unicode's property White_Space, which the schema trims. */
  predicate IsWhite(c: char) {
    || '\U{9}' <= c <= '\U{D}' || c == ' ' || c == '\U{85}' || c == '\U{A0}' || c == '\U{1680}'
    || '\U{2000}' <= c <= '\U{200A}' || c == '\U{2028}' || c == '\U{2029}' || c == '\U{202F}' || c == '\U{205F}' || c == '\U{3000}'
  }

  predicate Splits(c: char) {
    IsWhite(c) || IsSeparator(c)
  }

  function TrimLeft(s: string): string {
    if s != [] && IsWhite(s[0]) then TrimLeft(s[1..]) else s
  }

  function TrimRight(s: string): string {
    if s != [] && IsWhite(s[|s| - 1]) then TrimRight(s[..|s| - 1]) else s
  }

  function Trim(s: string): string {
    TrimRight(TrimLeft(s))
  }

  /** The schema's bounds, on the trimmed text. */
  predicate Accepted(s: string) {
    1 <= |Trim(s)| <= 300
  }

  /** What is compared, but for letter case: the text without its white space. */
  function Normalised(s: string): string {
    if s == [] then [] else (if Splits(s[0]) then [] else [s[0]]) + Normalised(s[1..])
  }

  lemma {:induction false} NormalisedBlankIff(s: string)
    ensures Normalised(s) == [] <==> forall i | 0 <= i < |s| :: Splits(s[i])
  {
    if s != [] {
      NormalisedBlankIff(s[1..]);
      assert forall i | 0 <= i < |s| :: i > 0 ==> s[i] == s[1..][i - 1];
    }
  }

  lemma {:induction false} NormalisedSnoc(s: string, c: char)
    requires Splits(c)
    ensures Normalised(s + [c]) == Normalised(s)
  {
    if s != [] {
      NormalisedSnoc(s[1..], c);
      assert (s + [c])[1..] == s[1..] + [c];
    }
  }

  lemma {:induction false} TrimRightNormalised(s: string)
    ensures Normalised(TrimRight(s)) == Normalised(s)
  {
    if s != [] && IsWhite(s[|s| - 1]) {
      TrimRightNormalised(s[..|s| - 1]);
      NormalisedSnoc(s[..|s| - 1], s[|s| - 1]);
      assert s == s[..|s| - 1] + [s[|s| - 1]];
    }
  }

  lemma {:induction false} TrimLeftNormalised(s: string)
    ensures Normalised(TrimLeft(s)) == Normalised(s)
  {
    if s != [] && IsWhite(s[0]) {
      TrimLeftNormalised(s[1..]);
    }
  }

  /** What the trim takes away never counts. */
  lemma TrimNormalised(s: string)
    ensures Normalised(Trim(s)) == Normalised(s)
  {
    TrimRightNormalised(TrimLeft(s));
    TrimLeftNormalised(s);
  }

  lemma {:induction false} TrimLeftBlankIff(s: string)
    ensures TrimLeft(s) == [] <==> forall i | 0 <= i < |s| :: IsWhite(s[i])
    ensures TrimLeft(s) != [] ==> !IsWhite(TrimLeft(s)[0])
  {
    if s != [] && IsWhite(s[0]) {
      TrimLeftBlankIff(s[1..]);
      assert forall i | 0 <= i < |s| :: i > 0 ==> s[i] == s[1..][i - 1];
    }
  }

  lemma {:induction false} TrimRightKeepsStart(s: string)
    requires s != [] && !IsWhite(s[0])
    ensures TrimRight(s) != []
  {
    if IsWhite(s[|s| - 1]) {
      TrimRightKeepsStart(s[..|s| - 1]);
    }
  }

  lemma TrimBlankIff(s: string)
    ensures Trim(s) == [] <==> forall i | 0 <= i < |s| :: IsWhite(s[i])
  {
    TrimLeftBlankIff(s);
    if TrimLeft(s) != [] {
      TrimRightKeepsStart(TrimLeft(s));
    }
  }

  /** The schema accepts an address that detection takes for blank if and only if the address
      is all white space to detection, has a separator, and is not too long. */
  lemma BlankAcceptedIff(s: string)
    ensures Accepted(s) && Normalised(Trim(s)) == []
            <==> && (forall i | 0 <= i < |s| :: Splits(s[i]))
                 && (exists i | 0 <= i < |s| :: IsSeparator(s[i]))
                 && |Trim(s)| <= 300
  {
    TrimNormalised(s);
    NormalisedBlankIff(s);
    TrimBlankIff(s);
  }

  /** Such addresses exist. */
  lemma SeparatorIsAccepted()
    ensures Accepted(['\U{1C}']) && Normalised(Trim(['\U{1C}'])) == []
  {
  }
}
