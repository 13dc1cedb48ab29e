/** The textual shapes of identifiers, digests, reasons, capabilities and adapter names. */
module Patterns {

  const MAX_ID := 80
  const MAX_NAME := 160
  const ADAPTER_PREFIX := "gotth-stack-adapter-"

  predicate Alnum(c: char) {
    'a' <= c <= 'z' || '0' <= c <= '9'
  }

  /** Alphanumeric words joined by single hyphens. */
  predicate SlugText(s: string) {
    && |s| > 0
    && forall i | 0 <= i < |s| ::
         Alnum(s[i]) || (s[i] == '-' && 0 < i < |s| - 1 && s[i - 1] != '-')
  }

  predicate ValidID(s: string) {
    |s| <= MAX_ID && SlugText(s)
  }

  predicate ValidDigest(s: string) {
    && |s| == 71
    && s[..7] == "sha256:"
    && forall i | 7 <= i < |s| :: '0' <= s[i] <= '9' || 'a' <= s[i] <= 'f'
  }

  predicate ValidReason(s: string) {
    && 0 < |s| <= MAX_ID
    && Alnum(s[0]) && Alnum(s[|s| - 1])
    && forall i | 0 <= i < |s| :: Alnum(s[i]) || s[i] == '_'
  }

  /** Position of the first dot, or the length when there is none. */
  function FirstDot(s: string): (r: nat)
    ensures r <= |s|
    ensures r < |s| ==> s[r] == '.'
    ensures forall i | 0 <= i < r :: s[i] != '.'
  {
    if s == [] || s[0] == '.' then 0 else 1 + FirstDot(s[1..])
  }

  /** Slugs joined by single dots. */
  predicate DottedText(s: string)
    decreases |s|
  {
    var dot := FirstDot(s);
    SlugText(s[..dot]) && (dot < |s| ==> DottedText(s[dot + 1..]))
  }

  predicate ValidCapability(s: string) {
    |s| <= MAX_NAME && DottedText(s)
  }

  predicate VersionText(s: string) {
    && |s| >= 2
    && s[0] == 'v'
    && '1' <= s[1] <= '9'
    && forall i | 2 <= i < |s| :: '0' <= s[i] <= '9'
  }

  predicate ValidAdapter(s: string) {
    && |ADAPTER_PREFIX| <= |s| <= MAX_NAME
    && s[..|ADAPTER_PREFIX|] == ADAPTER_PREFIX
    && var rest := s[|ADAPTER_PREFIX|..];
       var dot := FirstDot(rest);
       SlugText(rest[..dot]) && dot < |rest| && VersionText(rest[dot + 1..])
  }
}
