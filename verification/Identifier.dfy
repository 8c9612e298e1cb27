/** The names that trees, tools and mirrored users may have. */
module Identifier {
  import opened Text

  predicate IsIdentifierChar(c: char) {
    || 'a' <= c <= 'z'
    || 'A' <= c <= 'Z'
    || '0' <= c <= '9'
    || c == '_'
    || c == '-'
  }

  predicate HasDotDot(s: string) {
    exists i | 0 <= i < |s| - 1 :: s[i] == '.' && s[i + 1] == '.'
  }

  predicate IsValidIdentifier(name: string) {
    && name != "" && |name| <= 128
    && name[0] != '.' && name[0] != '-' && !HasDotDot(name)
    && forall c | c in name :: IsIdentifierChar(c)
  }

  /** An identifier survives trimming and splitting, wherever a policy line holds it. */
  lemma IdentifierIsField(name: string)
    requires IsValidIdentifier(name)
    ensures name != "" && Trimmed(name) && '\t' !in name && ',' !in name && '\n' !in name && '\r' !in name
  {
    assert name[0] in name && name[|name| - 1] in name;
  }
}
