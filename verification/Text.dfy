/** White space as src/util.c:145-150 sees it, and digests as text (src/knowledge_store.c:8-13). */
module Text {
  predicate IsSpace(c: char) { c == ' ' || c == '\t' || c == '\n' || c == '\r' || c == 11 as char || c == 12 as char }

  predicate Blank(s: string) { forall i | 0 <= i < |s| :: IsSpace(s[i]) }

  predicate LowerHex(c: char) { '0' <= c <= '9' || 'a' <= c <= 'f' }

  predicate HashText(s: string) { |s| == 64 && forall i | 0 <= i < 64 :: LowerHex(s[i]) }
}
