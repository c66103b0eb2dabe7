/** The few string operations the guards of the backend rely on. */
module Text {
  /** Characters that `String.prototype.trim` removes. */
  predicate IsWhite(c: char) {
    || c in "\t\n\r "
    || c as int in {0x0B, 0x0C, 0xA0, 0x1680, 0x2028, 0x2029, 0x202F, 0x205F, 0x3000, 0xFEFF}
    || 0x2000 <= c as int <= 0x200A
  }

  /** A note that is empty once trimmed. */
  predicate IsBlank(s: string) {
    forall i | 0 <= i < |s| :: IsWhite(s[i])
  }

  function LowerChar(c: char): char {
    if 'A' <= c <= 'Z' then c - 'A' + 'a' else c
  }

  /** `toLowerCase` on ASCII letters; other characters are kept. */
  function ToLowerCase(s: string): (r: string)
    ensures |r| == |s|
    ensures forall i | 0 <= i < |s| :: r[i] == LowerChar(s[i])
  {
    seq(|s|, i requires 0 <= i < |s| => LowerChar(s[i]))
  }
}
