/** The two regular expressions of the validator. Both have the shape
    ^[class]{min,max}$ — an anchored, bounded repetition of one character
    class — so one small matcher serves both:
      name:                ^[a-zA-Z\s]{2,20}$
      registration number: ^\d{12}$          (that is, {12,12}) */
module Pattern {

  /** The ASCII letters of the class a-zA-Z. */
  predicate IsAsciiLetter(c: char) {
    ('a' <= c <= 'z') || ('A' <= c <= 'Z')
  }

  /** The class \d of a JavaScript regular expression: ASCII digits only. */
  predicate IsDigit(c: char) {
    '0' <= c <= '9'
  }

  /** The class \s of a JavaScript regular expression: the WhiteSpace and
      LineTerminator code points of ECMAScript (tab, line tabulation, form
      feed, the space separators, byte-order mark, line feed, carriage
      return, line and paragraph separators). */
  predicate IsJsWhitespace(c: char) {
    || c == '\t' || c == '\n' || c == '\U{B}' || c == '\U{C}' || c == '\r'
    || c == ' ' || c == '\U{A0}' || c == '\U{1680}'
    || ('\U{2000}' <= c <= '\U{200A}')
    || c == '\U{2028}' || c == '\U{2029}' || c == '\U{202F}' || c == '\U{205F}'
    || c == '\U{3000}' || c == '\U{FEFF}'
  }

  datatype CharClass =
    | LetterOrSpace   // [a-zA-Z\s]
    | Digit           // \d

  predicate InClass(k: CharClass, c: char) {
    match k
    case LetterOrSpace => IsAsciiLetter(c) || IsJsWhitespace(c)
    case Digit => IsDigit(c)
  }

  /** The anchored pattern ^[cls]{min,max}$. */
  datatype Repeat = Repeat(cls: CharClass, min: nat, max: nat)

  const NamePattern := Repeat(LetterOrSpace, 2, 20)
  const RegNumberPattern := Repeat(Digit, 12, 12)

  /** The matcher's run over the rest of the input `s`, having already
      consumed `count` characters of the class: each step takes one more
      character of the class, the repetition stops at `max`, and `$` then
      needs the input to be exhausted with at least `min` taken. */
  function Consume(p: Repeat, s: string, count: nat): bool
    decreases |s|
  {
    if |s| == 0 then p.min <= count <= p.max
    else if count >= p.max then false
    else InClass(p.cls, s[0]) && Consume(p, s[1..], count + 1)
  }

  lemma {:induction false} ConsumeIff(p: Repeat, s: string, count: nat)
    ensures Consume(p, s, count) <==>
      && p.min <= count + |s| <= p.max
      && forall i :: 0 <= i < |s| ==> InClass(p.cls, s[i])
    decreases |s|
  {
    if |s| != 0 && count < p.max {
      ConsumeIff(p, s[1..], count + 1);
      assert forall i :: 1 <= i < |s| ==> s[1..][i - 1] == s[i];
    }
  }

  /** `pattern.test(s)`: the whole string is min..max characters of the class. */
  function Test(p: Repeat, s: string): (ok: bool)
    ensures ok <==> p.min <= |s| <= p.max && forall i :: 0 <= i < |s| ==> InClass(p.cls, s[i])
  {
    ConsumeIff(p, s, 0);
    Consume(p, s, 0)
  }
}
