/** Vocabulary shared by every model: optional values and MySQL's case folding of names. */
module Common {

  datatype Option<+T> = None | Some(value: T)

  // ASCII case folding: what Go's strings.ToLower / strings.EqualFold do to ASCII text.
  function FoldChar(c: char): char {
    if 'A' <= c <= 'Z' then ((c as int) + 32) as char else c
  }

  function Fold(s: string): string {
    seq(|s|, i requires 0 <= i < |s| => FoldChar(s[i]))
  }

  predicate EqualFold(a: string, b: string) {
    Fold(a) == Fold(b)
  }

  // One letter in either case, or one character.
  predicate SameLetter(a: char, b: char) {
    a == b || ('A' <= a <= 'Z' && b as int == a as int + 32) || ('A' <= b <= 'Z' && a as int == b as int + 32)
  }

  lemma LettersFold(a: char, b: char)
    ensures FoldChar(a) == FoldChar(b) <==> SameLetter(a, b)
  {
  }

  // Folding is comparing letter by letter.
  lemma FoldIs(a: string, b: string)
    ensures EqualFold(a, b) <==> |a| == |b| && forall i :: 0 <= i < |a| ==> SameLetter(a[i], b[i])
  {
    if |a| == |b| {
      forall i | 0 <= i < |a| ensures Fold(a)[i] == Fold(b)[i] <==> SameLetter(a[i], b[i]) { LettersFold(a[i], b[i]); }
      hide FoldChar, SameLetter;
    } else {
      assert |Fold(a)| != |Fold(b)|;
    }
  }
}
