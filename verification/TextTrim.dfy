/** Trimming and splitting at white space. */
module TextTrim {

  predicate Space(c: char) {
    c == ' ' || c == '\t' || c == '\n' || c == '\r' || c == 11 as char || c == 12 as char || c == 0x85 as char ||
    c == 0xA0 as char
  }

  function TrimFront(s: string): (r: string)
    ensures |r| <= |s| && (r == "" || !Space(r[0]))
  {
    if s != "" && Space(s[0]) then TrimFront(s[1..]) else s
  }

  function TrimBack(s: string): (r: string)
    ensures r <= s && (r == "" || !Space(r[|r| - 1]))
  {
    if s != "" && Space(s[|s| - 1]) then TrimBack(s[..|s| - 1]) else s
  }

  function TrimSpace(s: string): string {
    TrimBack(TrimFront(s))
  }

  function WordEnd(s: string, i: nat): (e: nat)
    requires i <= |s|
    ensures i <= e <= |s| && (i < |s| && !Space(s[i]) ==> e > i)
    decreases |s| - i
  {
    if i < |s| && !Space(s[i]) then WordEnd(s, i + 1) else i
  }

  // The words of s with single spaces between them.
  function Squeezed(s: string): string
    decreases |s|
  {
    var t := TrimFront(s);
    if t == "" then ""
    else
      var n := WordEnd(t, 0);
      var rest := Squeezed(t[n..]);
      t[..n] + if rest == "" then "" else " " + rest
  }

  ghost predicate Blanks(g: string) {
    forall i :: 0 <= i < |g| ==> Space(g[i])
  }

  lemma {:induction false} FrontIsCut(g: string, x: string)
    requires Blanks(g) && (x == "" || !Space(x[0]))
    ensures TrimFront(g + x) == x
  {
    if g == "" {
      assert g + x == x;
    } else {
      assert (g + x)[1..] == g[1..] + x;
      FrontIsCut(g[1..], x);
    }
  }

  // Words with gaps around and between them, and the words with single spaces.
  function Laid(gaps: seq<string>, words: seq<string>): string
    requires |gaps| == |words| + 1
  {
    if words == [] then gaps[0] else gaps[0] + (words[0] + Laid(gaps[1..], words[1..]))
  }

  function Spaced(words: seq<string>): string {
    if words == [] then "" else if |words| == 1 then words[0] else words[0] + (" " + Spaced(words[1..]))
  }

  ghost predicate IsWord(w: string) {
    w != "" && forall i :: 0 <= i < |w| ==> !Space(w[i])
  }

  lemma {:induction false} WordEnds(w: string, x: string, i: nat)
    requires i <= |w| && (forall j :: 0 <= j < |w| ==> !Space(w[j])) && (x == "" || Space(x[0]))
    ensures WordEnd(w + x, i) == |w|
    decreases |w| - i
  {
    if i < |w| { WordEnds(w, x, i + 1); }
  }

  // Squeezing keeps the words and nothing of the gaps.
  lemma {:induction false} SqueezedKeepsWords(gaps: seq<string>, words: seq<string>)
    requires |gaps| == |words| + 1 && (forall i :: 0 <= i < |gaps| ==> Blanks(gaps[i]))
    requires (forall i :: 0 <= i < |words| ==> IsWord(words[i])) && forall i :: 0 < i < |words| ==> gaps[i] != ""
    ensures Squeezed(Laid(gaps, words)) == Spaced(words)
    decreases |words|
  {
    if words == [] {
      FrontIsCut(gaps[0], "");
      assert gaps[0] + "" == gaps[0];
    } else {
      var w, rest := words[0], Laid(gaps[1..], words[1..]);
      assert gaps[1..][0] == gaps[1];
      assert rest == "" || Space(rest[0]);
      FrontIsCut(gaps[0], w + rest);
      WordEnds(w, rest, 0);
      assert (w + rest)[..|w|] == w && (w + rest)[|w|..] == rest;
      SqueezedKeepsWords(gaps[1..], words[1..]);
    }
  }
}
