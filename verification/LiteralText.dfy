/** String literals as text: quoting, MySQL's generated-column escapes, and lowering around literals. */
module LiteralText {
  import opened Common

  /* ----- QuoteLiteral (model/util.go) ----- */

  // Every backslash doubled, every quote doubled.
  function Escaped(s: string): string {
    if s == "" then ""
    else (if s[0] == '\\' then "\\\\" else if s[0] == '\'' then "\'\'" else [s[0]]) + Escaped(s[1..])
  }

  // strings.ReplaceAll of one character by two.
  function DoubleChar(s: string, c: char): string {
    if s == "" then "" else (if s[0] == c then [c, c] else [s[0]]) + DoubleChar(s[1..], c)
  }

  function QuoteLiteral(s: string): string {
    "\'" + DoubleChar(DoubleChar(s, '\\'), '\'') + "\'"
  }

  lemma {:induction false} DoubleCharCons(x: char, s: string, c: char)
    ensures DoubleChar([x] + s, c) == (if x == c then [c, c] else [x]) + DoubleChar(s, c)
  {
    assert ([x] + s)[0] == x && ([x] + s)[1..] == s;
  }

  // The two passes do not disturb each other.
  lemma {:induction false} PassesAreEscaped(s: string)
    ensures DoubleChar(DoubleChar(s, '\\'), '\'') == Escaped(s)
  {
    if s != "" {
      PassesAreEscaped(s[1..]);
      var rest := DoubleChar(s[1..], '\\');
      if s[0] == '\\' {
        assert DoubleChar(s, '\\') == ['\\'] + (['\\'] + rest);
        DoubleCharCons('\\', ['\\'] + rest, '\'');
        DoubleCharCons('\\', rest, '\'');
        assert ['\\'] + (['\\'] + Escaped(s[1..])) == "\\\\" + Escaped(s[1..]);
      } else {
        DoubleCharCons(s[0], rest, '\'');
      }
    }
  }

  lemma {:induction false} EscapedInjective(a: string, b: string)
    requires Escaped(a) == Escaped(b)
    ensures a == b
  {
    if a != "" && b != "" {
      assert Escaped(a)[0] == a[0] && Escaped(b)[0] == b[0];
      var step := if a[0] == '\\' || a[0] == '\'' then 2 else 1;
      assert Escaped(a)[step..] == Escaped(a[1..]) && Escaped(b)[step..] == Escaped(b[1..]);
      EscapedInjective(a[1..], b[1..]);
      assert a == [a[0]] + a[1..] && b == [b[0]] + b[1..];
    }
  }

  // No two strings are quoted alike.
  lemma QuoteLiteralInjective(a: string, b: string)
    requires QuoteLiteral(a) == QuoteLiteral(b)
    ensures a == b
  {
    PassesAreEscaped(a);
    PassesAreEscaped(b);
    assert QuoteLiteral(a)[1..|QuoteLiteral(a)| - 1] == Escaped(a);
    assert QuoteLiteral(b)[1..|QuoteLiteral(b)| - 1] == Escaped(b);
    EscapedInjective(a, b);
  }

  // What MySQL reads for a backslash and the character behind it.
  function Unescaped(c: char): string {
    match c
    case 'n' => "\n"
    case 't' => "\t"
    case 'r' => "\r"
    case '0' => [0 as char]
    case 'b' => [8 as char]
    case 'Z' => [26 as char]
    case '%' => "\\%"
    case '_' => "\\_"
    case _ => [c]
  }

  // How MySQL reads a literal from behind its opening quote: None unless its closing quote ends the text.
  function ReadLiteral(s: string, pos: nat): Option<string>
    requires pos <= |s|
    decreases |s| - pos
  {
    if pos == |s| then None
    else if s[pos] == '\'' && pos + 1 == |s| then Some("")
    else if s[pos] == '\'' && s[pos + 1] != '\'' then None
    else if s[pos] == '\\' && pos + 1 == |s| then None
    else
      var two := s[pos] == '\'' || s[pos] == '\\';
      var rest := ReadLiteral(s, if two then pos + 2 else pos + 1);
      if rest.None? then None
      else Some((if s[pos] == '\\' then Unescaped(s[pos + 1]) else [s[pos]]) + rest.value)
  }

  lemma {:induction false} EscapedReads(s: string, i: nat, text: string)
    requires i <= |s| && s[i..] == Escaped(text) + "\'"
    ensures ReadLiteral(s, i) == Some(text)
    decreases |text|
  {
    if text != "" {
      var lead := if text[0] == '\\' then "\\\\" else if text[0] == '\'' then "\'\'" else [text[0]];
      var rest := Escaped(text[1..]) + "\'";
      assert Escaped(text) + "\'" == lead + rest;
      SuffixSplits(s, i, lead, rest);
      hide Escaped;
      EscapedReads(s, i + |lead|, text[1..]);
      assert text == [text[0]] + text[1..];
    } else {
      assert s[i..][0] == '\'' && |s[i..]| == 1;
    }
  }

  lemma SuffixSplits(s: string, i: nat, lead: string, rest: string)
    requires i <= |s| && s[i..] == lead + rest && lead != ""
    ensures i + |lead| <= |s| && s[i + |lead|..] == rest && s[i] == lead[0] && (|lead| == 2 ==> s[i + 1] == lead[1])
  {
    assert s[i..][|lead|..] == s[i + |lead|..];
    assert s[i..][0] == s[i];
    if |lead| == 2 { assert s[i..][1] == s[i + 1]; }
  }

  // MySQL reads the text that was quoted.
  lemma QuoteReadsBack(text: string)
    ensures QuoteLiteral(text)[0] == '\'' && ReadLiteral(QuoteLiteral(text), 1) == Some(text)
  {
    PassesAreEscaped(text);
    var q := QuoteLiteral(text);
    assert q[1..] == Escaped(text) + "\'";
    hide Escaped, DoubleChar;
    EscapedReads(q, 1, text);
  }

  /* ----- decodeGenerationExpr (catalog/tables.go) ----- */

  // strings.ReplaceAll of the pair a b by c: leftmost first, not overlapping.
  function ReplacePair(s: string, a: char, b: char, c: char): string {
    if |s| < 2 then s
    else if s[0] == a && s[1] == b then [c] + ReplacePair(s[2..], a, b, c)
    else [s[0]] + ReplacePair(s[1..], a, b, c)
  }

  function DecodeGenerationExpr(s: string): string {
    ReplacePair(ReplacePair(s, '\\', '\\', '\\'), '\\', '\'', '\'')
  }

  // How MySQL stores a generated column's body: backslashes doubled, a backslash before every quote.
  function Stored(s: string): string {
    if s == "" then ""
    else (if s[0] == '\\' then "\\\\" else if s[0] == '\'' then "\\\'" else [s[0]]) + Stored(s[1..])
  }

  // After the first pass only the quotes are still escaped.
  function QuotesEscaped(s: string): string {
    if s == "" then "" else (if s[0] == '\'' then "\\\'" else [s[0]]) + QuotesEscaped(s[1..])
  }

  lemma {:induction false} FirstPass(s: string)
    ensures ReplacePair(Stored(s), '\\', '\\', '\\') == QuotesEscaped(s)
  {
    if s != "" {
      var t, rest := Stored(s), Stored(s[1..]);
      FirstPass(s[1..]);
      if s[0] == '\\' {
        assert t[0] == '\\' && t[1] == '\\' && t[2..] == rest;
      } else if s[0] == '\'' {
        assert t[0] == '\\' && t[1] == '\'' && t[1..] == ['\''] + rest;
        PlainHead('\'', rest, '\\', '\\', '\\');
        assert ['\\'] + (['\''] + ReplacePair(rest, '\\', '\\', '\\')) == "\\\'" + QuotesEscaped(s[1..]);
      } else {
        assert t == [s[0]] + rest;
        PlainHead(s[0], rest, '\\', '\\', '\\');
      }
    }
  }

  // A character that does not open the pair is copied.
  lemma PlainHead(x: char, rest: string, a: char, b: char, c: char)
    requires x != a
    ensures ReplacePair([x] + rest, a, b, c) == [x] + ReplacePair(rest, a, b, c)
  {
    assert ([x] + rest)[1..] == rest;
  }

  lemma {:induction false} SecondPass(s: string)
    ensures ReplacePair(QuotesEscaped(s), '\\', '\'', '\'') == s
  {
    if s != "" {
      var t, rest := QuotesEscaped(s), QuotesEscaped(s[1..]);
      SecondPass(s[1..]);
      assert s == [s[0]] + s[1..];
      if s[0] == '\'' {
        assert t[0] == '\\' && t[1] == '\'' && t[2..] == rest;
      } else {
        assert t[0] == s[0] && t[1..] == rest;
        NoQuoteFirst(s[1..]);
      }
    }
  }

  // An escaped text never starts with a bare quote.
  lemma NoQuoteFirst(s: string)
    ensures QuotesEscaped(s) == "" || QuotesEscaped(s)[0] != '\''
  {
  }

  // Decoding is exact for every body.
  lemma DecodeUndoesStored(s: string)
    ensures DecodeGenerationExpr(Stored(s)) == s
  {
    FirstPass(s);
    SecondPass(s);
  }

  /* ----- lowerOutsideStringLiterals (diff/expr.go) ----- */

  // Case folding as the scanner needs it: settled after one step, and never making or unmaking a quote.
  ghost predicate Lowers(low: char -> char) {
    (forall c :: low(low(c)) == low(c)) && forall c :: low(c) == '\'' <==> c == '\''
  }

  // Where the literal opened just before i ends: behind its closing quote, or at the end of the text.
  function LiteralEnd(s: string, i: nat): (e: nat)
    requires i <= |s|
    ensures i <= e <= |s|
    decreases |s| - i
  {
    if i == |s| then i
    else if s[i] == '\\' && i + 1 < |s| then LiteralEnd(s, i + 2)
    else if s[i] == '\'' then
      if i + 1 < |s| && s[i + 1] == '\'' then LiteralEnd(s, i + 2) else i + 1
    else LiteralEnd(s, i + 1)
  }

  function Marks(n: nat, b: bool): (m: seq<bool>)
    ensures |m| == n && forall i :: 0 <= i < n ==> m[i] == b
  {
    seq(n, _ => b)
  }

  // For each position from i on, whether it belongs to a literal.
  function InLiteral(s: string, i: nat): (m: seq<bool>)
    requires i <= |s|
    ensures |m| == |s| - i
    decreases |s| - i
  {
    if i == |s| then []
    else if s[i] != '\'' then [false] + InLiteral(s, i + 1)
    else
      var e := LiteralEnd(s, i + 1);
      Marks(e - i, true) + InLiteral(s, e)
  }

  function Mask(s: string): (m: seq<bool>)
    ensures |m| == |s|
  {
    InLiteral(s, 0)
  }

  // Lowered everywhere but in literals.
  function Lowered(low: char -> char, s: string): (r: string)
    ensures |r| == |s| && forall i :: 0 <= i < |s| ==> r[i] == if Mask(s)[i] then s[i] else low(s[i])
  {
    seq(|s|, i requires 0 <= i < |s| => if Mask(s)[i] then s[i] else low(s[i]))
  }

  function ToLower(low: char -> char, s: string): (r: string)
    ensures |r| == |s| && forall i :: 0 <= i < |s| ==> r[i] == low(s[i])
  {
    seq(|s|, i requires 0 <= i < |s| => low(s[i]))
  }

  lemma {:induction false} MaskOutside(s: string, i: nat)
    requires i < |s| && s[i] != '\''
    ensures InLiteral(s, i) == [false] + InLiteral(s, i + 1)
  {
  }

  lemma MaskLiteral(s: string, i: nat)
    requires i < |s| && s[i] == '\''
    ensures InLiteral(s, i) == Marks(LiteralEnd(s, i + 1) - i, true) + InLiteral(s, LiteralEnd(s, i + 1))
  {
  }

  // From i on the scanner is outside a literal.
  ghost predicate Outside(s: string, i: nat) {
    i <= |s| && Mask(s)[i..] == InLiteral(s, i)
  }

  lemma OutsideStep(s: string, i: nat)
    requires Outside(s, i) && i < |s|
    ensures s[i] != '\'' ==> Outside(s, i + 1) && !Mask(s)[i]
    ensures s[i] == '\'' ==>
      var e := LiteralEnd(s, i + 1); Outside(s, e) && forall j :: i <= j < e ==> Mask(s)[j]
  {
    var m := Mask(s);
    if s[i] != '\'' {
      MaskOutside(s, i);
      assert m[i..][1..] == m[i + 1..];
      assert m[i..][0] == m[i];
    } else {
      var e := LiteralEnd(s, i + 1);
      MaskLiteral(s, i);
      assert m[i..][e - i..] == m[e..];
      assert forall j :: i <= j < e ==> m[j] == m[i..][j - i];
    }
  }

  // The walk through one literal.
  method CopyLiteral(s: string, from: nat) returns (i: nat)
    requires from <= |s|
    ensures i == LiteralEnd(s, from)
  {
    i := from;
    while i < |s|
      invariant from <= i <= |s| && LiteralEnd(s, from) == LiteralEnd(s, i)
    {
      var c := s[i];
      if c == '\\' && i + 1 < |s| {
        i := i + 2;
        continue;
      }
      if c == '\'' {
        if i + 1 < |s| && s[i + 1] == '\'' {
          i := i + 2;
          continue;
        }
        return i + 1;
      }
      i := i + 1;
    }
  }

  // The outside text gathered since the last literal, [start, i), is still to be lowered.
  lemma FlushStep(low: char -> char, s: string, b: string, start: nat, i: nat)
    requires start <= i <= |s| && b == Lowered(low, s)[..start] && forall j :: start <= j < i ==> !Mask(s)[j]
    ensures b + ToLower(low, s[start..i]) == Lowered(low, s)[..i]
  {
  }

  lemma LiteralStep(low: char -> char, s: string, i: nat, e: nat)
    requires i <= e <= |s| && forall j :: i <= j < e ==> Mask(s)[j]
    ensures Lowered(low, s)[..i] + s[i..e] == Lowered(low, s)[..e]
  {
  }

  method LowerOutsideStringLiterals(low: char -> char, s: string) returns (b: string)
    ensures b == Lowered(low, s)
  {
    hide *;
    b := "";
    var seg := "";
    var i, start := 0, 0;
    Begin(low, s);
    while i < |s|
      invariant start <= i <= |s| && seg == s[start..i] && Outside(s, i)
      invariant b == Lowered(low, s)[..start] && forall j :: start <= j < i ==> !Mask(s)[j]
    {
      OutsideStep(s, i);
      if s[i] != '\'' {
        seg := seg + [s[i]];
        i := i + 1;
        continue;
      }
      FlushStep(low, s, b, start, i);
      b := b + ToLower(low, seg);
      seg := "";
      var e := CopyLiteral(s, i + 1);
      LiteralStep(low, s, i, e);
      b := b + s[i..e];
      i := e;
      start := e;
    }
    FlushStep(low, s, b, start, i);
    b := b + ToLower(low, seg);
    assert Lowered(low, s)[..|s|] == Lowered(low, s);
  }

  lemma Begin(low: char -> char, s: string)
    ensures Outside(s, 0) && |Lowered(low, s)| == |s| && |Mask(s)| == |s|
  {
    assert Mask(s)[0..] == Mask(s);
  }

  /* ----- where a literal ends ----- */

  // What a literal consists of: characters, each backslash with the one behind it, and doubled quotes.
  predicate Unit(u: string) {
    (|u| == 1 && u[0] != '\\' && u[0] != '\'') || (|u| == 2 && u[0] == '\\') || u == "\'\'"
  }

  ghost predicate AllUnits(us: seq<string>) {
    forall i :: 0 <= i < |us| ==> Unit(us[i])
  }

  function Concat(us: seq<string>): string {
    if us == [] then "" else us[0] + Concat(us[1..])
  }

  // The literal closes behind units at a quote that is neither escaped nor doubled.
  ghost predicate ClosesBehind(s: string, i: nat, e: nat, us: seq<string>) {
    i < e <= |s| && AllUnits(us) && s[i..e] == Concat(us) + "\'" && (e == |s| || s[e] != '\'')
  }

  // It does not close: the text runs out in it, perhaps at a lone backslash.
  ghost predicate RunsOut(s: string, i: nat, us: seq<string>) {
    i <= |s| && AllUnits(us) && (s[i..] == Concat(us) || s[i..] == Concat(us) + "\\")
  }

  lemma ConcatCons(u: string, us: seq<string>)
    requires Unit(u) && AllUnits(us)
    ensures AllUnits([u] + us) && Concat([u] + us) == u + Concat(us)
  {
    assert ([u] + us)[1..] == us;
  }

  lemma ClosesCons(s: string, i: nat, e: nat, u: string, us: seq<string>)
    requires Unit(u) && i + |u| <= |s| && s[i..i + |u|] == u && ClosesBehind(s, i + |u|, e, us)
    ensures ClosesBehind(s, i, e, [u] + us)
  {
    ConcatCons(u, us);
    hide Concat, Unit;
    assert s[i..e] == s[i..i + |u|] + s[i + |u|..e];
  }

  lemma RunsOutCons(s: string, i: nat, u: string, us: seq<string>)
    requires Unit(u) && i + |u| <= |s| && s[i..i + |u|] == u && RunsOut(s, i + |u|, us)
    ensures RunsOut(s, i, [u] + us)
  {
    ConcatCons(u, us);
    hide Concat, Unit;
    assert s[i..] == s[i..i + |u|] + s[i + |u|..];
  }

  // The scan from behind an opening quote stops behind the closing quote, or at the end of the text without one.
  ghost predicate ReadAsUnits(s: string, i: nat)
    requires i <= |s|
  {
    (exists us: seq<string> :: ClosesBehind(s, i, LiteralEnd(s, i), us)) ||
    (LiteralEnd(s, i) == |s| && exists us: seq<string> :: RunsOut(s, i, us))
  }

  lemma NoUnits(s: string, i: nat)
    requires i <= |s|
    requires i == |s| || (s[i] == '\\' && i + 1 == |s|) || (s[i] == '\'' && !(i + 1 < |s| && s[i + 1] == '\''))
    ensures ReadAsUnits(s, i)
  {
    if i < |s| && s[i] == '\'' {
      assert s[i..i + 1] == Concat([]) + "\'";
      assert ClosesBehind(s, i, i + 1, []);
    } else {
      if i < |s| { assert s[i..] == Concat([]) + "\\" && LiteralEnd(s, i + 1) == |s|; }
      assert RunsOut(s, i, []);
    }
  }

  lemma OneUnit(s: string, i: nat, next: nat)
    requires i < next <= |s| && Unit(s[i..next]) && LiteralEnd(s, next) == LiteralEnd(s, i) && ReadAsUnits(s, next)
    ensures ReadAsUnits(s, i)
  {
    hide Unit, LiteralEnd, ClosesBehind, RunsOut;
    var u, e := s[i..next], LiteralEnd(s, next);
    assert i + |u| == next;
    if us: seq<string> :| ClosesBehind(s, next, e, us) {
      ClosesCons(s, i, e, u, us);
    } else {
      var us: seq<string> :| RunsOut(s, next, us);
      RunsOutCons(s, i, u, us);
    }
  }

  lemma {:induction false} LiteralIsUnits(s: string, i: nat)
    requires i <= |s|
    ensures ReadAsUnits(s, i)
    decreases |s| - i
  {
    if i == |s| || (s[i] == '\\' && i + 1 == |s|) || (s[i] == '\'' && !(i + 1 < |s| && s[i + 1] == '\'')) {
      NoUnits(s, i);
    } else {
      hide ReadAsUnits;
      var next := if s[i] == '\\' || s[i] == '\'' then i + 2 else i + 1;
      assert s[i..next][0] == s[i];
      LiteralIsUnits(s, next);
      OneUnit(s, i, next);
    }
  }

  // A place where it may close is where the scan ends: the reading is unique.
  lemma {:induction false} LiteralEndIs(s: string, i: nat, e: nat, us: seq<string>)
    requires ClosesBehind(s, i, e, us)
    ensures LiteralEnd(s, i) == e
    decreases |us|
  {
    if us == [] {
      assert s[i..e] == "\'";
      assert s[i] == s[i..e][0] == '\'';
    } else {
      var u, rest := us[0], us[1..];
      var tail := Concat(rest) + "\'";
      assert s[i..e] == u + tail;
      assert e == i + |u| + |tail|;
      assert s[i..e][..|u|] == s[i..i + |u|] && s[i..e][|u|..] == s[i + |u|..e];
      assert s[i] == s[i..e][0] == u[0];
      if |u| == 2 { assert s[i + 1] == s[i..e][1] == u[1]; }
      assert Unit(u);
      hide Concat;
      LiteralEndIs(s, i + |u|, e, rest);
    }
  }

  /* ----- what lowering keeps ----- */

  // Whether position j belongs to a literal, as seen by a scan that starts outside one at i.
  predicate MarkAt(s: string, i: nat, j: nat)
    requires i <= j < |s|
  {
    InLiteral(s, i)[j - i]
  }

  // Two texts with the same literals, and quotes nowhere else.
  ghost predicate SameMarks(s: string, t: string, i: nat) {
    |s| == |t| && i <= |s| &&
    forall j :: i <= j < |s| ==> if MarkAt(s, i, j) then t[j] == s[j] else t[j] == '\'' <==> s[j] == '\''
  }

  lemma MarksOutside(s: string, t: string, i: nat)
    requires SameMarks(s, t, i) && i < |s| && s[i] != '\''
    ensures t[i] != '\'' && SameMarks(s, t, i + 1)
  {
    MaskOutside(s, i);
    hide InLiteral;
    assert !MarkAt(s, i, i);
    forall j | i + 1 <= j < |s| ensures MarkAt(s, i + 1, j) == MarkAt(s, i, j) {}
  }

  lemma MarksLiteral(s: string, t: string, i: nat)
    requires SameMarks(s, t, i) && i < |s| && s[i] == '\''
    ensures var e := LiteralEnd(s, i + 1);
      t[i] == '\'' && s[i + 1..e] == t[i + 1..e] && (e < |s| ==> (s[e] == '\'' <==> t[e] == '\'')) && SameMarks(s, t, e)
  {
    var e := LiteralEnd(s, i + 1);
    forall j | i <= j < |s| ensures j < e ==> MarkAt(s, i, j)
      ensures j >= e ==> MarkAt(s, e, j) == MarkAt(s, i, j)
    {
      MarkIn(s, i, j);
    }
    hide InLiteral, LiteralEnd, MarkAt;
    assert forall j :: i <= j < e ==> t[j] == s[j];
  }

  lemma MarkIn(s: string, i: nat, j: nat)
    requires i <= j < |s| && s[i] == '\''
    ensures var e := LiteralEnd(s, i + 1);
      (j < e ==> MarkAt(s, i, j)) && (j >= e ==> MarkAt(s, e, j) == MarkAt(s, i, j))
  {
    MaskLiteral(s, i);
    hide LiteralEnd;
  }

  lemma {:induction false} SameEnd(s: string, t: string, i: nat)
    requires |s| == |t| && i <= |s| && s[i..LiteralEnd(s, i)] == t[i..LiteralEnd(s, i)]
    requires var e := LiteralEnd(s, i); e < |s| ==> (s[e] == '\'' <==> t[e] == '\'')
    ensures LiteralEnd(t, i) == LiteralEnd(s, i)
    decreases |s| - i
  {
    var e := LiteralEnd(s, i);
    if i < |s| {
      assert s[i] == s[i..e][0] && t[i] == t[i..e][0];
      var step :=
        if s[i] == '\\' && i + 1 < |s| then 2
        else if s[i] == '\'' then if i + 1 < |s| && s[i + 1] == '\'' then 2 else 0
        else 1;
      if step == 2 { assert s[i + 1] == s[i..e][1] && t[i + 1] == t[i..e][1]; }
      if step > 0 {
        assert s[i + step..e] == s[i..e][step..] && t[i + step..e] == t[i..e][step..];
        SameEnd(s, t, i + step);
      }
    }
  }

  lemma {:induction false} SameMask(s: string, t: string, i: nat)
    requires |s| == |t| && i <= |s| && SameMarks(s, t, i)
    ensures InLiteral(t, i) == InLiteral(s, i)
    decreases |s| - i
  {
    hide *;
    if i == |s| {
      MaskAtEnd(s, t);
    } else if s[i] != '\'' {
      MarksOutside(s, t, i);
      SameMask(s, t, i + 1);
      MaskOutside(s, i);
      MaskOutside(t, i);
    } else {
      MarksLiteral(s, t, i);
      SameEnd(s, t, i + 1);
      SameMask(s, t, LiteralEnd(s, i + 1));
      MaskLiteral(s, i);
      MaskLiteral(t, i);
    }
  }

  lemma MaskAtEnd(s: string, t: string)
    requires |s| == |t|
    ensures InLiteral(t, |s|) == InLiteral(s, |s|)
  {
  }

  lemma MaskOfLowered(low: char -> char, s: string)
    requires Lowers(low)
    ensures Mask(Lowered(low, s)) == Mask(s)
  {
    var t := Lowered(low, s);
    forall j | 0 <= j < |s| ensures if MarkAt(s, 0, j) then t[j] == s[j] else t[j] == '\'' <==> s[j] == '\'' {
      assert MarkAt(s, 0, j) == Mask(s)[j];
    }
    SameMask(s, t, 0);
  }

  // Lowering twice is lowering once.
  lemma LoweredTwice(low: char -> char, s: string)
    requires Lowers(low)
    ensures Lowered(low, Lowered(low, s)) == Lowered(low, s)
  {
    MaskOfLowered(low, s);
    hide Mask;
  }

  // Two texts lower alike exactly when their literals stand at the same places with the same content and
  // everything around them differs in case only.
  lemma LoweredAlike(low: char -> char, s: string, t: string)
    requires Lowers(low)
    ensures Lowered(low, s) == Lowered(low, t) <==>
      |s| == |t| && Mask(s) == Mask(t) &&
      forall i :: 0 <= i < |s| ==> if Mask(s)[i] then s[i] == t[i] else low(s[i]) == low(t[i])
  {
    MaskOfLowered(low, s);
    MaskOfLowered(low, t);
    hide Mask;
    var a, b := Lowered(low, s), Lowered(low, t);
    if a == b {
      assert Mask(s) == Mask(t);
      forall i | 0 <= i < |s| ensures if Mask(s)[i] then s[i] == t[i] else low(s[i]) == low(t[i]) {
        assert a[i] == b[i];
      }
    }
  }

  /* ----- a quoted literal passes through ----- */

  lemma {:induction false} EscapedEnds(s: string, i: nat, text: string)
    requires i + |Escaped(text)| + 1 <= |s| && s[i..i + |Escaped(text)| + 1] == Escaped(text) + "\'"
    requires var e := i + |Escaped(text)| + 1; e == |s| || s[e] != '\''
    ensures LiteralEnd(s, i) == i + |Escaped(text)| + 1
    decreases |text|
  {
    if text != "" {
      var lead := if text[0] == '\\' then "\\\\" else if text[0] == '\'' then "\'\'" else [text[0]];
      EscapedSplits(s, i, lead, Escaped(text[1..]) + "\'");
      assert Escaped(text) + "\'" == lead + (Escaped(text[1..]) + "\'");
      hide Escaped;
      EscapedEnds(s, i + |lead|, text[1..]);
    } else {
      assert s[i] == s[i..i + 1][0];
    }
  }

  lemma EscapedSplits(s: string, i: nat, lead: string, rest: string)
    requires lead != "" && i + |lead| + |rest| <= |s|
    ensures s[i..i + |lead| + |rest|] == lead + rest ==>
      s[i] == lead[0] && (|lead| == 2 ==> s[i + 1] == lead[1]) && s[i + |lead|..i + |lead| + |rest|] == rest
  {
    var n := i + |lead| + |rest|;
    if s[i..n] == lead + rest {
      assert s[i..n][0] == lead[0];
      if |lead| == 2 { assert s[i..n][1] == lead[1]; }
      assert s[i + |lead|..n] == s[i..n][|lead|..];
    }
  }

  // What QuoteLiteral wrote is one literal to the scanner, and comes out as it went in.
  lemma QuotedPassesThrough(low: char -> char, before: string, text: string, after: string)
    requires Outside(before + QuoteLiteral(text) + after, |before|) && (after == "" || after[0] != '\'')
    ensures var s, n := before + QuoteLiteral(text) + after, |before| + |QuoteLiteral(text)|;
      Outside(s, n) && Lowered(low, s)[|before|..n] == QuoteLiteral(text)
  {
    hide *;
    var s, i, n := before + QuoteLiteral(text) + after, |before|, |before| + |QuoteLiteral(text)|;
    QuotedStands(before, text, after);
    EscapedEnds(s, i + 1, text);
    OutsideStep(s, i);
    LiteralStep(low, s, i, n);
    LoweredSlice(low, s, i, n);
  }

  // Where the parts of a quoted literal stand.
  lemma QuotedStands(before: string, text: string, after: string)
    requires after == "" || after[0] != '\''
    ensures var s, i, n := before + QuoteLiteral(text) + after, |before|, |before| + |QuoteLiteral(text)|;
      n == i + 1 + |Escaped(text)| + 1 <= |s| && s[i] == '\'' && s[i + 1..n] == Escaped(text) + "\'" &&
      s[i..n] == QuoteLiteral(text) &&
      (n < |s| ==> s[n] != '\'')
  {
    PassesAreEscaped(text);
    hide Escaped, DoubleChar;
    var q := QuoteLiteral(text);
    var s, i, n := before + q + after, |before|, |before| + |q|;
    assert q == "\'" + (Escaped(text) + "\'");
    assert s[i..n] == q;
    assert s[i] == q[0];
    assert s[i + 1..n] == q[1..];
    if n < |s| { assert s[n] == after[0]; }
  }

  lemma LoweredSlice(low: char -> char, s: string, i: nat, n: nat)
    requires i <= n <= |s| && Lowered(low, s)[..i] + s[i..n] == Lowered(low, s)[..n]
    ensures Lowered(low, s)[i..n] == s[i..n]
  {
    var r := Lowered(low, s);
    assert r[i..n] == r[..n][i..];
  }

  /* ----- lowering, piece by piece ----- */

  // x stands at the end of s, from n on.
  ghost predicate Behind(s: string, n: nat, x: string) {
    n + |x| == |s| && forall k :: 0 <= k < |x| ==> s[n + k] == x[k]
  }

  lemma {:induction false} EndShifts(s: string, n: nat, x: string, i: nat)
    requires Behind(s, n, x) && i <= |x|
    ensures LiteralEnd(s, n + i) == n + LiteralEnd(x, i)
    decreases |x| - i
  {
    if i < |x| {
      assert s[n + i] == x[i];
      if i + 1 < |x| { assert s[n + (i + 1)] == x[i + 1]; }
      hide Behind;
      var two := i + 1 < |x| && (x[i] == '\\' || (x[i] == '\'' && x[i + 1] == '\''));
      if two {
        EndShifts(s, n, x, i + 2);
      } else {
        EndShifts(s, n, x, i + 1);
      }
    }
  }

  lemma BehindAt(s: string, n: nat, x: string, i: nat)
    requires Behind(s, n, x) && i <= |x|
    ensures n + |x| == |s| && (i < |x| ==> s[n + i] == x[i])
  {
  }

  lemma {:induction false} MaskShifts(s: string, n: nat, x: string, i: nat)
    requires Behind(s, n, x) && i <= |x|
    ensures n + i <= |s| && InLiteral(s, n + i) == InLiteral(x, i)
    decreases |x| - i
  {
    hide *;
    BehindAt(s, n, x, i);
    var at := n + i;
    if i == |x| {
      EmptyMask(s);
      EmptyMask(x);
    } else if x[i] != '\'' {
      MaskOutside(s, at);
      MaskOutside(x, i);
      MaskShifts(s, n, x, i + 1);
      assert at + 1 == n + (i + 1);
    } else {
      var e := LiteralEnd(x, i + 1);
      MaskLiteral(s, at);
      MaskLiteral(x, i);
      EndShifts(s, n, x, i + 1);
      assert at + 1 == n + (i + 1);
      assert LiteralEnd(s, at + 1) == n + e && n + e - at == e - i;
      MaskShifts(s, n, x, e);
    }
  }

  lemma EmptyMask(s: string)
    ensures InLiteral(s, |s|) == []
  {
  }

  lemma MaskBehind(a: string, x: string)
    ensures InLiteral(a + x, |a|) == Mask(x)
  {
    assert Behind(a + x, |a|, x);
    MaskShifts(a + x, |a|, x, 0);
    hide InLiteral, Behind;
  }

  lemma Glued(r: string, u: string, v: string)
    requires |r| == |u| + |v| && r[|u|..] == v && forall i :: 0 <= i < |u| ==> r[i] == u[i]
    ensures r == u + v
  {
  }

  // A text whose first part ends outside literals is lowered part by part.
  lemma LoweredParts(low: char -> char, a: string, x: string, m: seq<bool>)
    requires |m| == |a| && Mask(a + x) == m + Mask(x)
    ensures var r := Lowered(low, a + x);
      r[|a|..] == Lowered(low, x) && forall i :: 0 <= i < |a| ==> r[i] == if m[i] then a[i] else low(a[i])
  {
    hide Mask;
    var r := Lowered(low, a + x);
    forall i | 0 <= i < |x| ensures r[|a|..][i] == Lowered(low, x)[i] {
      assert (a + x)[|a| + i] == x[i];
      assert Mask(a + x)[|a| + i] == Mask(x)[i];
    }
  }

  // Without quotes everything is lowered.
  lemma {:induction false} PlainMask(a: string, x: string, i: nat)
    requires i <= |a| && '\'' !in a
    ensures InLiteral(a + x, i) == Marks(|a| - i, false) + Mask(x)
    decreases |a| - i
  {
    if i == |a| {
      MaskBehind(a, x);
    } else {
      assert (a + x)[i] == a[i];
      PlainMask(a, x, i + 1);
    }
  }

  lemma PlainFirst(low: char -> char, a: string, x: string)
    requires '\'' !in a
    ensures Lowered(low, a + x) == ToLower(low, a) + Lowered(low, x)
  {
    PlainMask(a, x, 0);
    assert Mask(a + x) == Marks(|a|, false) + Mask(x);
    hide *;
    LoweredParts(low, a, x, Marks(|a|, false));
    Glued(Lowered(low, a + x), ToLower(low, a), Lowered(low, x));
  }

  function Literal(us: seq<string>): string {
    "\'" + (Concat(us) + "\'")
  }

  // A literal is copied.
  lemma LiteralFirst(low: char -> char, us: seq<string>, x: string)
    requires AllUnits(us) && (x == "" || x[0] != '\'')
    ensures Lowered(low, Literal(us) + x) == Literal(us) + Lowered(low, x)
  {
    var a := Literal(us);
    var s, e := a + x, |a|;
    assert s[1..e] == a[1..] == Concat(us) + "\'";
    assert s[0] == '\'' && (e == |s| || s[e] == x[0]);
    assert ClosesBehind(s, 1, e, us);
    LiteralEndIs(s, 1, e, us);
    MaskLiteral(s, 0);
    MaskBehind(a, x);
    hide *;
    LoweredParts(low, a, x, Marks(|a|, true));
    Glued(Lowered(low, s), a, Lowered(low, x));
  }

  // Text without quotes and literals in turn; `f` says what becomes of the text.
  function Woven(f: string -> string, plain: seq<string>, literals: seq<seq<string>>): string
    requires |plain| == |literals| + 1
  {
    if literals == [] then f(plain[0])
    else f(plain[0]) + (Literal(literals[0]) + Woven(f, plain[1..], literals[1..]))
  }

  // In every text made of plain parts and literals the plain parts are lowered and the literals are not.
  lemma {:induction false} LowersPlainParts(low: char -> char, plain: seq<string>, literals: seq<seq<string>>)
    requires |plain| == |literals| + 1
    requires forall i :: 0 <= i < |plain| ==> '\'' !in plain[i] && (0 < i < |literals| ==> plain[i] != "")
    requires forall i :: 0 <= i < |literals| ==> AllUnits(literals[i])
    ensures Lowered(low, Woven(x => x, plain, literals)) == Woven(x => ToLower(low, x), plain, literals)
    decreases |literals|
  {
    hide Lowered, ToLower, AllUnits, Literal;
    if literals == [] {
      PlainFirst(low, plain[0], "");
      assert plain[0] + "" == plain[0] && Lowered(low, "") == "";
      assert ToLower(low, plain[0]) + "" == ToLower(low, plain[0]);
    } else {
      var rest := Woven(x => x, plain[1..], literals[1..]);
      assert plain[1..][0] == plain[1];
      WovenStarts(plain[1..], literals[1..]);
      PlainFirst(low, plain[0], Literal(literals[0]) + rest);
      LiteralFirst(low, literals[0], rest);
      LowersPlainParts(low, plain[1..], literals[1..]);
    }
  }

  lemma WovenStarts(plain: seq<string>, literals: seq<seq<string>>)
    requires |plain| == |literals| + 1 && '\'' !in plain[0] && (literals != [] ==> plain[0] != "")
    ensures var s := Woven(x => x, plain, literals); s == "" || s[0] != '\''
  {
    hide Literal;
  }
}
