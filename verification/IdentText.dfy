/** Identifiers as text: printing a name, and the scanner that has to find its end again. */
module IdentText {
  import opened Common

  /* ----- printing (model/util.go) ----- */

  predicate Letter(c: char) {
    'a' <= c <= 'z' || 'A' <= c <= 'Z'
  }

  predicate Digit(c: char) {
    '0' <= c <= '9'
  }

  // What an unquoted identifier may consist of.
  predicate IdentChar(c: char) {
    Letter(c) || Digit(c) || c == '_' || c == '$'
  }

  // ^[a-zA-Z_][a-zA-Z0-9_$]*$
  predicate Safe(name: string) {
    name != "" && (Letter(name[0]) || name[0] == '_') && forall i :: 0 <= i < |name| ==> IdentChar(name[i])
  }

  // Every backtick doubled.
  function Doubled(name: string): string {
    if name == "" then ""
    else (if name[0] == '`' then "``" else [name[0]]) + Doubled(name[1..])
  }

  function Quote(name: string): string {
    "`" + Doubled(name) + "`"
  }

  // `reserved` lists MySQL's reserved words in lower case.
  function QuoteIdent(reserved: string -> bool, name: string): string {
    if name == "" then "``"
    else if !Safe(name) || reserved(Fold(name)) then Quote(name)
    else name
  }

  function Join(parts: seq<string>, sep: string): string {
    if parts == [] then ""
    else if |parts| == 1 then parts[0]
    else parts[0] + sep + Join(parts[1..], sep)
  }

  function NonEmpty(names: seq<string>): seq<string> {
    if names == [] then [] else (if names[0] == "" then [] else [names[0]]) + NonEmpty(names[1..])
  }

  function Quoted(reserved: string -> bool, names: seq<string>): (r: seq<string>)
    ensures |r| == |names| && forall i :: 0 <= i < |names| ==> r[i] == QuoteIdent(reserved, names[i])
  {
    seq(|names|, i requires 0 <= i < |names| => QuoteIdent(reserved, names[i]))
  }

  // Empty parts are skipped.
  function Ident(reserved: string -> bool, names: seq<string>): string {
    Join(Quoted(reserved, NonEmpty(names)), ".")
  }

  /* ----- scanning (diff_all.go) ----- */

  function SkipBare(s: string, pos: nat): (q: nat)
    requires pos <= |s|
    ensures pos <= q <= |s|
    decreases |s| - pos
  {
    if pos < |s| && IdentChar(s[pos]) then SkipBare(s, pos + 1) else pos
  }

  // From behind the opening backtick to behind the closing one; a doubled backtick is part of the name.
  function SkipTicked(s: string, pos: nat): (q: nat)
    requires pos <= |s|
    ensures pos <= q <= |s|
    decreases |s| - pos
  {
    if pos == |s| then pos
    else if s[pos] != '`' then SkipTicked(s, pos + 1)
    else if pos + 1 < |s| && s[pos + 1] == '`' then SkipTicked(s, pos + 2)
    else pos + 1
  }

  function SkipOne(s: string, pos: nat): (q: nat)
    requires pos <= |s|
    ensures pos <= q <= |s|
  {
    if pos == |s| then pos else if s[pos] == '`' then SkipTicked(s, pos + 1) else SkipBare(s, pos)
  }

  // One identifier or a chain joined by dots.
  function SkipChain(s: string, pos: nat): (q: nat)
    requires pos <= |s|
    ensures pos <= q <= |s|
    decreases |s| - pos
  {
    var q := SkipOne(s, pos);
    if q < |s| && s[q] == '.' then SkipChain(s, q + 1) else q
  }

  method SkipIdentifier(s: string, from: nat) returns (pos: nat)
    requires from <= |s|
    ensures pos == SkipOne(s, from)
  {
    pos := from;
    if pos >= |s| { return; }
    if s[pos] == '`' {
      pos := pos + 1;
      while pos < |s|
        invariant from < pos <= |s| && SkipTicked(s, from + 1) == SkipTicked(s, pos)
      {
        if s[pos] == '`' {
          if pos + 1 < |s| && s[pos + 1] == '`' {
            pos := pos + 2;
            continue;
          }
          return pos + 1;
        }
        pos := pos + 1;
      }
      return;
    }
    while pos < |s|
      invariant from <= pos <= |s| && SkipBare(s, from) == SkipBare(s, pos)
    {
      if !IdentChar(s[pos]) { break; }
      pos := pos + 1;
    }
  }

  method SkipQualifiedIdentifier(s: string, from: nat) returns (pos: nat)
    requires from <= |s|
    ensures pos == SkipChain(s, from)
  {
    pos := from;
    while pos < |s|
      invariant from <= pos <= |s| && SkipChain(s, from) == SkipChain(s, pos)
    {
      var q := SkipIdentifier(s, pos);
      if q < |s| && s[q] == '.' {
        pos := q + 1;
        continue;
      }
      return q;
    }
  }

  /* ----- the scanner undoes the printer ----- */

  // `m` stands in `s` at `pos`.
  ghost predicate At(s: string, pos: nat, m: string) {
    pos + |m| <= |s| && s[pos..pos + |m|] == m
  }

  // The text behind `pos` does not carry an identifier on.
  ghost predicate Ends(s: string, pos: nat) {
    pos == |s| || (pos < |s| && !IdentChar(s[pos]) && s[pos] != '`' && s[pos] != '.')
  }

  lemma {:induction false} BareEnds(s: string, pos: nat, q: nat)
    requires pos <= q <= |s| && (forall i :: pos <= i < q ==> IdentChar(s[i])) && (q == |s| || !IdentChar(s[q]))
    ensures SkipBare(s, pos) == q
    decreases q - pos
  {
    if pos < q { BareEnds(s, pos + 1, q); }
  }

  lemma {:induction false} TickedEnds(s: string, pos: nat, name: string)
    requires At(s, pos, Doubled(name) + "`")
    requires var q := pos + |Doubled(name)| + 1; q == |s| || s[q] != '`'
    ensures SkipTicked(s, pos) == pos + |Doubled(name)| + 1
    decreases |name|
  {
    TickedSplits(s, pos, name);
    if name != "" {
      hide At, Doubled;
      TickedEnds(s, pos + (if name[0] == '`' then 2 else 1), name[1..]);
    }
  }

  lemma TickedSplits(s: string, pos: nat, name: string)
    requires At(s, pos, Doubled(name) + "`")
    ensures pos + |Doubled(name)| + 1 <= |s|
    ensures name == "" ==> Doubled(name) == "" && s[pos] == '`'
    ensures name != "" ==>
      (var step := if name[0] == '`' then 2 else 1;
      |Doubled(name)| == step + |Doubled(name[1..])| && At(s, pos + step, Doubled(name[1..]) + "`") &&
      s[pos] == name[0] &&
      (step == 2 ==> s[pos + 1] == '`'))
  {
    if name != "" {
      var lead := if name[0] == '`' then "``" else [name[0]];
      var rest := Doubled(name[1..]) + "`";
      assert Doubled(name) + "`" == lead + rest;
      hide Doubled;
      AtSplits(s, pos, lead, rest);
      PickAt(s, pos, lead);
      assert s[pos + 0] == lead[0];
      if |lead| == 2 { assert s[pos + 1] == lead[1]; }
    } else {
      PickAt(s, pos, "`");
      assert s[pos + 0] == '`';
    }
  }

  lemma AtSplits(s: string, pos: nat, a: string, b: string)
    requires At(s, pos, a + b)
    ensures At(s, pos, a) && At(s, pos + |a|, b)
  {
    var m := a + b;
    assert s[pos..pos + |m|][..|a|] == s[pos..pos + |a|];
    assert s[pos..pos + |m|][|a|..] == s[pos + |a|..pos + |m|];
    assert m[..|a|] == a && m[|a|..] == b;
  }

  lemma PickAt(s: string, pos: nat, m: string)
    requires At(s, pos, m)
    ensures forall i :: 0 <= i < |m| ==> s[pos + i] == m[i]
  {
    forall i | 0 <= i < |m| ensures s[pos + i] == m[i] { assert s[pos..pos + |m|][i] == m[i]; }
  }

  // One printed name is scanned to its end.
  lemma OneEnds(reserved: string -> bool, s: string, pos: nat, name: string)
    requires At(s, pos, QuoteIdent(reserved, name)) && name != ""
    requires var q := pos + |QuoteIdent(reserved, name)|; q == |s| || (!IdentChar(s[q]) && s[q] != '`')
    ensures SkipOne(s, pos) == pos + |QuoteIdent(reserved, name)|
  {
    var m := QuoteIdent(reserved, name);
    PickAt(s, pos, m);
    assert s[pos] == m[0];
    if !Safe(name) || reserved(Fold(name)) {
      assert m == "`" + (Doubled(name) + "`");
      assert s[pos + 1..pos + |m|] == m[1..] == Doubled(name) + "`";
      TickedEnds(s, pos + 1, name);
    } else {
      forall i | pos <= i < pos + |m| ensures IdentChar(s[i]) { assert s[pos + (i - pos)] == m[i - pos]; }
      BareEnds(s, pos, pos + |m|);
    }
  }

  // How MySQL reads a name: between backticks everything counts and a doubled backtick is one; without them it must be
  // a word that is not reserved and does not start with a digit or a dollar sign.
  function ReadTicked(s: string, pos: nat): Option<string>
    requires pos <= |s|
    decreases |s| - pos
  {
    if pos == |s| then None
    else if s[pos] == '`' && pos + 1 == |s| then Some("")
    else if s[pos] == '`' && s[pos + 1] != '`' then None
    else
      var rest := ReadTicked(s, if s[pos] == '`' then pos + 2 else pos + 1);
      if rest.None? then None else Some([s[pos]] + rest.value)
  }

  predicate PlainChar(c: char) {
    'a' <= c <= 'z' || 'A' <= c <= 'Z' || '0' <= c <= '9' || c == '_' || c == '$'
  }

  ghost predicate PlainWord(reserved: string -> bool, s: string) {
    s != "" && !('0' <= s[0] <= '9') && s[0] != '$' && !reserved(Fold(s)) &&
    forall i :: 0 <= i < |s| ==> PlainChar(s[i])
  }

  ghost function ReadName(reserved: string -> bool, s: string): Option<string> {
    if s != "" && s[0] == '`' then ReadTicked(s, 1) else if PlainWord(reserved, s) then Some(s) else None
  }

  lemma {:induction false} TickedReads(s: string, pos: nat, name: string)
    requires At(s, pos, Doubled(name) + "`") && pos + |Doubled(name)| + 1 == |s|
    ensures ReadTicked(s, pos) == Some(name)
    decreases |name|
  {
    TickedSplits(s, pos, name);
    if name != "" {
      hide At, Doubled;
      TickedReads(s, pos + (if name[0] == '`' then 2 else 1), name[1..]);
      assert name == [name[0]] + name[1..];
    }
  }

  lemma SafeIsPlain(reserved: string -> bool, name: string)
    requires Safe(name) && !reserved(Fold(name))
    ensures PlainWord(reserved, name) && name[0] != '`'
  {
    forall i | 0 <= i < |name| ensures PlainChar(name[i]) { assert IdentChar(name[i]); }
  }

  // A printed name is read back as the name, whatever characters it holds and whichever words are reserved.
  lemma NameReadsBack(reserved: string -> bool, name: string)
    requires name != ""
    ensures ReadName(reserved, QuoteIdent(reserved, name)) == Some(name)
  {
    if !Safe(name) || reserved(Fold(name)) {
      var m := "`" + (Doubled(name) + "`");
      assert QuoteIdent(reserved, name) == m;
      assert m[1..] == Doubled(name) + "`";
      TickedReads(m, 1, name);
    } else {
      SafeIsPlain(reserved, name);
    }
    hide Safe, Doubled, ReadTicked, PlainWord;
  }

  // skipQualifiedIdentifier stops exactly behind what Ident printed.
  lemma {:induction false} ScanUndoesPrint(reserved: string -> bool, s: string, pos: nat, names: seq<string>)
    requires names != [] && (forall i :: 0 <= i < |names| ==> names[i] != "")
    requires At(s, pos, Join(Quoted(reserved, names), ".")) && Ends(s, pos + |Join(Quoted(reserved, names), ".")|)
    ensures SkipChain(s, pos) == pos + |Join(Quoted(reserved, names), ".")|
    decreases |names|
  {
    hide *;
    JoinSplits(reserved, names);
    var head := QuoteIdent(reserved, names[0]);
    if |names| == 1 {
      EndsMeans(s, pos + |head|);
      AtFits(s, pos, head);
      OneEnds(reserved, s, pos, names[0]);
      ChainIs(s, pos);
    } else {
      var rest := Join(Quoted(reserved, names[1..]), ".");
      ChainSplits(s, pos, head, rest);
      AtFits(s, pos + |head| + 1, rest);
      DotIsNoName();
      OneEnds(reserved, s, pos, names[0]);
      ChainIs(s, pos);
      assert pos + |head + "." + rest| == pos + |head| + 1 + |rest|;
      ScanUndoesPrint(reserved, s, pos + |head| + 1, names[1..]);
    }
  }

  lemma EndsMeans(s: string, pos: nat)
    requires Ends(s, pos)
    ensures pos == |s| || (pos < |s| && !IdentChar(s[pos]) && s[pos] != '`' && s[pos] != '.')
  {
  }

  lemma DotIsNoName()
    ensures !IdentChar('.') && !IdentChar(' ')
  {
  }

  lemma AtFits(s: string, pos: nat, m: string)
    requires At(s, pos, m)
    ensures pos + |m| <= |s|
  {
  }

  lemma ChainIs(s: string, pos: nat)
    requires pos <= |s|
    ensures SkipChain(s, pos) ==
      if SkipOne(s, pos) < |s| && s[SkipOne(s, pos)] == '.' then SkipChain(s, SkipOne(s, pos) + 1) else SkipOne(s, pos)
  {
  }

  lemma JoinSplits(reserved: string -> bool, names: seq<string>)
    requires names != []
    ensures Join(Quoted(reserved, names), ".") ==
      if |names| == 1 then QuoteIdent(reserved, names[0])
      else QuoteIdent(reserved, names[0]) + "." + Join(Quoted(reserved, names[1..]), ".")
  {
    assert Quoted(reserved, names)[1..] == Quoted(reserved, names[1..]);
  }

  lemma ChainSplits(s: string, pos: nat, head: string, rest: string)
    requires At(s, pos, head + "." + rest)
    ensures At(s, pos, head) && s[pos + |head|] == '.' && At(s, pos + |head| + 1, rest)
  {
    assert head + "." + rest == head + ("." + rest);
    AtSplits(s, pos, head, "." + rest);
    AtSplits(s, pos + |head|, ".", rest);
    PickAt(s, pos + |head|, ".");
    assert s[pos + |head| + 0] == '.';
  }

  lemma {:induction false} NonEmptyHas(names: seq<string>)
    ensures forall i :: 0 <= i < |NonEmpty(names)| ==> NonEmpty(names)[i] != ""
  {
    if names != [] { NonEmptyHas(names[1..]); }
  }

  // The printed name followed by a space, as every ALTER TABLE has it.
  lemma IdentScans(reserved: string -> bool, before: string, names: seq<string>, after: string)
    requires NonEmpty(names) != []
    ensures var m := Ident(reserved, names);
      SkipChain(before + m + " " + after, |before|) == |before| + |m|
  {
    hide *;
    var m := Ident(reserved, names);
    NonEmptyHas(names);
    AtMiddle(before, m, after);
    IdentIs(reserved, names);
    ScanUndoesPrint(reserved, before + m + " " + after, |before|, NonEmpty(names));
  }

  lemma IdentIs(reserved: string -> bool, names: seq<string>)
    ensures Ident(reserved, names) == Join(Quoted(reserved, NonEmpty(names)), ".")
  {
  }

  lemma AtMiddle(before: string, m: string, after: string)
    ensures At(before + m + " " + after, |before|, m) && Ends(before + m + " " + after, |before| + |m|)
  {
    var s := before + m + " " + after;
    assert s[|before|..|before| + |m|] == m;
    assert s[|before| + |m|] == ' ';
  }

  /* ----- printing is injective ----- */

  lemma {:induction false} DoubledInjective(a: string, b: string)
    requires Doubled(a) == Doubled(b)
    ensures a == b
  {
    if a == "" || b == "" {
    } else {
      assert Doubled(a)[0] == a[0] && Doubled(b)[0] == b[0];
      var step := if a[0] == '`' then 2 else 1;
      assert Doubled(a)[step..] == Doubled(a[1..]) && Doubled(b)[step..] == Doubled(b[1..]);
      DoubledInjective(a[1..], b[1..]);
      assert a == [a[0]] + a[1..] && b == [b[0]] + b[1..];
    }
  }

  lemma QuoteIdentInjective(reserved: string -> bool, a: string, b: string)
    requires a != "" && b != "" && QuoteIdent(reserved, a) == QuoteIdent(reserved, b)
    ensures a == b
  {
    var x, y := QuoteIdent(reserved, a), QuoteIdent(reserved, b);
    if x[0] == '`' {
      assert x == Quote(a) && y == Quote(b);
      assert x[1..|x| - 1] == Doubled(a) && y[1..|y| - 1] == Doubled(b);
      DoubledInjective(a, b);
    }
  }

  // Where the first printed name of a chain ends.
  lemma FirstEnds(reserved: string -> bool, names: seq<string>)
    requires names != [] && forall i :: 0 <= i < |names| ==> names[i] != ""
    ensures var m, head := Join(Quoted(reserved, names), "."), QuoteIdent(reserved, names[0]);
      SkipOne(m, 0) == |head| && head == m[..|head|] &&
      (if |names| == 1 then |head| == |m|
       else |head| < |m| && m[|head| + 1..] == Join(Quoted(reserved, names[1..]), "."))
  {
    hide *;
    JoinSplits(reserved, names);
    DotIsNoName();
    var head := QuoteIdent(reserved, names[0]);
    if |names| == 1 {
      HeadStands(head, "");
      assert head + "" == head;
    } else {
      var rest := Join(Quoted(reserved, names[1..]), ".");
      HeadStands(head, "." + rest);
      assert head + ("." + rest) == head + "." + rest;
      assert (head + "." + rest)[|head| + 1..] == rest;
    }
    OneEnds(reserved, Join(Quoted(reserved, names), "."), 0, names[0]);
  }

  lemma HeadStands(head: string, rest: string)
    ensures At(head + rest, 0, head) && (head + rest)[..|head|] == head
    ensures rest != "" ==> (head + rest)[|head|] == rest[0]
  {
    assert (head + rest)[0..0 + |head|] == head;
  }

  // No two qualified names print alike, dots and backticks in them or not.
  lemma {:induction false} IdentInjective(reserved: string -> bool, a: seq<string>, b: seq<string>)
    requires forall i :: 0 <= i < |a| ==> a[i] != ""
    requires forall i :: 0 <= i < |b| ==> b[i] != ""
    requires Join(Quoted(reserved, a), ".") == Join(Quoted(reserved, b), ".")
    ensures a == b
    decreases |a|
  {
    if a != [] {
      FirstEnds(reserved, a);
      assert QuoteIdent(reserved, a[0]) != "";
    }
    if b != [] {
      FirstEnds(reserved, b);
      assert QuoteIdent(reserved, b[0]) != "";
    }
    if a != [] && b != [] {
      QuoteIdentInjective(reserved, a[0], b[0]);
      if |a| > 1 && |b| > 1 { IdentInjective(reserved, a[1..], b[1..]); }
      assert a == [a[0]] + a[1..] && b == [b[0]] + b[1..];
    }
  }
}
