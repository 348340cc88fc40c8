/** Folding consecutive ALTER TABLE statements on one table into one. */
module BulkAlter {
  import opened Common
  import opened IdentText
  import opened StatementText
  import opened TextTrim

  /* ----- taking a statement apart ----- */

  function TrimRight(s: string): string {
    if s != "" && Blank(s[|s| - 1]) then TrimRight(s[..|s| - 1]) else s
  }

  predicate EndsSemi(s: string) {
    s != "" && s[|s| - 1] == ';'
  }

  datatype Split = Split(ident: string, spec: string, semi: bool)

  predicate RenamesObject(spec: string) {
    HasPrefixFold(spec, 0, "RENAME COLUMN ") || HasPrefixFold(spec, 0, "RENAME INDEX ")
  }

  // The statement without its semicolon; `partition` says whether it is a partition operation.
  function SplitBody(s: string, semi: bool, partition: bool): Option<Split> {
    var pos := SkipBlank(s, 0);
    if !HasPrefixFold(s, pos, AlterTable()) || partition then None
    else
      var start := SkipBlank(s, pos + |AlterTable()|);
      var end := SkipChain(s, start);
      var spec := TrimSpace(s[SkipBlank(s, end)..]);
      if end == start || spec == "" || RenamesObject(spec) then None
      else Some(Split(s[start..end], spec, semi))
  }

  // None: the statement is not to be combined.
  function SplitOf(stmt: string): Option<Split> {
    var t := TrimRight(stmt);
    SplitBody(if EndsSemi(t) then t[..|t| - 1] else t, EndsSemi(t), InsertPos(stmt).Some?)
  }

  method SplitCombinableAlter(stmt: string) returns (r: Option<Split>)
    ensures r == SplitOf(stmt)
  {
    hide SkipBlank, SkipChain, HasPrefixFold, InsertPos, TrimSpace, TrimRight, EqualFold, RenamesObject;
    var s := TrimRight(stmt);
    var semi := false;
    if EndsSemi(s) {
      semi := true;
      s := s[..|s| - 1];
    }
    var pos := SkipASCIIWhitespace(s, 0);
    if !HasPrefixFold(s, pos, AlterTable()) { return None; }
    var insert := PartitionOpInsertPos(stmt);
    if insert > 0 { return None; }
    PrefixFits(s, pos, AlterTable());
    pos := pos + |AlterTable()|;
    pos := SkipASCIIWhitespace(s, pos);
    var start := pos;
    pos := SkipQualifiedIdentifier(s, pos);
    if pos == start { return None; }
    var end := pos;
    pos := SkipASCIIWhitespace(s, pos);
    var spec := TrimSpace(s[pos..]);
    if spec == "" { return None; }
    if RenamesObject(spec) { return None; }
    return Some(Split(s[start..end], spec, semi));
  }

  lemma PrefixFits(s: string, pos: nat, prefix: string)
    requires pos <= |s| && HasPrefixFold(s, pos, prefix)
    ensures pos + |prefix| <= |s|
  {
  }

  /* ----- combining ----- */

  // One output: a statement passed through, or the specs of consecutive statements on one table.
  datatype Piece = Passed(text: string) | Merged(ident: string, specs: seq<string>, semi: bool)

  function Text(p: Piece): string {
    match p
    case Passed(text) => text
    case Merged(ident, specs, semi) => AlterTable() + ident + " " + Join(specs, ", ") + if semi then ";" else ""
  }

  function Texts(ps: seq<Piece>): (r: seq<string>)
    ensures |r| == |ps| && forall i :: 0 <= i < |ps| ==> r[i] == Text(ps[i])
  {
    seq(|ps|, i requires 0 <= i < |ps| => Text(ps[i]))
  }

  // The last piece takes the next spec.
  predicate Joins(ps: seq<Piece>, ident: string) {
    ps != [] && ps[|ps| - 1].Merged? && ps[|ps| - 1].ident == ident
  }

  function Take(ps: seq<Piece>, x: Split): seq<Piece> {
    if Joins(ps, x.ident) then
      var last := ps[|ps| - 1];
      ps[..|ps| - 1] + [last.(specs := last.specs + [x.spec])]
    else ps + [Merged(x.ident, [x.spec], x.semi)]
  }

  function Pieces(stmts: seq<string>): seq<Piece> {
    if stmts == [] then []
    else
      var ps, x := Pieces(stmts[..|stmts| - 1]), SplitOf(stmts[|stmts| - 1]);
      if x.None? then ps + [Passed(stmts[|stmts| - 1])] else Take(ps, x.value)
  }

  // What the loop holds back: the piece still open.
  function Held(ident: string, specs: seq<string>, semi: bool): seq<Piece> {
    if specs == [] then [] else [Merged(ident, specs, semi)]
  }

  ghost predicate Emitted(out: seq<string>, held: seq<Piece>, ps: seq<Piece>) {
    exists sent: seq<Piece> :: out == Texts(sent) && ps == sent + held &&
      (held == [] ==> ps == [] || ps[|ps| - 1].Passed?)
  }

  lemma TextsOfTwo(a: seq<Piece>, b: seq<Piece>)
    ensures Texts(a + b) == Texts(a) + Texts(b)
  {
    hide Text;
  }

  lemma Flush(out: seq<string>, held: seq<Piece>, ps: seq<Piece>)
    requires Emitted(out, held, ps)
    ensures out + Texts(held) == Texts(ps)
  {
    hide Texts;
    var sent :| out == Texts(sent) && ps == sent + held;
    TextsOfTwo(sent, held);
  }

  lemma Pass(ps: seq<Piece>, text: string)
    ensures Emitted(Texts(ps) + [text], [], ps + [Passed(text)])
  {
    TextsOfTwo(ps, [Passed(text)]);
    assert Texts([Passed(text)]) == [text];
    hide Texts;
    assert ps + [Passed(text)] + [] == ps + [Passed(text)];
  }

  lemma Open(ps: seq<Piece>, x: Split)
    ensures Emitted(Texts(ps), [Merged(x.ident, [x.spec], x.semi)], ps + [Merged(x.ident, [x.spec], x.semi)])
  {
    hide Texts;
  }

  // The open piece is the last one.
  lemma HeldIsLast(out: seq<string>, ident: string, specs: seq<string>, semi: bool, ps: seq<Piece>, x: Split)
    requires Emitted(out, Held(ident, specs, semi), ps)
    ensures Joins(ps, x.ident) <==> specs != [] && x.ident == ident
    ensures Joins(ps, x.ident) ==> Emitted(out, Held(ident, specs + [x.spec], semi), Take(ps, x))
  {
    hide Texts;
    var held := Held(ident, specs, semi);
    var sent :| out == Texts(sent) && ps == sent + held && (held == [] ==> ps == [] || ps[|ps| - 1].Passed?);
    if held != [] {
      assert ps[|ps| - 1] == held[0] && ps[..|ps| - 1] == sent;
    }
  }

  method CombineSameTableAlters(stmts: seq<string>) returns (out: seq<string>)
    ensures |stmts| < 2 ==> out == stmts
    ensures |stmts| >= 2 ==> out == Texts(Pieces(stmts))
  {
    hide *;
    if |stmts| < 2 { return stmts; }
    out := [];
    var ident, specs, semi := "", [], false;
    NothingYet();
    assert stmts[..0] == [];
    for i := 0 to |stmts|
      invariant Emitted(out, Held(ident, specs, semi), Pieces(stmts[..i]))
    {
      assert stmts[..i + 1] == stmts[..i] + [stmts[i]];
      var x := SplitCombinableAlter(stmts[i]);
      if x.None? {
        PassStep(out, Held(ident, specs, semi), stmts[..i], stmts[i]);
        out := out + Texts(Held(ident, specs, semi)) + [stmts[i]];
        ident, specs, semi := "", [], false;
        continue;
      }
      if specs != [] && x.value.ident == ident {
        JoinStep(out, ident, specs, semi, stmts[..i], stmts[i], x.value);
        specs := specs + [x.value.spec];
        continue;
      }
      OpenStep(out, ident, specs, semi, stmts[..i], stmts[i], x.value);
      out := out + Texts(Held(ident, specs, semi));
      ident, specs, semi := x.value.ident, [x.value.spec], x.value.semi;
    }
    assert stmts[..|stmts|] == stmts;
    Flush(out, Held(ident, specs, semi), Pieces(stmts));
    out := out + Texts(Held(ident, specs, semi));
  }

  // A statement that is not combined flushes the open piece and passes through.
  lemma PassStep(out: seq<string>, held: seq<Piece>, done: seq<string>, stmt: string)
    requires Emitted(out, held, Pieces(done)) && SplitOf(stmt).None?
    ensures Emitted(out + Texts(held) + [stmt], Held("", [], false), Pieces(done + [stmt]))
  {
    hide *;
    Flush(out, held, Pieces(done));
    PiecesSnoc(done, stmt);
    Pass(Pieces(done), stmt);
    NothingYet();
  }

  // A spec on the open piece's table joins it.
  lemma JoinStep(out: seq<string>, ident: string, specs: seq<string>, semi: bool, done: seq<string>,
    stmt: string, x: Split)
    requires Emitted(out, Held(ident, specs, semi), Pieces(done)) && SplitOf(stmt) == Some(x) && specs != [] &&
      x.ident == ident
    ensures Emitted(out, Held(ident, specs + [x.spec], semi), Pieces(done + [stmt]))
  {
    hide *;
    PiecesSnoc(done, stmt);
    HeldIsLast(out, ident, specs, semi, Pieces(done), x);
  }

  // Any other spec flushes the open piece and opens its own.
  lemma OpenStep(out: seq<string>, ident: string, specs: seq<string>, semi: bool, done: seq<string>,
    stmt: string, x: Split)
    requires Emitted(out, Held(ident, specs, semi), Pieces(done)) && SplitOf(stmt) == Some(x) &&
      !(specs != [] && x.ident == ident)
    ensures Emitted(out + Texts(Held(ident, specs, semi)), Held(x.ident, [x.spec], x.semi), Pieces(done + [stmt]))
  {
    hide *;
    Flush(out, Held(ident, specs, semi), Pieces(done));
    PiecesSnoc(done, stmt);
    HeldIsLast(out, ident, specs, semi, Pieces(done), x);
    TakeOpens(Pieces(done), x);
    Open(Pieces(done), x);
    HeldOne(x);
  }

  lemma HeldOne(x: Split)
    ensures Held(x.ident, [x.spec], x.semi) == [Merged(x.ident, [x.spec], x.semi)]
  {
  }

  lemma NothingYet()
    ensures Emitted([], [], []) && Held("", [], false) == [] && Pieces([]) == []
  {
    assert Texts([]) == [];
    assert [] == [] + Held("", [], false);
  }

  lemma TakeOpens(ps: seq<Piece>, x: Split)
    requires !Joins(ps, x.ident)
    ensures Take(ps, x) == ps + [Merged(x.ident, [x.spec], x.semi)]
  {
  }

  /* ----- nothing is lost, reordered or left uncombined ----- */

  datatype Item = Alter(ident: string, spec: string) | Other(text: string)

  // A statement by what it does.
  function ItemOf(stmt: string): Item {
    var x := SplitOf(stmt);
    if x.None? then Other(stmt) else Alter(x.value.ident, x.value.spec)
  }

  function Items(stmts: seq<string>): (r: seq<Item>)
    ensures |r| == |stmts| && forall i :: 0 <= i < |stmts| ==> r[i] == ItemOf(stmts[i])
  {
    seq(|stmts|, i requires 0 <= i < |stmts| => ItemOf(stmts[i]))
  }

  function Specs(ident: string, specs: seq<string>): seq<Item> {
    seq(|specs|, i requires 0 <= i < |specs| => Alter(ident, specs[i]))
  }

  // A piece taken back into the statements it stands for.
  function ExpandOne(p: Piece): seq<Item> {
    match p
    case Passed(text) => [Other(text)]
    case Merged(ident, specs, _) => Specs(ident, specs)
  }

  function Expand(ps: seq<Piece>): seq<Item> {
    if ps == [] then [] else Expand(ps[..|ps| - 1]) + ExpandOne(ps[|ps| - 1])
  }

  lemma ExpandSnoc(ps: seq<Piece>, p: Piece)
    ensures Expand(ps + [p]) == Expand(ps) + ExpandOne(p)
  {
    assert (ps + [p])[..|ps|] == ps;
  }

  lemma SpecsSnoc(p: Piece, spec: string)
    requires p.Merged?
    ensures ExpandOne(p.(specs := p.specs + [spec])) == ExpandOne(p) + [Alter(p.ident, spec)]
  {
  }

  lemma ExpandTake(ps: seq<Piece>, x: Split)
    ensures Expand(Take(ps, x)) == Expand(ps) + [Alter(x.ident, x.spec)]
  {
    hide Expand;
    if Joins(ps, x.ident) {
      var p, init := ps[|ps| - 1], ps[..|ps| - 1];
      assert ps == init + [p];
      ExpandSnoc(init, p);
      ExpandSnoc(init, p.(specs := p.specs + [x.spec]));
      SpecsSnoc(p, x.spec);
    } else {
      ExpandSnoc(ps, Merged(x.ident, [x.spec], x.semi));
    }
  }

  lemma ItemsSnoc(stmts: seq<string>, last: string)
    ensures Items(stmts + [last]) == Items(stmts) + [ItemOf(last)]
  {
    hide ItemOf;
  }

  lemma PiecesSnoc(stmts: seq<string>, last: string)
    ensures Pieces(stmts + [last]) ==
      if SplitOf(last).None? then Pieces(stmts) + [Passed(last)] else Take(Pieces(stmts), SplitOf(last).value)
  {
    hide SplitOf, Take;
    assert (stmts + [last])[..|stmts|] == stmts;
  }

  // The combined statements are the same specs and statements in the same order.
  lemma {:induction false} Conserved(stmts: seq<string>)
    ensures Expand(Pieces(stmts)) == Items(stmts)
    decreases |stmts|
  {
    if stmts == [] {
      assert Items(stmts) == [];
    } else {
      var n := |stmts| - 1;
      var init, last := stmts[..n], stmts[n];
      assert stmts == init + [last];
      Conserved(init);
      hide SplitOf, Pieces, Items, Take, Expand;
      PiecesSnoc(init, last);
      ItemsSnoc(init, last);
      if SplitOf(last).None? {
        ExpandSnoc(Pieces(init), Passed(last));
      } else {
        ExpandTake(Pieces(init), SplitOf(last).value);
      }
    }
  }

  ghost predicate Apart(ps: seq<Piece>) {
    (forall i :: 0 <= i < |ps| && ps[i].Merged? ==> ps[i].specs != []) &&
    forall i, j :: 0 <= i < |ps| && j == i + 1 && j < |ps| && ps[i].Merged? && ps[j].Merged? ==>
      ps[i].ident != ps[j].ident
  }

  lemma ApartSnoc(ps: seq<Piece>, p: Piece)
    requires Apart(ps) && (p.Merged? ==> p.specs != [] && !Joins(ps, p.ident))
    ensures Apart(ps + [p])
  {
    var r := ps + [p];
    forall i, j | 0 <= i < |r| && j == i + 1 && j < |r| && r[i].Merged? && r[j].Merged?
      ensures r[i].ident != r[j].ident {
      if j == |ps| { assert ps[|ps| - 1] == r[i]; } else { assert ps[i] == r[i] && ps[j] == r[j]; }
    }
  }

  // No two neighbours are left that could be combined.
  lemma {:induction false} Maximal(stmts: seq<string>)
    ensures Apart(Pieces(stmts))
    decreases |stmts|
  {
    hide SplitOf;
    if stmts != [] {
      var n := |stmts| - 1;
      var ps, x := Pieces(stmts[..n]), SplitOf(stmts[n]);
      Maximal(stmts[..n]);
      if x.None? { ApartSnoc(ps, Passed(stmts[n])); } else { ApartTake(ps, x.value); }
    }
  }

  lemma ApartTake(ps: seq<Piece>, x: Split)
    requires Apart(ps)
    ensures Apart(Take(ps, x))
  {
    if Joins(ps, x.ident) {
      var k := |ps| - 1;
      var init := ps[..k];
      assert Apart(init);
      if k > 0 && init[k - 1].Merged? { assert ps[k - 1].ident != ps[k].ident; }
      ApartSnoc(init, ps[k].(specs := ps[k].specs + [x.spec]));
    } else {
      ApartSnoc(ps, Merged(x.ident, [x.spec], x.semi));
    }
  }

  /* ----- statements of the form the diff emits ----- */

  // A spec without blanks around it.
  predicate Neat(spec: string) {
    spec != "" && !Space(spec[0]) && !Space(spec[|spec| - 1])
  }

  predicate Combinable(spec: string) {
    Neat(spec) && !PartitionOpAt(spec, 0) && !RenamesObject(spec)
  }

  lemma NeatIsTrim(spec: string)
    requires Neat(spec)
    ensures TrimSpace(spec) == spec
  {
  }

  // A keyword without the character c is not completed by it.
  lemma FoldedPrefix(spec: string, c: char, rest: string, kw: string)
    requires forall i :: 0 <= i < |kw| ==> FoldChar(kw[i]) != FoldChar(c)
    ensures HasPrefixFold(spec + [c] + rest, 0, kw) <==> HasPrefixFold(spec, 0, kw)
  {
    var s := spec + [c] + rest;
    if |spec| >= |kw| {
      assert s[0..|kw|] == spec[0..|kw|];
    } else if |s| >= |kw| {
      assert s[0..|kw|][|spec|] == c;
      assert Fold(s[0..|kw|])[|spec|] == FoldChar(c);
      assert Fold(kw)[|spec|] == FoldChar(kw[|spec|]);
    }
  }

  predicate Word(s: string) {
    forall i :: 0 <= i < |s| ==> Letter(s[i]) || s[i] == ' '
  }

  lemma FirstWords()
    ensures Word("REORGANIZE PARTITION") && Word("ADD PARTITION") && Word("DROP PARTITION") && Word("RENAME COLUMN ")
  {
  }

  lemma LastWords()
    ensures Word("COALESCE PARTITION") && Word("TRUNCATE PARTITION") && Word("EXCHANGE PARTITION") &&
      Word("RENAME INDEX ")
  {
  }

  lemma KeywordsAreWords()
    ensures forall i :: 0 <= i < |PartitionKeywords()| ==> Word(PartitionKeywords()[i])
    ensures Word("RENAME COLUMN ") && Word("RENAME INDEX ")
  {
    FirstWords();
    LastWords();
    hide Word;
  }

  lemma WordHasNot(kw: string, c: char)
    requires Word(kw) && (c == ';' || c == ',')
    ensures forall i :: 0 <= i < |kw| ==> FoldChar(kw[i]) != FoldChar(c)
  {
  }

  // A semicolon or a comma behind a spec does not change what kind it is.
  lemma SameKind(spec: string, c: char, rest: string)
    requires c == ';' || c == ','
    ensures PartitionOpAt(spec + [c] + rest, 0) <==> PartitionOpAt(spec, 0)
    ensures RenamesObject(spec + [c] + rest) <==> RenamesObject(spec)
  {
    KeywordsAreWords();
    hide PartitionKeywords, HasPrefixFold, FoldChar, Word;
    forall kw: string | Word(kw) ensures HasPrefixFold(spec + [c] + rest, 0, kw) <==> HasPrefixFold(spec, 0, kw) {
      WordHasNot(kw, c);
      FoldedPrefix(spec, c, rest, kw);
    }
  }

  // Splitting what the diff emits gives the name as printed and the spec as written.
  lemma SplitUndoesEmit(reserved: string -> bool, names: seq<string>, spec: string)
    requires NonEmpty(names) != [] && Neat(spec)
    ensures SplitOf(AlterHead(reserved, names) + spec + ";") ==
      if PartitionOpAt(spec, 0) || RenamesObject(spec) then None else Some(Split(Ident(reserved, names), spec, true))
  {
    var head, m := AlterHead(reserved, names), Ident(reserved, names);
    var stmt, s := head + spec + ";", head + spec;
    assert stmt == head + (spec + ";") && spec + [';'] + "" == spec + ";";
    assert spec + [';'] == spec + ";";
    SplicePoint(reserved, names, spec + ";");
    SameKind(spec, ';', "");
    HeadScans(reserved, names, spec);
    IdentStarts(reserved, names);
    NeatIsTrim(spec);
    SemiIsCut(s);
    HeadParts(reserved, names, spec);
    ScansHead(s, |head|, spec);
    hide *;
    SplitIs(stmt, s);
    BodyIs(s, true, InsertPos(stmt).Some?, |AlterTable()|, |head| - 1, spec);
  }

  lemma ScansHead(s: string, n: nat, spec: string)
    requires |AlterTable()| < n <= |s| && SkipBlank(s, 0) == 0 && HasPrefixFold(s, 0, AlterTable())
    requires SkipBlank(s, |AlterTable()|) == |AlterTable()| && SkipChain(s, |AlterTable()|) == n - 1 &&
      n - 1 != |AlterTable()|
    requires SkipBlank(s, n - 1) == n && s[n..] == spec && TrimSpace(spec) == spec && spec != ""
    ensures ScansTo(s, |AlterTable()|, n - 1, spec)
  {
    hide SkipBlank, SkipChain, TrimSpace, HasPrefixFold, AlterTable;
  }

  lemma SemiIsCut(s: string)
    ensures TrimRight(s + ";") == s + ";" && EndsSemi(s + ";") && (s + ";")[..|s|] == s
  {
  }

  // The pieces of a statement's text and where they stand.
  lemma HeadParts(reserved: string -> bool, names: seq<string>, spec: string)
    requires NonEmpty(names) != [] && Neat(spec)
    ensures var head, m := AlterHead(reserved, names), Ident(reserved, names);
      var s := head + spec;
      |head| == |AlterTable()| + |m| + 1 && s[|AlterTable()|..|head| - 1] == m &&
      s[|head|..] == spec && SkipBlank(s, |head| - 1) == |head|
  {
    var head, m := AlterHead(reserved, names), Ident(reserved, names);
    var s := head + spec;
    assert s[|AlterTable()|..|head| - 1] == m;
    assert s[|head| - 1] == ' ' && s[|head|] == spec[0];
    BlankStays(s, |head|);
  }

  // Where the scans of the statement without its semicolon stop.
  ghost predicate ScansTo(s: string, start: nat, end: nat, spec: string) {
    start == |AlterTable()| <= end < |s| && SkipBlank(s, 0) == 0 && HasPrefixFold(s, 0, AlterTable()) &&
    SkipBlank(s, start) == start && SkipChain(s, start) == end && end != start &&
    TrimSpace(s[SkipBlank(s, end)..]) == spec && spec != ""
  }

  // Splitting, given where each scan stops.
  lemma BodyIs(s: string, semi: bool, partition: bool, start: nat, end: nat, spec: string)
    requires ScansTo(s, start, end, spec)
    ensures end <= |s| && start <= end
    ensures SplitBody(s, semi, partition) ==
      if partition || RenamesObject(spec) then None else Some(Split(s[start..end], spec, semi))
  {
    hide SkipBlank, SkipChain, TrimSpace, RenamesObject, HasPrefixFold, AlterTable;
  }

  lemma SplitIs(stmt: string, s: string)
    requires stmt == s + ";" && stmt[..|s|] == s && TrimRight(stmt) == stmt && EndsSemi(stmt)
    ensures SplitOf(stmt) == SplitBody(s, true, InsertPos(stmt).Some?)
  {
    assert |stmt| == |s| + 1;
    hide TrimRight, EndsSemi, InsertPos, SplitBody;
  }

  // A statement the diff emits: combinable with a printed name and a neat spec, or not combinable at all.
  ghost predicate Usual(reserved: string -> bool, stmt: string) {
    SplitOf(stmt).None? ||
    exists names: seq<string>, spec: string :: NonEmpty(names) != [] && Combinable(spec) &&
      stmt == AlterHead(reserved, names) + spec + ";"
  }

  ghost predicate UsualPiece(reserved: string -> bool, p: Piece) {
    match p
    case Passed(text) => SplitOf(text).None?
    case Merged(ident, specs, semi) =>
      semi && specs != [] && (forall i :: 0 <= i < |specs| ==> Combinable(specs[i])) &&
      exists names: seq<string> :: NonEmpty(names) != [] && ident == Ident(reserved, names)
  }

  ghost predicate UsualPieces(reserved: string -> bool, ps: seq<Piece>) {
    forall i :: 0 <= i < |ps| ==> UsualPiece(reserved, ps[i])
  }

  lemma UsualSplit(reserved: string -> bool, stmt: string)
    requires Usual(reserved, stmt) && SplitOf(stmt).Some?
    ensures var x := SplitOf(stmt).value; UsualPiece(reserved, Merged(x.ident, [x.spec], x.semi))
  {
    hide SplitOf, Ident, AlterHead, NonEmpty, PartitionOpAt, RenamesObject, Neat;
    var names, spec :| NonEmpty(names) != [] && Combinable(spec) && stmt == AlterHead(reserved, names) + spec + ";";
    SplitUndoesEmit(reserved, names, spec);
    hide Combinable;
    assert [spec][0] == spec;
  }

  lemma UsualTake(reserved: string -> bool, ps: seq<Piece>, x: Split)
    requires UsualPieces(reserved, ps) && UsualPiece(reserved, Merged(x.ident, [x.spec], x.semi))
    ensures UsualPieces(reserved, Take(ps, x))
  {
    hide SplitOf, Combinable, Ident;
    assert Combinable([x.spec][0]);
  }

  lemma {:induction false} PiecesAreUsual(reserved: string -> bool, stmts: seq<string>)
    requires forall i :: 0 <= i < |stmts| ==> Usual(reserved, stmts[i])
    ensures UsualPieces(reserved, Pieces(stmts))
    decreases |stmts|
  {
    hide SplitOf, Usual, Take;
    if stmts != [] {
      var n := |stmts| - 1;
      PiecesAreUsual(reserved, stmts[..n]);
      var ps, x := Pieces(stmts[..n]), SplitOf(stmts[n]);
      if x.Some? {
        UsualSplit(reserved, stmts[n]);
        UsualTake(reserved, ps, x.value);
      }
    }
  }

  lemma {:induction false} JoinedIsCombinable(specs: seq<string>)
    requires specs != [] && forall i :: 0 <= i < |specs| ==> Combinable(specs[i])
    ensures Combinable(Join(specs, ", "))
    decreases |specs|
  {
    if |specs| > 1 {
      var rest := Join(specs[1..], ", ");
      JoinedIsCombinable(specs[1..]);
      assert Combinable(specs[0]);
      var j := Join(specs, ", ");
      assert j == specs[0] + [','] + (" " + rest);
      SameKind(specs[0], ',', " " + rest);
      assert j[0] == specs[0][0] && j[|j| - 1] == rest[|rest| - 1];
      hide PartitionOpAt, RenamesObject, Join;
    }
  }

  // Splitting a merged statement gives all of its specs as one.
  lemma MergedSplits(reserved: string -> bool, p: Piece)
    requires p.Merged? && UsualPiece(reserved, p)
    ensures SplitOf(Text(p)) == Some(Split(p.ident, Join(p.specs, ", "), true))
  {
    var names :| NonEmpty(names) != [] && p.ident == Ident(reserved, names);
    var spec := Join(p.specs, ", ");
    JoinedIsCombinable(p.specs);
    SplitUndoesEmit(reserved, names, spec);
    assert AlterTable() + p.ident + " " + spec + ";" == AlterHead(reserved, names) + spec + ";";
    hide SplitOf, Ident, PartitionOpAt, RenamesObject, Join;
  }

  // The piece a combined statement is, seen as an input.
  function Again(p: Piece): Piece {
    if p.Merged? then Merged(p.ident, [Join(p.specs, ", ")], p.semi) else p
  }

  function AgainAll(ps: seq<Piece>): (r: seq<Piece>)
    ensures |r| == |ps| && forall i :: 0 <= i < |ps| ==> r[i] == Again(ps[i])
  {
    seq(|ps|, i requires 0 <= i < |ps| => Again(ps[i]))
  }

  lemma AgainReads(p: Piece)
    ensures Text(Again(p)) == Text(p)
  {
    if p.Merged? { assert Join([Join(p.specs, ", ")], ", ") == Join(p.specs, ", "); }
  }

  lemma {:induction false} PiecesOfTexts(reserved: string -> bool, ps: seq<Piece>)
    requires UsualPieces(reserved, ps) && Apart(ps)
    ensures Pieces(Texts(ps)) == AgainAll(ps)
    decreases |ps|
  {
    hide SplitOf, UsualPiece, Text;
    if ps != [] {
      var n := |ps| - 1;
      var init, p := ps[..n], ps[n];
      PiecesOfTexts(reserved, init);
      assert Texts(ps)[..n] == Texts(init);
      assert AgainAll(ps) == AgainAll(init) + [Again(p)];
      assert Texts(ps)[n] == Text(p);
      assert UsualPiece(reserved, p);
      if p.Merged? {
        MergedSplits(reserved, p);
        UsualIsSemi(reserved, p);
        assert !Joins(AgainAll(init), p.ident);
      } else {
        PassedText(reserved, p);
      }
    }
  }

  lemma UsualIsSemi(reserved: string -> bool, p: Piece)
    requires p.Merged? && UsualPiece(reserved, p)
    ensures p.semi
  {
    hide SplitOf, Ident, Combinable;
  }

  lemma PassedText(reserved: string -> bool, p: Piece)
    requires p.Passed? && UsualPiece(reserved, p)
    ensures Text(p) == p.text && SplitOf(p.text).None?
  {
    hide SplitOf;
  }

  // What the text of a piece gives when it is split again.
  predicate ReadsAs(text: string, p: Piece) {
    match p
    case Passed(whole) => text == whole && SplitOf(text).None?
    case Merged(ident, specs, _) => SplitOf(text) == Some(Split(ident, Join(specs, ", "), true))
  }

  lemma TextReads(reserved: string -> bool, p: Piece)
    requires UsualPiece(reserved, p)
    ensures ReadsAs(Text(p), p)
  {
    hide UsualPiece, SplitOf, Text, Join;
    if p.Merged? {
      MergedSplits(reserved, p);
    } else {
      PassedText(reserved, p);
    }
  }

  // The texts hold these specs and other statements: split again one by one, they are groups of them, in order.
  ghost predicate Hold(texts: seq<string>, items: seq<Item>) {
    exists ps: seq<Piece> ::
      |ps| == |texts| && Expand(ps) == items && forall i :: 0 <= i < |ps| ==> ReadsAs(texts[i], ps[i])
  }

  // Nothing is lost or reordered in the emitted texts themselves.
  lemma ConservedInText(reserved: string -> bool, stmts: seq<string>)
    requires forall i :: 0 <= i < |stmts| ==> Usual(reserved, stmts[i])
    ensures Hold(Texts(Pieces(stmts)), Items(stmts))
  {
    var ps := Pieces(stmts);
    PiecesAreUsual(reserved, stmts);
    Conserved(stmts);
    hide SplitOf, Pieces, UsualPiece, Text, Expand, Items, Usual, ReadsAs;
    forall i | 0 <= i < |ps| ensures ReadsAs(Texts(ps)[i], ps[i]) { TextReads(reserved, ps[i]); }
  }

  // Combining what has been combined changes nothing.
  lemma CombinedTwice(reserved: string -> bool, stmts: seq<string>)
    requires forall i :: 0 <= i < |stmts| ==> Usual(reserved, stmts[i])
    ensures Texts(Pieces(Texts(Pieces(stmts)))) == Texts(Pieces(stmts))
  {
    hide SplitOf, Usual, Pieces, UsualPieces, Apart;
    var ps := Pieces(stmts);
    PiecesAreUsual(reserved, stmts);
    Maximal(stmts);
    PiecesOfTexts(reserved, ps);
    hide Text, Again;
    forall i | 0 <= i < |ps| ensures Text(Again(ps[i])) == Text(ps[i]) { AgainReads(ps[i]); }
  }

  // A single statement comes out as it went in, so the shortcut for short scripts makes no difference.
  lemma OneIsItself(reserved: string -> bool, stmt: string)
    requires Usual(reserved, stmt)
    ensures Texts(Pieces([stmt])) == [stmt]
  {
    assert [stmt][..0] == [] && Pieces([]) == [];
    if SplitOf(stmt).Some? {
      var names, spec :| NonEmpty(names) != [] && Combinable(spec) && stmt == AlterHead(reserved, names) + spec + ";";
      SplitUndoesEmit(reserved, names, spec);
      hide SplitOf, Combinable, Ident, NonEmpty;
      assert Pieces([stmt]) == [Merged(Ident(reserved, names), [spec], true)];
    } else {
      hide SplitOf;
      assert Pieces([stmt]) == [Passed(stmt)];
    }
  }
}
