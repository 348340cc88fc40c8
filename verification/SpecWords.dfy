/** Which statements are partition operations, renames, or neither, word by word, and what that means for the text. */
module SpecWords {
  import opened Common
  import opened IdentText
  import opened StatementText
  import opened TextTrim
  import opened BulkAlter

  /* ----- how a text begins, in any letter case ----- */

  ghost predicate Begins(s: string, word: string) {
    |s| >= |word| && forall i :: 0 <= i < |word| ==> SameLetter(s[i], word[i])
  }

  lemma BeginsIs(s: string, word: string)
    ensures HasPrefixFold(s, 0, word) <==> Begins(s, word)
  {
    if |s| >= |word| {
      FoldIs(s[0..|word|], word);
      assert forall i :: 0 <= i < |word| ==> s[0..|word|][i] == s[i];
      hide EqualFold, SameLetter;
    }
  }

  /* ----- the kinds of specs ----- */

  // The operations whose hints MySQL wants in front.
  ghost predicate IsPartitionOp(spec: string) {
    Begins(spec, "REORGANIZE PARTITION") || Begins(spec, "ADD PARTITION") || Begins(spec, "DROP PARTITION") ||
    Begins(spec, "COALESCE PARTITION") || Begins(spec, "TRUNCATE PARTITION") || Begins(spec, "EXCHANGE PARTITION")
  }

  ghost predicate IsRename(spec: string) {
    Begins(spec, "RENAME COLUMN ") || Begins(spec, "RENAME INDEX ")
  }

  lemma PartitionOpIs(spec: string)
    ensures PartitionOpAt(spec, 0) <==> IsPartitionOp(spec)
  {
    forall word ensures HasPrefixFold(spec, 0, word) <==> Begins(spec, word) { BeginsIs(spec, word); }
    hide HasPrefixFold, Begins;
    var kws := PartitionKeywords();
    assert kws[0] == "REORGANIZE PARTITION" && kws[1] == "ADD PARTITION" && kws[2] == "DROP PARTITION";
    assert kws[3] == "COALESCE PARTITION" && kws[4] == "TRUNCATE PARTITION" && kws[5] == "EXCHANGE PARTITION";
  }

  lemma RenameIs(spec: string)
    ensures RenamesObject(spec) <==> IsRename(spec)
  {
    BeginsIs(spec, "RENAME COLUMN ");
    BeginsIs(spec, "RENAME INDEX ");
    hide HasPrefixFold, Begins;
  }

  // The other specs the diff emits.
  ghost predicate IsPlain(spec: string) {
    Begins(spec, "ADD COLUMN ") || Begins(spec, "MODIFY COLUMN ") || Begins(spec, "DROP COLUMN ") ||
    Begins(spec, "ADD PRIMARY KEY ") || Begins(spec, "DROP PRIMARY KEY") || Begins(spec, "ADD CONSTRAINT ") ||
    Begins(spec, "DROP CHECK ") || Begins(spec, "DROP INDEX ") || Begins(spec, "DROP FOREIGN KEY ") ||
    Begins(spec, "COMMENT=") || Begins(spec, "DEFAULT ") || Begins(spec, "RENAME TO ")
  }

  lemma AddIsPlain(spec: string)
    requires Begins(spec, "ADD COLUMN ") || Begins(spec, "ADD PRIMARY KEY ") || Begins(spec, "ADD CONSTRAINT ")
    ensures !IsPartitionOp(spec) && !IsRename(spec)
  {
    assert SameLetter(spec[0], 'A') && !SameLetter(spec[5], 'A');
    assert "ADD PARTITION"[5] == 'A';
  }

  lemma DropIsPlain(spec: string)
    requires Begins(spec, "DROP COLUMN ") || Begins(spec, "DROP PRIMARY KEY") || Begins(spec, "DROP CHECK ") ||
      Begins(spec, "DROP INDEX ") || Begins(spec, "DROP FOREIGN KEY ")
    ensures !IsPartitionOp(spec) && !IsRename(spec)
  {
    assert SameLetter(spec[0], 'D') && !(SameLetter(spec[5], 'P') && SameLetter(spec[6], 'A'));
    assert "DROP PARTITION"[5] == 'P' && "DROP PARTITION"[6] == 'A';
  }

  lemma OtherIsPlain(spec: string)
    requires Begins(spec, "MODIFY COLUMN ") || Begins(spec, "COMMENT=") || Begins(spec, "DEFAULT ")
    ensures !IsPartitionOp(spec) && !IsRename(spec)
  {
    assert SameLetter(spec[1], 'O') || SameLetter(spec[1], 'E');
    assert SameLetter(spec[0], 'M') || (SameLetter(spec[0], 'C') && SameLetter(spec[2], 'M')) ||
      SameLetter(spec[0], 'D');
    assert SameLetter(spec[0], 'D') ==> SameLetter(spec[1], 'E');
    assert "COALESCE PARTITION"[2] == 'A' && "DROP PARTITION"[1] == 'R';
  }

  lemma MoveIsPlain(spec: string)
    requires Begins(spec, "RENAME TO ")
    ensures !IsPartitionOp(spec) && !IsRename(spec)
  {
    assert SameLetter(spec[0], 'R') && SameLetter(spec[2], 'N') && SameLetter(spec[7], 'T');
    assert "RENAME COLUMN "[7] == 'C' && "RENAME INDEX "[7] == 'I' && "REORGANIZE PARTITION"[2] == 'O';
  }

  lemma PlainIsPlain(spec: string)
    requires IsPlain(spec)
    ensures !IsPartitionOp(spec) && !IsRename(spec)
  {
    hide Begins, IsPartitionOp, IsRename;
    if Begins(spec, "ADD COLUMN ") || Begins(spec, "ADD PRIMARY KEY ") || Begins(spec, "ADD CONSTRAINT ") {
      AddIsPlain(spec);
    } else if Begins(spec, "DROP COLUMN ") || Begins(spec, "DROP PRIMARY KEY") || Begins(spec, "DROP CHECK ") ||
      Begins(spec, "DROP INDEX ") || Begins(spec, "DROP FOREIGN KEY ") {
      DropIsPlain(spec);
    } else if Begins(spec, "RENAME TO ") {
      MoveIsPlain(spec);
    } else {
      OtherIsPlain(spec);
    }
  }

  /* ----- hints ----- */

  // The hints as the user reads them; one of the two may be left out.
  function Hints(algorithm: string, lock: string, between: string): string {
    if algorithm == "" then "LOCK=" + lock
    else if lock == "" then "ALGORITHM=" + algorithm
    else "ALGORITHM=" + algorithm + between + "LOCK=" + lock
  }

  lemma HintsAre(algorithm: string, lock: string, between: string)
    requires algorithm != "" || lock != ""
    ensures Join(Clauses(algorithm, lock), between) == Hints(algorithm, lock, between)
  {
    var cs := Clauses(algorithm, lock);
    if algorithm != "" && lock != "" {
      assert cs == ["ALGORITHM=" + algorithm, "LOCK=" + lock] && cs[1..] == ["LOCK=" + lock];
    }
  }

  // A hinted ALTER TABLE: the hints stand in front of the six partition operations, in any letter case, and behind
  // every other spec.
  lemma AlterHints(reserved: string -> bool, names: seq<string>, spec: string, algorithm: string, lock: string)
    requires NonEmpty(names) != [] && spec != "" && !Blank(spec[0]) && (algorithm != "" || lock != "")
    ensures var head, hints := "ALTER TABLE " + Ident(reserved, names) + " ", Hints(algorithm, lock, ", ");
      Hinted(head + spec + ";", algorithm, lock) ==
        if IsPartitionOp(spec) then head + hints + ", " + spec + ";" else head + spec + ", " + hints + ";"
  {
    var head, hints := AlterHead(reserved, names), Hints(algorithm, lock, ", ");
    assert "ALTER TABLE " + Ident(reserved, names) + " " == head;
    assert spec + [';'] + "" == spec + ";";
    HintsInPlace(reserved, names, spec, algorithm, lock);
    HintsAre(algorithm, lock, ", ");
    SameKind(spec, ';', "");
    PartitionOpIs(spec);
    hide *;
    HintTexts(head, spec, hints);
  }

  lemma HintTexts(head: string, spec: string, hints: string)
    ensures head + (hints + ", ") + (spec + ";") == head + hints + ", " + spec + ";"
    ensures head + spec + (", " + hints) + ";" == head + spec + ", " + hints + ";"
  {
  }

  // In particular the specs the diff emits for columns, keys, indexes and constraints.
  lemma PlainHints(reserved: string -> bool, names: seq<string>, spec: string, algorithm: string, lock: string)
    requires NonEmpty(names) != [] && IsPlain(spec) && (algorithm != "" || lock != "")
    ensures var head, hints := "ALTER TABLE " + Ident(reserved, names) + " ", Hints(algorithm, lock, ", ");
      Hinted(head + spec + ";", algorithm, lock) == head + spec + ", " + hints + ";"
  {
    PlainIsPlain(spec);
    PlainStarts(spec);
    hide *;
    AlterHints(reserved, names, spec, algorithm, lock);
  }

  lemma PlainStarts(spec: string)
    requires IsPlain(spec)
    ensures spec != "" && !Blank(spec[0])
  {
  }

  // CREATE INDEX of any kind, in any letter case: the hints stand before the semicolon, without commas.
  lemma IndexHints(stmt: string, algorithm: string, lock: string)
    requires algorithm != "" || lock != ""
    requires Begins(stmt, "CREATE INDEX ") || Begins(stmt, "CREATE UNIQUE INDEX ") ||
      Begins(stmt, "CREATE FULLTEXT INDEX ") || Begins(stmt, "CREATE SPATIAL INDEX ")
    ensures Hinted(stmt + ";", algorithm, lock) == stmt + " " + Hints(algorithm, lock, " ") + ";"
  {
    var s, hints := stmt + ";", Hints(algorithm, lock, " ");
    HintsAre(algorithm, lock, " ");
    BeginsC(stmt);
    TrimmedAlready(s);
    BeginsIs(s, "ALTER TABLE ");
    IndexHead(stmt, s);
    assert s[..|s| - 1] == stmt;
    assert BeforeSemicolon(s, " " + hints) == stmt + (" " + hints) + ";" == stmt + " " + hints + ";";
    hide Begins, HasPrefixFold, TrimLeft, InsertPos, Join, Clauses, BeforeSemicolon, CreatesIndex;
  }

  lemma BeginsC(stmt: string)
    requires Begins(stmt, "CREATE INDEX ") || Begins(stmt, "CREATE UNIQUE INDEX ") ||
      Begins(stmt, "CREATE FULLTEXT INDEX ") || Begins(stmt, "CREATE SPATIAL INDEX ")
    ensures stmt != "" && !Blank((stmt + ";")[0]) && !Begins(stmt + ";", "ALTER TABLE ")
  {
    assert SameLetter(stmt[0], 'C');
  }

  lemma BeginsLonger(s: string, t: string, word: string)
    requires Begins(s, word)
    ensures Begins(s + t, word)
  {
  }

  lemma IndexHead(stmt: string, s: string)
    requires s == stmt + ";"
    requires Begins(stmt, "CREATE INDEX ") || Begins(stmt, "CREATE UNIQUE INDEX ") ||
      Begins(stmt, "CREATE FULLTEXT INDEX ") || Begins(stmt, "CREATE SPATIAL INDEX ")
    ensures CreatesIndex(s)
  {
    forall word ensures HasPrefixFold(s, 0, word) <==> Begins(s, word) { BeginsIs(s, word); }
    forall word | Begins(stmt, word) ensures Begins(s, word) { BeginsLonger(stmt, ";", word); }
    hide Begins, HasPrefixFold;
  }

  // Every other statement is left alone: CREATE TABLE, DROP TABLE, CREATE VIEW, DROP VIEW.
  lemma OthersAreUnhinted(stmt: string, algorithm: string, lock: string)
    requires stmt != "" && !Blank(stmt[0])
    requires !Begins(stmt, "ALTER TABLE ") && !Begins(stmt, "CREATE INDEX ") && !Begins(stmt, "CREATE UNIQUE INDEX ") &&
      !Begins(stmt, "CREATE FULLTEXT INDEX ") && !Begins(stmt, "CREATE SPATIAL INDEX ")
    ensures Hinted(stmt, algorithm, lock) == stmt
  {
    TrimmedAlready(stmt);
    forall word ensures HasPrefixFold(stmt, 0, word) <==> Begins(stmt, word) { BeginsIs(stmt, word); }
    hide Begins, HasPrefixFold, TrimLeft, InsertPos;
  }

  /* ----- folding ----- */

  // An emitted statement is taken apart exactly when its spec is neither a partition operation nor a rename.
  lemma SplitByWord(reserved: string -> bool, names: seq<string>, spec: string)
    requires NonEmpty(names) != [] && Neat(spec)
    ensures SplitOf("ALTER TABLE " + Ident(reserved, names) + " " + spec + ";") ==
      if IsPartitionOp(spec) || IsRename(spec) then None else Some(Split(Ident(reserved, names), spec, true))
  {
    SplitUndoesEmit(reserved, names, spec);
    PartitionOpIs(spec);
    RenameIs(spec);
    assert "ALTER TABLE " + Ident(reserved, names) + " " == AlterHead(reserved, names);
    hide *;
  }

  // Renames of columns and indexes pass through as they are.
  lemma RenamePasses(reserved: string -> bool, names: seq<string>, word: string, rest: string)
    requires word == "RENAME COLUMN " || word == "RENAME INDEX "
    requires NonEmpty(names) != [] && rest != "" && !Space(rest[|rest| - 1])
    ensures SplitOf("ALTER TABLE " + Ident(reserved, names) + " " + (word + rest) + ";") == None
  {
    var spec := word + rest;
    assert Begins(spec, word);
    assert spec[0] == 'R' && spec[|spec| - 1] == rest[|rest| - 1];
    hide SplitOf, Ident, NonEmpty, Begins, IsPartitionOp;
    SplitByWord(reserved, names, spec);
  }

  // The specs the diff emits for columns, keys, indexes and constraints are all combined.
  lemma PlainSplits(reserved: string -> bool, names: seq<string>, spec: string)
    requires NonEmpty(names) != [] && Neat(spec) && IsPlain(spec)
    ensures SplitOf("ALTER TABLE " + Ident(reserved, names) + " " + spec + ";") ==
      Some(Split(Ident(reserved, names), spec, true))
  {
    PlainIsPlain(spec);
    hide *;
    SplitByWord(reserved, names, spec);
  }

  // No combined statement contains a rename, whatever the input is.
  lemma {:induction false} NoRenameIsFolded(stmts: seq<string>)
    ensures forall p, j :: p in Pieces(stmts) && p.Merged? && 0 <= j < |p.specs| ==> !IsRename(p.specs[j])
    decreases |stmts|
  {
    hide SplitOf, IsRename, Take;
    if stmts != [] {
      var n := |stmts| - 1;
      NoRenameIsFolded(stmts[..n]);
      if SplitOf(stmts[n]).Some? {
        SplitIsNoRename(stmts[n]);
        TakeNoRename(Pieces(stmts[..n]), SplitOf(stmts[n]).value);
      }
    }
  }

  lemma SplitIsNoRename(stmt: string)
    requires SplitOf(stmt).Some?
    ensures !IsRename(SplitOf(stmt).value.spec)
  {
    RenameIs(SplitOf(stmt).value.spec);
    hide IsRename, RenamesObject, HasPrefixFold, SkipBlank, SkipChain, TrimSpace, InsertPos;
  }

  lemma TakeNoRename(ps: seq<Piece>, x: Split)
    requires forall p, j :: p in ps && p.Merged? && 0 <= j < |p.specs| ==> !IsRename(p.specs[j])
    requires !IsRename(x.spec)
    ensures forall p, j :: p in Take(ps, x) && p.Merged? && 0 <= j < |p.specs| ==> !IsRename(p.specs[j])
  {
    hide IsRename;
    if Joins(ps, x.ident) { assert ps[|ps| - 1] in ps; }
  }

  // A rename and the statement behind it come out as they went in: RENAME INDEX i TO j is not folded with DROP INDEX j,
  // which would fail.
  lemma RenameIsKeptApart(reserved: string -> bool, names: seq<string>, word: string, rest: string,
    nextNames: seq<string>, spec: string)
    requires word == "RENAME COLUMN " || word == "RENAME INDEX "
    requires NonEmpty(names) != [] && rest != "" && !Space(rest[|rest| - 1])
    requires NonEmpty(nextNames) != [] && Neat(spec) && IsPlain(spec)
    ensures var rename := "ALTER TABLE " + Ident(reserved, names) + " " + (word + rest) + ";";
      var next := "ALTER TABLE " + Ident(reserved, nextNames) + " " + spec + ";";
      Texts(Pieces([rename, next])) == [rename, next]
  {
    var rename := "ALTER TABLE " + Ident(reserved, names) + " " + (word + rest) + ";";
    var next := "ALTER TABLE " + Ident(reserved, nextNames) + " " + spec + ";";
    RenamePasses(reserved, names, word, rest);
    PlainIsUsual(reserved, nextNames, spec);
    OneIsItself(reserved, next);
    hide *;
    OnePasses(rename);
    ApartTexts(rename, next);
  }

  lemma PlainIsUsual(reserved: string -> bool, names: seq<string>, spec: string)
    requires NonEmpty(names) != [] && Neat(spec) && IsPlain(spec)
    ensures Usual(reserved, "ALTER TABLE " + Ident(reserved, names) + " " + spec + ";")
  {
    PlainIsPlain(spec);
    PartitionOpIs(spec);
    RenameIs(spec);
    hide *;
    CombinableIs(spec);
    HeadIs(reserved, names);
    UsualIs(reserved, names, spec);
  }

  lemma CombinableIs(spec: string)
    requires Neat(spec) && !PartitionOpAt(spec, 0) && !RenamesObject(spec)
    ensures Combinable(spec)
  {
  }

  lemma HeadIs(reserved: string -> bool, names: seq<string>)
    ensures AlterHead(reserved, names) == "ALTER TABLE " + Ident(reserved, names) + " "
  {
  }

  lemma UsualIs(reserved: string -> bool, names: seq<string>, spec: string)
    requires NonEmpty(names) != [] && Combinable(spec)
    ensures Usual(reserved, AlterHead(reserved, names) + spec + ";")
  {
    hide SplitOf, AlterHead, NonEmpty, Combinable;
  }

  lemma OnePasses(stmt: string)
    requires SplitOf(stmt) == None
    ensures Pieces([]) == [] && Pieces([stmt]) == [Passed(stmt)]
  {
    hide SplitOf;
    assert [stmt][..0] == [];
  }

  lemma ApartTexts(rename: string, next: string)
    requires Pieces([rename]) == [Passed(rename)] && Texts(Pieces([next])) == [next] && Pieces([]) == []
    ensures Texts(Pieces([rename, next])) == [rename, next]
  {
    hide SplitOf;
    assert [rename, next][..1] == [rename] && [next][..0] == [];
    assert |Pieces([next])| == 1;
    assert Pieces([rename, next]) == [Passed(rename)] + Pieces([next]);
    TextsOfTwo([Passed(rename)], Pieces([next]));
    assert Texts([Passed(rename)]) == [rename];
  }
}
