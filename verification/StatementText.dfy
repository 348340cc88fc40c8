/** Statements as text: telling partition operations apart, and splicing in ALGORITHM / LOCK hints. */
module StatementText {
  import opened Common
  import opened IdentText

  /* ----- scanning ----- */

  predicate Blank(c: char) {
    c == ' ' || c == '\t' || c == '\n' || c == '\r'
  }

  function SkipBlank(s: string, pos: nat): (q: nat)
    requires pos <= |s|
    ensures pos <= q <= |s|
    decreases |s| - pos
  {
    if pos < |s| && Blank(s[pos]) then SkipBlank(s, pos + 1) else pos
  }

  method SkipASCIIWhitespace(s: string, from: nat) returns (pos: nat)
    requires from <= |s|
    ensures pos == SkipBlank(s, from)
  {
    pos := from;
    while pos < |s| && Blank(s[pos])
      invariant from <= pos <= |s| && SkipBlank(s, from) == SkipBlank(s, pos)
    {
      pos := pos + 1;
    }
  }

  predicate HasPrefixFold(s: string, pos: nat, prefix: string)
    requires pos <= |s|
  {
    |s| - pos >= |prefix| && EqualFold(s[pos..pos + |prefix|], prefix)
  }

  function AlterTable(): string {
    "ALTER TABLE "
  }

  function PartitionKeywords(): seq<string> {
    ["REORGANIZE PARTITION", "ADD PARTITION", "DROP PARTITION", "COALESCE PARTITION", "TRUNCATE PARTITION",
      "EXCHANGE PARTITION"]
  }

  predicate PartitionOpAt(s: string, pos: nat)
    requires pos <= |s|
  {
    exists i :: 0 <= i < |PartitionKeywords()| && HasPrefixFold(s, pos, PartitionKeywords()[i])
  }

  // Where the word behind the table name starts.
  function SpecPos(stmt: string): (r: Option<nat>)
    ensures r.Some? ==> 0 < r.value <= |stmt|
  {
    var pos := SkipBlank(stmt, 0);
    if !HasPrefixFold(stmt, pos, AlterTable()) then None
    else Some(SkipBlank(stmt, SkipChain(stmt, SkipBlank(stmt, pos + |AlterTable()|))))
  }

  // The splice point of a partition operation.
  function InsertPos(stmt: string): (r: Option<nat>)
    ensures r.Some? ==> 0 < r.value <= |stmt|
  {
    if SpecPos(stmt).Some? && PartitionOpAt(stmt, SpecPos(stmt).value) then SpecPos(stmt) else None
  }

  method PartitionOpInsertPos(stmt: string) returns (r: int)
    ensures r == if InsertPos(stmt).Some? then InsertPos(stmt).value else -1
  {
    hide SkipBlank, SkipChain, PartitionKeywords, EqualFold;
    var pos := SkipASCIIWhitespace(stmt, 0);
    if !HasPrefixFold(stmt, pos, AlterTable()) { return -1; }
    pos := pos + |AlterTable()|;
    hide HasPrefixFold;
    pos := SkipASCIIWhitespace(stmt, pos);
    pos := SkipQualifiedIdentifier(stmt, pos);
    pos := SkipASCIIWhitespace(stmt, pos);
    var kws := PartitionKeywords();
    for i := 0 to |kws|
      invariant forall j :: 0 <= j < i ==> !HasPrefixFold(stmt, pos, kws[j])
    {
      if HasPrefixFold(stmt, pos, kws[i]) { return pos; }
    }
    return -1;
  }

  /* ----- hints ----- */

  function TrimLeft(s: string): string {
    if s != "" && (s[0] == ' ' || s[0] == '\t' || s[0] == '\n') then TrimLeft(s[1..]) else s
  }

  function BeforeSemicolon(stmt: string, suffix: string): string {
    if stmt == "" || stmt[|stmt| - 1] != ';' then stmt + suffix
    else stmt[..|stmt| - 1] + suffix + ";"
  }

  function Clauses(algorithm: string, lock: string): seq<string> {
    (if algorithm != "" then ["ALGORITHM=" + algorithm] else []) + (if lock != "" then ["LOCK=" + lock] else [])
  }

  predicate CreatesIndex(leading: string) {
    HasPrefixFold(leading, 0, "CREATE INDEX ") || HasPrefixFold(leading, 0, "CREATE UNIQUE INDEX ") ||
    HasPrefixFold(leading, 0, "CREATE FULLTEXT INDEX ") || HasPrefixFold(leading, 0, "CREATE SPATIAL INDEX ")
  }

  function Hinted(stmt: string, algorithm: string, lock: string): string {
    var leading, clauses := TrimLeft(stmt), Clauses(algorithm, lock);
    if HasPrefixFold(leading, 0, AlterTable()) then
      if InsertPos(stmt).Some? then
        stmt[..InsertPos(stmt).value] + Join(clauses, ", ") + ", " + stmt[InsertPos(stmt).value..]
      else BeforeSemicolon(stmt, ", " + Join(clauses, ", "))
    else if CreatesIndex(leading) then BeforeSemicolon(stmt, " " + Join(clauses, " "))
    else stmt
  }

  // Without hints the statements are returned as they are.
  method AppendAlterHints(stmts: seq<string>, algorithm: string, lock: string) returns (out: seq<string>)
    ensures algorithm == "" && lock == "" ==> out == stmts
    ensures algorithm != "" || lock != "" ==>
      |out| == |stmts| && forall i :: 0 <= i < |stmts| ==> out[i] == Hinted(stmts[i], algorithm, lock)
  {
    hide *;
    if algorithm == "" && lock == "" { return stmts; }
    out := [];
    for i := 0 to |stmts|
      invariant |out| == i && forall j :: 0 <= j < i ==> out[j] == Hinted(stmts[j], algorithm, lock)
    {
      out := out + [Hinted(stmts[i], algorithm, lock)];
    }
  }

  /* ----- statements of the form the diff emits ----- */

  function AlterHead(reserved: string -> bool, names: seq<string>): string {
    AlterTable() + Ident(reserved, names) + " "
  }

  lemma BlankStays(s: string, pos: nat)
    requires pos <= |s| && (pos == |s| || !Blank(s[pos]))
    ensures SkipBlank(s, pos) == pos
  {
  }

  lemma {:induction false} IdentStarts(reserved: string -> bool, names: seq<string>)
    requires NonEmpty(names) != []
    ensures Ident(reserved, names) != "" && !Blank(Ident(reserved, names)[0])
  {
    NonEmptyHas(names);
    JoinSplits(reserved, NonEmpty(names));
    var q := QuoteIdent(reserved, NonEmpty(names)[0]);
    assert q != "" && !Blank(q[0]);
    hide NonEmpty, QuoteIdent, Quoted;
  }

  lemma FoldSame(a: string)
    ensures EqualFold(a, a)
  {
  }

  // The statement's own keyword is found, and nothing before the name is skipped.
  lemma HeadScans(reserved: string -> bool, names: seq<string>, spec: string)
    requires NonEmpty(names) != []
    ensures var s := AlterHead(reserved, names) + spec;
      HasPrefixFold(s, 0, AlterTable()) && SkipBlank(s, 0) == 0 && SkipBlank(s, |AlterTable()|) == |AlterTable()| &&
      SkipChain(s, |AlterTable()|) == |AlterHead(reserved, names)| - 1 && s[|AlterHead(reserved, names)| - 1] == ' '
  {
    var m := Ident(reserved, names);
    var s := AlterHead(reserved, names) + spec;
    IdentStarts(reserved, names);
    IdentScans(reserved, AlterTable(), names, spec);
    hide Ident;
    assert AlterTable() + m + " " + spec == s;
    assert s[..|AlterTable()|] == AlterTable();
    FoldSame(AlterTable());
    assert s[|AlterTable()|] == m[0];
    assert AlterTable()[0] == 'A';
    BlankStays(s, 0);
    BlankStays(s, |AlterTable()|);
  }

  lemma SpecPosIs(reserved: string -> bool, names: seq<string>, spec: string)
    requires NonEmpty(names) != [] && (spec == "" || !Blank(spec[0]))
    ensures SpecPos(AlterHead(reserved, names) + spec) == Some(|AlterHead(reserved, names)|)
  {
    HeadScans(reserved, names, spec);
    var s, h := AlterHead(reserved, names) + spec, |AlterHead(reserved, names)|;
    hide AlterHead, SkipChain, HasPrefixFold;
    BlankStays(s, h);
    assert SkipBlank(s, h - 1) == SkipBlank(s, h);
  }

  lemma PrefixBehind(head: string, spec: string, prefix: string)
    ensures HasPrefixFold(head + spec, |head|, prefix) <==> HasPrefixFold(spec, 0, prefix)
  {
    var s := head + spec;
    if |spec| >= |prefix| { assert s[|head|..|head| + |prefix|] == spec[0..|prefix|]; }
  }

  lemma KeywordsBehind(head: string, spec: string)
    ensures PartitionOpAt(head + spec, |head|) <==> PartitionOpAt(spec, 0)
  {
    hide HasPrefixFold, PartitionKeywords;
    forall i | 0 <= i < |PartitionKeywords()|
      ensures HasPrefixFold(head + spec, |head|, PartitionKeywords()[i]) <==>
        HasPrefixFold(spec, 0, PartitionKeywords()[i])
    {
      PrefixBehind(head, spec, PartitionKeywords()[i]);
    }
  }

  // The splice point depends on the word behind the table name, whatever the name is and whatever follows.
  lemma SplicePoint(reserved: string -> bool, names: seq<string>, spec: string)
    requires NonEmpty(names) != [] && (spec == "" || !Blank(spec[0]))
    ensures InsertPos(AlterHead(reserved, names) + spec) ==
      if PartitionOpAt(spec, 0) then Some(|AlterHead(reserved, names)|) else None
  {
    SpecPosIs(reserved, names, spec);
    KeywordsBehind(AlterHead(reserved, names), spec);
    hide SpecPos, PartitionOpAt, AlterHead;
  }

  lemma ShortKeywords()
    ensures forall i :: 0 <= i < |PartitionKeywords()| ==> 0 < |PartitionKeywords()[i]| <= 20
  {
  }

  // Twenty characters of the spec decide; text in later literals does not.
  lemma LaterTextIsIgnored(lead: string, a: string, b: string)
    requires |lead| >= 20
    ensures PartitionOpAt(lead + a, 0) <==> PartitionOpAt(lead + b, 0)
  {
    ShortKeywords();
    hide PartitionKeywords;
    forall i | 0 <= i < |PartitionKeywords()|
      ensures HasPrefixFold(lead + a, 0, PartitionKeywords()[i]) <==> HasPrefixFold(lead + b, 0, PartitionKeywords()[i])
    {
      var n := |PartitionKeywords()[i]|;
      assert (lead + a)[0..n] == lead[..n] == (lead + b)[0..n];
    }
    hide HasPrefixFold;
  }

  lemma TrimmedAlready(s: string)
    requires s == "" || !Blank(s[0])
    ensures TrimLeft(s) == s
  {
  }

  lemma HeadStarts(reserved: string -> bool, names: seq<string>, spec: string)
    ensures var s := AlterHead(reserved, names) + spec; s != "" && s[0] == 'A'
  {
    assert AlterTable()[0] == 'A';
  }

  // Hints on an ALTER TABLE: in front of a partition operation, behind anything else; nothing but the hints is added.
  lemma HintsInPlace(reserved: string -> bool, names: seq<string>, spec: string, algorithm: string, lock: string)
    requires NonEmpty(names) != [] && spec != "" && !Blank(spec[0])
    ensures var head, hints := AlterHead(reserved, names), Join(Clauses(algorithm, lock), ", ");
      Hinted(head + spec + ";", algorithm, lock) ==
        if PartitionOpAt(spec + ";", 0) then head + (hints + ", ") + (spec + ";")
          else head + spec + (", " + hints) + ";"
  {
    var head, hints := AlterHead(reserved, names), Join(Clauses(algorithm, lock), ", ");
    var s := head + (spec + ";");
    assert s == head + spec + ";";
    SplicePoint(reserved, names, spec + ";");
    HeadScans(reserved, names, spec + ";");
    HeadStarts(reserved, names, spec + ";");
    TrimmedAlready(s);
    hide *;
    HintedAlter(s, algorithm, lock);
    HintPieces(head, spec, hints);
  }

  lemma HintedAlter(stmt: string, algorithm: string, lock: string)
    requires TrimLeft(stmt) == stmt && HasPrefixFold(stmt, 0, AlterTable())
    ensures var hints := Join(Clauses(algorithm, lock), ", ");
      Hinted(stmt, algorithm, lock) ==
        if InsertPos(stmt).Some? then stmt[..InsertPos(stmt).value] + hints + ", " + stmt[InsertPos(stmt).value..]
        else BeforeSemicolon(stmt, ", " + hints)
  {
    hide TrimLeft, HasPrefixFold, InsertPos, Join, Clauses, BeforeSemicolon, CreatesIndex;
  }

  lemma HintPieces(head: string, spec: string, hints: string)
    ensures var s := head + (spec + ";");
      s[..|head|] == head && s[|head|..] == spec + ";" &&
      BeforeSemicolon(s, ", " + hints) == head + spec + (", " + hints) + ";" &&
      head + hints + ", " + (spec + ";") == head + (hints + ", ") + (spec + ";")
  {
    var s := head + (spec + ";");
    assert s[..|s| - 1] == head + spec;
  }

  function IndexHeads(): seq<string> {
    ["CREATE INDEX ", "CREATE UNIQUE INDEX ", "CREATE FULLTEXT INDEX ", "CREATE SPATIAL INDEX "]
  }

  lemma HeadIsFolded(head: string, rest: string)
    ensures HasPrefixFold(head + rest, 0, head)
  {
    assert (head + rest)[0..|head|] == head;
    FoldSame(head);
  }

  lemma NotAlter(s: string)
    requires s != "" && s[0] == 'C'
    ensures !HasPrefixFold(s, 0, AlterTable())
  {
    var n := |AlterTable()|;
    if |s| >= n { assert Fold(s[0..n])[0] == 'c' && Fold(AlterTable())[0] == 'a'; }
  }

  // Hints on a CREATE INDEX of any kind: separated by spaces, before the semicolon.
  lemma HintsOnIndex(i: nat, rest: string, algorithm: string, lock: string)
    requires i < |IndexHeads()|
    ensures var head := IndexHeads()[i];
      Hinted(head + rest + ";", algorithm, lock) == head + rest + (" " + Join(Clauses(algorithm, lock), " ")) + ";"
  {
    var head := IndexHeads()[i];
    var s := head + (rest + ";");
    assert s == head + rest + ";" && s != "" && s[0] == 'C' && s[..|s| - 1] == head + rest;
    HeadIsFolded(head, rest + ";");
    NotAlter(s);
    TrimmedAlready(s);
    hide TrimLeft, HasPrefixFold, InsertPos, Join, Clauses;
    assert CreatesIndex(s);
  }
}
