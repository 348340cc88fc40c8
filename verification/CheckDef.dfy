/** CHECK constraints as text: cutting the expression out of its parentheses. */
module CheckDef {
  import opened Common
  import opened TextTrim

  // What a parenthesis does to the nesting.
  function Nest(c: char): int {
    if c == '(' then 1 else if c == ')' then -1 else 0
  }

  function Depth(s: string): int {
    if s == "" then 0 else Depth(s[..|s| - 1]) + Nest(s[|s| - 1])
  }

  // The first ')' at which the nesting, `depth` before i, is back to zero.
  function CloseFrom(t: string, i: nat, depth: int): (r: Option<nat>)
    requires i <= |t|
    ensures r.Some? ==> i <= r.value < |t| && t[r.value] == ')'
    decreases |t| - i
  {
    if i == |t| then None
    else
      var d := depth + Nest(t[i]);
      if t[i] == ')' && d == 0 then Some(i) else CloseFrom(t, i + 1, d)
  }

  datatype Parts = Parts(expr: string, suffix: string)

  function SplitDef(def: string): Parts {
    var t := TrimSpace(def);
    if |t| < 5 || !EqualFold(t[..5], "CHECK") then Parts(def, "")
    else
      var u := TrimSpace(t[5..]);
      if u == "" || u[0] != '(' then Parts(def, "")
      else
        var end := CloseFrom(u, 0, 0);
        if end.None? then Parts(def, "")
        else Parts(u[1..end.value], Fold(Squeezed(u[end.value + 1..])))
  }

  method SplitCheckDef(def: string) returns (expr: string, suffix: string)
    ensures Parts(expr, suffix) == SplitDef(def)
  {
    hide TrimSpace, Squeezed, EqualFold, Fold;
    var t := TrimSpace(def);
    if |t| < 5 || !EqualFold(t[..5], "CHECK") { return def, ""; }
    t := TrimSpace(t[5..]);
    if t == "" || t[0] != '(' { return def, ""; }
    var depth, end := 0, -1;
    var i := 0;
    while i < |t|
      invariant i <= |t|
      invariant end == -1 && CloseFrom(t, 0, 0) == CloseFrom(t, i, depth)
    {
      if t[i] == '(' {
        depth := depth + 1;
      } else if t[i] == ')' {
        depth := depth - 1;
        if depth == 0 { end := i; }
      }
      if end >= 0 { break; }
      i := i + 1;
    }
    if end < 0 { return def, ""; }
    return t[1..end], Fold(Squeezed(t[end + 1..]));
  }

  /* ----- when the cut is right ----- */

  // The nesting before position k.
  function DepthAt(s: string, k: nat): int
    requires k <= |s|
  {
    Depth(s[..k])
  }

  // Parentheses match, counting every one, those in string literals too.
  ghost predicate Balanced(e: string) {
    DepthAt(e, |e|) == 0 && forall k :: 0 <= k <= |e| ==> DepthAt(e, k) >= 0
  }

  lemma {:induction false} DepthCounts(s: string)
    ensures Depth(s) + multiset(s)[')'] == multiset(s)['(']
  {
    if s != "" {
      var init, last := s[..|s| - 1], s[|s| - 1];
      assert s == init + [last];
      DepthCounts(init);
    }
  }

  // As many opening as closing parentheses, and never more closing ones on the way.
  lemma BalancedCounts(e: string)
    ensures Balanced(e) <==>
      multiset(e)['('] == multiset(e)[')'] &&
      forall k :: 0 <= k <= |e| ==> multiset(e[..k])['('] >= multiset(e[..k])[')']
  {
    forall k | 0 <= k <= |e| ensures DepthAt(e, k) + multiset(e[..k])[')'] == multiset(e[..k])['('] {
      DepthCounts(e[..k]);
    }
    assert e[..|e|] == e;
    hide Depth;
  }

  lemma DepthStep(s: string, k: nat)
    requires k < |s|
    ensures DepthAt(s, k + 1) == DepthAt(s, k) + Nest(s[k]) && DepthAt(s, 0) == 0
  {
    assert s[..k + 1][..k] == s[..k];
  }

  // No closing parenthesis in [i, end) brings the nesting back to zero.
  ghost predicate OpenUntil(t: string, i: nat, end: nat)
    requires end <= |t|
  {
    forall k, n :: i <= k < end && n == k + 1 && t[k] == ')' ==> DepthAt(t, n) != 0
  }

  // The scan stops at the first place where it does.
  lemma {:induction false} CloseIs(t: string, i: nat, end: nat)
    requires i <= end < |t| && t[end] == ')' && DepthAt(t, end + 1) == 0 && OpenUntil(t, i, end)
    ensures CloseFrom(t, i, DepthAt(t, i)) == Some(end)
    decreases end - i
  {
    DepthStep(t, i);
    hide DepthAt;
    if i < end { CloseIs(t, i + 1, end); }
  }

  lemma {:induction false} CloseMeans(t: string, i: nat)
    requires i <= |t|
    ensures var r := CloseFrom(t, i, DepthAt(t, i)); r.Some? ==>
      DepthAt(t, r.value + 1) == 0 && OpenUntil(t, i, r.value)
    decreases |t| - i
  {
    if i < |t| {
      DepthStep(t, i);
      hide DepthAt;
      CloseMeans(t, i + 1);
    }
  }

  lemma {:induction false} DepthAppend(a: string, b: string)
    ensures Depth(a + b) == Depth(a) + Depth(b)
    decreases |b|
  {
    if b == "" {
      assert a + b == a;
    } else {
      assert (a + b)[..|a + b| - 1] == a + b[..|b| - 1];
      DepthAppend(a, b[..|b| - 1]);
    }
  }

  function Wrapped(e: string, rest: string): string {
    "(" + e + ")" + rest
  }

  // The scan of "(e)rest" is one level deeper than that of e.
  lemma Inside(e: string, rest: string, j: nat)
    requires 1 <= j <= |e| + 1
    ensures DepthAt(Wrapped(e, rest), j) == 1 + DepthAt(e, j - 1)
    ensures j <= |e| ==> Wrapped(e, rest)[j] == e[j - 1]
  {
    var t := Wrapped(e, rest);
    assert t[..j] == "(" + e[..j - 1];
    DepthAppend("(", e[..j - 1]);
    assert "("[..0] == "";
    assert Depth("(") == Depth("("[..0]) + Nest('(');
  }

  // `t` nests e one level deep.
  ghost predicate Deeper(t: string, e: string) {
    |t| >= |e| + 2 && t[|e| + 1] == ')' && t[0] == '(' &&
    (forall j :: 1 <= j <= |e| + 1 ==> DepthAt(t, j) == 1 + DepthAt(e, j - 1)) &&
    forall j :: 1 <= j <= |e| ==> t[j] == e[j - 1]
  }

  lemma WrappedIsDeeper(e: string, rest: string)
    ensures Deeper(Wrapped(e, rest), e)
  {
    forall j | 1 <= j <= |e| + 1
      ensures DepthAt(Wrapped(e, rest), j) == 1 + DepthAt(e, j - 1) && (j <= |e| ==> Wrapped(e, rest)[j] == e[j - 1])
    {
      Inside(e, rest, j);
    }
    hide DepthAt;
  }

  lemma ClosesAtEnd(t: string, e: string)
    requires Deeper(t, e) && Balanced(e)
    ensures CloseFrom(t, 0, 0) == Some(|e| + 1)
  {
    var end := |e| + 1;
    DepthStep(t, 0);
    DepthStep(t, end);
    hide DepthAt;
    forall k, n | 0 <= k < end && n == k + 1 && t[k] == ')' ensures DepthAt(t, n) != 0 {
      assert DepthAt(t, n) == 1 + DepthAt(e, k);
    }
    CloseIs(t, 0, end);
  }

  // Nesting falls by one at a time, so it cannot pass zero unseen.
  lemma {:induction false} NeverBelow(t: string, e: string, n: nat)
    requires Deeper(t, e) && n <= |e| && OpenUntil(t, 0, |e| + 1)
    ensures DepthAt(e, n) >= 0
  {
    if n == 0 {
      assert e[..0] == "";
    } else {
      NeverBelow(t, e, n - 1);
      DepthStep(e, n - 1);
      hide DepthAt;
      assert t[n] == e[n - 1];
      if t[n] == ')' {
        var m := n + 1;
        assert DepthAt(t, m) != 0;
        assert DepthAt(t, m) == 1 + DepthAt(e, n);
      }
    }
  }

  // The closing parenthesis is found exactly when the parentheses inside balance.
  lemma CloseFound(e: string, rest: string)
    ensures CloseFrom(Wrapped(e, rest), 0, 0) == Some(|e| + 1) <==> Balanced(e)
  {
    var t, end := Wrapped(e, rest), |e| + 1;
    WrappedIsDeeper(e, rest);
    if Balanced(e) { ClosesAtEnd(t, e); }
    if CloseFrom(t, 0, 0) == Some(end) {
      DepthStep(t, 0);
      CloseMeans(t, 0);
      forall k | 0 <= k <= |e| ensures DepthAt(e, k) >= 0 { NeverBelow(t, e, k); }
      DepthStep(t, end);
    }
    hide DepthAt, OpenUntil, Wrapped;
  }

  lemma TrimmedBack(s: string)
    requires s != "" && !Space(s[|s| - 1])
    ensures TrimBack(s) == s
  {
  }

  // Whatever follows the closing parenthesis, up to white space at its end.
  predicate Suffixed(rest: string) {
    rest == "" || !Space(rest[|rest| - 1])
  }

  lemma WrappedEnds(e: string, rest: string)
    requires Suffixed(rest)
    ensures var t := Wrapped(e, rest); t != "" && t[0] == '(' && !Space(t[|t| - 1])
  {
    var t := Wrapped(e, rest);
    assert t[|t| - 1] == if rest == "" then ')' else rest[|rest| - 1];
  }

  // CHECK in any letter case.
  ghost predicate SaysCheck(word: string) {
    |word| == 5 && forall i :: 0 <= i < 5 ==> SameLetter(word[i], "CHECK"[i])
  }

  lemma CheckFolds(word: string)
    requires SaysCheck(word)
    ensures EqualFold(word, "CHECK") && !Space(word[0])
  {
    FoldIs(word, "CHECK");
    assert SameLetter(word[0], "CHECK"[0]);
  }

  // `def` is CHECK (e) and a rest, with any white space in front and before the parenthesis.
  ghost predicate Says(def: string, e: string, rest: string) {
    Suffixed(rest) &&
    exists lead: string, word: string, gap: string ::
      Blanks(lead) && SaysCheck(word) && Blanks(gap) && def == lead + (word + (gap + Wrapped(e, rest)))
  }

  lemma Trims(lead: string, word: string, gap: string, t: string)
    requires Blanks(lead) && |word| == 5 && !Space(word[0]) && Blanks(gap)
    requires t != "" && t[0] == '(' && !Space(t[|t| - 1])
    ensures var u := word + (gap + t);
      TrimSpace(lead + u) == u && u[..5] == word && u[5..] == gap + t && TrimSpace(gap + t) == t
  {
    var u := word + (gap + t);
    FrontIsCut(lead, u);
    FrontIsCut(gap, t);
    assert u[|u| - 1] == t[|t| - 1];
    TrimmedBack(u);
    TrimmedBack(t);
  }

  // CHECK (e) splits into e and its suffix exactly when the parentheses of e balance.
  lemma SplitIsExact(def: string, e: string, rest: string)
    requires Says(def, e, rest)
    ensures SplitDef(def) == Parts(e, Fold(Squeezed(rest))) <==> Balanced(e)
  {
    var t := Wrapped(e, rest);
    Cut(def, e, rest);
    CloseFound(e, rest);
    hide *;
    var close := CloseFrom(t, 0, 0);
    if close.Some? {
      assert |t[1..close.value]| == close.value - 1;
    }
    assert |def| > |e|;
  }

  // What SplitDef does with CHECK (e) once the scan has stopped.
  lemma Cut(def: string, e: string, rest: string)
    requires Says(def, e, rest)
    ensures var t := Wrapped(e, rest);
      SplitDef(def) ==
        (if CloseFrom(t, 0, 0).None? then Parts(def, "")
         else Parts(t[1..CloseFrom(t, 0, 0).value], Fold(Squeezed(t[CloseFrom(t, 0, 0).value + 1..])))) &&
      |t| >= |e| + 2 && t[1..|e| + 1] == e && t[|e| + 2..] == rest && |def| > |e|
  {
    var t := Wrapped(e, rest);
    var lead: string, word: string, gap: string :|
      Blanks(lead) && SaysCheck(word) && Blanks(gap) && def == lead + (word + (gap + t));
    WrappedEnds(e, rest);
    assert t[1..|e| + 1] == e && t[|e| + 2..] == rest && |t| >= |e| + 2;
    hide Wrapped;
    CheckFolds(word);
    Trims(lead, word, gap, t);
    hide TrimSpace, CloseFrom, Squeezed, Fold, EqualFold, SaysCheck, Blanks;
  }

  // What does not begin with CHECK is not cut.
  lemma OthersAreWhole(def: string)
    requires def != "" && !Space(def[0]) && (|def| < 5 || !SaysCheck(def[..5]))
    ensures SplitDef(def) == Parts(def, "")
  {
    var t := TrimSpace(def);
    if |t| >= 5 {
      assert t[..5] == def[..5];
      FoldIs(def[..5], "CHECK");
    }
    hide EqualFold, TrimBack, CloseFrom, Squeezed;
  }

  /* ----- comparing definitions ----- */

  // Expressions are compared in canonical form; `canon` is None for what does not parse.
  predicate EqualExpr(canon: string -> Option<string>, a: string, b: string) {
    a == b || (canon(a).Some? && canon(b).Some? && canon(a) == canon(b))
  }

  predicate EqualCheckDef(canon: string -> Option<string>, a: string, b: string) {
    a == b || (EqualFold(SplitDef(a).suffix, SplitDef(b).suffix) &&
      EqualExpr(canon, SplitDef(a).expr, SplitDef(b).expr))
  }

  lemma {:induction false} FoldTwice(s: string)
    ensures Fold(Fold(s)) == Fold(s)
  {
  }

  // With balanced parentheses the comparison is one of the expressions, up to their canonical form if both have one,
  // and of the words behind them, in any letter case.
  lemma EqualWhenBalanced(
    canon: string -> Option<string>, a: string, b: string, e: string, r: string, f: string, q: string)
    requires Balanced(e) && Balanced(f) && Says(a, e, r) && Says(b, f, q)
    ensures EqualCheckDef(canon, a, b) <==>
      a == b ||
      (Fold(Squeezed(r)) == Fold(Squeezed(q)) && (e == f || exists n :: canon(e) == Some(n) == canon(f)))
  {
    SplitIsExact(a, e, r);
    SplitIsExact(b, f, q);
    FoldTwice(Squeezed(r));
    FoldTwice(Squeezed(q));
    hide SplitDef, Balanced, Squeezed, Fold, Says;
    if canon(e).Some? && canon(e) == canon(f) { assert canon(e) == Some(canon(e).value) == canon(f); }
  }

  lemma {:induction false} WordEndIs(w: string, i: nat)
    requires i <= |w| && forall j :: 0 <= j < |w| ==> !Space(w[j])
    ensures WordEnd(w, i) == |w|
    decreases |w| - i
  {
    if i < |w| { WordEndIs(w, i + 1); }
  }

  lemma OneWord(w: string)
    requires w != "" && forall j :: 0 <= j < |w| ==> !Space(w[j])
    ensures Squeezed(w) == w
  {
    WordEndIs(w, 0);
    assert TrimFront(w) == w && w[|w|..] == "" && w[..|w|] == w;
    assert Squeezed("") == "";
  }

  lemma {:induction false} NoDepth(e: string)
    requires forall i :: 0 <= i < |e| ==> Nest(e[i]) == 0
    ensures Depth(e) == 0
  {
    if e != "" { NoDepth(e[..|e| - 1]); }
  }

  lemma NoParentheses(e: string)
    requires forall i :: 0 <= i < |e| ==> Nest(e[i]) == 0
    ensures Balanced(e)
  {
    hide Nest, Depth;
    forall k | 0 <= k <= |e| ensures DepthAt(e, k) == 0 { NoDepth(e[..k]); }
  }

  // What follows a parenthesis inside a literal is taken for the suffix, where case does not count.
  lemma SuffixesFold(canon: string -> Option<string>, e: string, a: string, b: string)
    requires Balanced(e) && a != "" && b != "" && Fold(a) == Fold(b)
    requires (forall j :: 0 <= j < |a| ==> !Space(a[j])) && forall j :: 0 <= j < |b| ==> !Space(b[j])
    ensures EqualCheckDef(canon, "CHECK " + Wrapped(e, a), "CHECK " + Wrapped(e, b))
  {
    OneWord(a);
    OneWord(b);
    SaysPlainly(e, a);
    SaysPlainly(e, b);
    hide Squeezed, Wrapped, EqualCheckDef, Balanced, Fold, Says;
    EqualWhenBalanced(canon, "CHECK " + Wrapped(e, a), "CHECK " + Wrapped(e, b), e, a, e, b);
  }

  lemma SaysPlainly(e: string, rest: string)
    requires Suffixed(rest)
    ensures Says("CHECK " + Wrapped(e, rest), e, rest)
  {
    var t := Wrapped(e, rest);
    assert SaysCheck("CHECK") && Blanks("") && Blanks(" ");
    assert "CHECK " + t == "" + ("CHECK" + (" " + t));
    hide Wrapped, SaysCheck, Blanks;
  }

  lemma TextOf(c: char)
    ensures "CHECK " + Wrapped("a <> \'", [c] + "\')") == "CHECK (a <> \')" + [c] + "\')"
    ensures ("CHECK (a <> \')" + [c] + "\')")[14] == c
  {
  }

  lemma FoldsX()
    ensures Fold(['X'] + "\')") == Fold(['x'] + "\')")
  {
    assert FoldChar('X') == 'x';
  }

  // CHECK (a <> ')X') and CHECK (a <> ')x') are different constraints and compare equal.
  lemma LiteralParenthesisMisleads(canon: string -> Option<string>)
    ensures var a, b := "CHECK (a <> \')" + ['X'] + "\')", "CHECK (a <> \')" + ['x'] + "\')";
      a != b && EqualCheckDef(canon, a, b)
  {
    var e := "a <> \'";
    NoParentheses(e);
    FoldsX();
    TextOf('X');
    TextOf('x');
    hide EqualCheckDef, Balanced, Fold, EqualFold, Wrapped;
    SuffixesFold(canon, e, ['X'] + "\')", ['x'] + "\')");
  }
}
