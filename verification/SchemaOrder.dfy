/** The column order a table ends with. */
module SchemaOrder {
  import opened Common
  import opened SortedNames
  import opened SchemaModel
  import opened SchemaSpec
  import opened SchemaLocal

  // The names of `s` that are in `m`, in order.
  function Only<V>(s: seq<string>, m: map<string, V>): seq<string> {
    if s == [] then [] else (if s[0] in m then [s[0]] else []) + Only(s[1..], m)
  }

  lemma {:induction false} OnlyIn<V>(s: seq<string>, m: map<string, V>, x: string)
    ensures x in Only(s, m) <==> x in s && x in m
  {
    if s != [] {
      OnlyIn(s[1..], m, x);
      assert s == [s[0]] + s[1..];
    }
  }

  lemma {:induction false} OnlyAll<V>(s: seq<string>, m: map<string, V>)
    requires forall i :: 0 <= i < |s| ==> s[i] in m
    ensures Only(s, m) == s
  {
    if s != [] { OnlyAll(s[1..], m); }
  }

  lemma {:induction false} OnlyTwice<V, W>(s: seq<string>, a: map<string, V>, b: map<string, W>)
    ensures Only(Only(s, a), b) == Only(Only(s, b), a)
  {
    if s != [] {
      OnlyTwice(s[1..], a, b);
      OnlyHead(s[0], Only(s[1..], a), b);
      OnlyHead(s[0], Only(s[1..], b), a);
      assert [] + Only(s[1..], a) == Only(s[1..], a);
      assert [] + Only(s[1..], b) == Only(s[1..], b);
    }
  }

  lemma OnlyHead<V>(x: string, s: seq<string>, m: map<string, V>)
    ensures Only([x] + s, m) == (if x in m then [x] else []) + Only(s, m)
  {
    assert ([x] + s)[0] == x && ([x] + s)[1..] == s;
  }

  lemma InsertHead(h: string, t: seq<string>, n: string, after: string)
    requires after != ""
    ensures InsertAfter([h] + t, n, after) == if h == after then [h] + ([n] + t) else [h] + InsertAfter(t, n, after)
  {
    assert ([h] + t)[0] == h && ([h] + t)[1..] == t;
    assert [h, n] + t == [h] + ([n] + t);
  }

  lemma NothingBefore(s: seq<string>)
    ensures [] + s == s
  {
  }

  // Inserting a name the filter keeps, after one it keeps.
  lemma {:induction false} OnlyInsert<V>(s: seq<string>, n: string, after: string, m: map<string, V>)
    requires n in m && (after == "" || (after in m && after in s))
    ensures Only(InsertAfter(s, n, after), m) == InsertAfter(Only(s, m), n, after)
  {
    if after == "" {
      OnlyHead(n, s, m);
    } else {
      var h, t := s[0], s[1..];
      assert s == [h] + t;
      assert h == after || after in t;
      hide Only, InsertAfter;
      OnlyHead(h, t, m);
      NothingBefore(Only(t, m));
      InsertHead(h, t, n, after);
      InsertHead(h, Only(t, m), n, after);
      if h == after {
        OnlyHead(h, [n] + t, m);
        OnlyHead(n, t, m);
      } else {
        OnlyInsert(t, n, after, m);
        OnlyHead(h, InsertAfter(t, n, after), m);
        NothingBefore(Only(InsertAfter(t, n, after), m));
      }
    }
  }

  // Inserting a name the filter drops.
  lemma {:induction false} OnlySkip<V>(s: seq<string>, n: string, after: string, m: map<string, V>)
    requires n !in m
    ensures Only(InsertAfter(s, n, after), m) == Only(s, m)
  {
    if after == "" || s == [] {
      OnlyHead(n, s, m);
      assert [] + Only(s, m) == Only(s, m);
    } else {
      var h, t := s[0], s[1..];
      if h == after {
        assert [h, n] + t == [h] + ([n] + t);
        OnlyHead(h, [n] + t, m);
        OnlyHead(n, t, m);
        assert [] + Only(t, m) == Only(t, m);
      } else {
        OnlySkip(t, n, after, m);
        OnlyHead(h, InsertAfter(t, n, after), m);
      }
    }
  }

  lemma {:induction false} InsertAt(a: seq<string>, x: string, b: seq<string>, n: string)
    requires x != "" && x !in a
    ensures InsertAfter(a + ([x] + b), n, x) == a + ([x, n] + b)
  {
    var s := a + ([x] + b);
    if a == [] {
      assert s == [x] + b;
      assert s[0] == x && s[1..] == b;
    } else {
      var t := a[1..];
      assert s[0] == a[0] && s[1..] == t + ([x] + b);
      InsertAt(t, x, b, n);
      assert a == [a[0]] + t;
      assert [a[0]] + (t + ([x, n] + b)) == a + ([x, n] + b);
    }
  }

  lemma {:induction false} WithoutIs<V>(s: seq<string>, c: string, m: map<string, V>)
    requires c !in m
    ensures Only(Without(s, c), m) == Only(s, m)
  {
    if s != [] {
      WithoutIs(s[1..], c, m);
      var r := Without(s[1..], c);
      OnlyHead(s[0], r, m);
      assert [] + r == r && [] + Only(r, m) == Only(r, m);
    }
  }

  lemma {:induction false} WithoutLeaves(s: seq<string>, c: string, x: string)
    ensures x in Without(s, c) <==> x in s && x != c
  {
    if s != [] {
      WithoutLeaves(s[1..], c, x);
      assert s == [s[0]] + s[1..];
    }
  }

  // Dropping everything the filter drops is the filter.
  lemma {:induction false} WithoutAllIsOnly<V>(s: seq<string>, gone: seq<string>, m: map<string, V>)
    requires forall x :: x in gone ==> x !in m
    requires forall x :: x in s ==> x in m || x in gone
    ensures WithoutAll(s, gone) == Only(s, m)
    decreases |gone|
  {
    if gone == [] {
      OnlyAll(s, m);
    } else {
      var c, rest := gone[0], gone[1..];
      assert gone == [c] + rest;
      WithoutIs(s, c, m);
      forall x | x in Without(s, c) ensures x in m || x in rest { WithoutLeaves(s, c, x); }
      WithoutAllIsOnly(Without(s, c), rest, m);
    }
  }

  /* ----- the adds put every new column where desired has it ----- */

  // The columns both schemas have stand in the same order in both.
  ghost predicate SameOrder(cols: seq<string>, cur: map<string, string>, des: OMap<string>) {
    Only(cols, des.vals) == Only(des.keys, cur)
  }

  // What the filter shows once the first i desired columns are in place.
  ghost predicate InPlace(cols: seq<string>, cur: map<string, string>, des: OMap<string>, i: nat)
    requires i <= |des.keys|
  {
    Only(cols, des.vals) == des.keys[..i] + Only(des.keys[i..], cur)
  }

  lemma DesiredSplit(cur: map<string, string>, des: OMap<string>, i: nat)
    requires des.Ok() && i < |des.keys|
    ensures var n := des.keys[i];
      n in des.vals && n !in des.keys[..i] && des.keys[..i + 1] == des.keys[..i] + [n] &&
      Only(des.keys[i..], cur) == (if n in cur then [n] else []) + Only(des.keys[i + 1..], cur)
  {
    assert des.keys[i] in Elems(des.keys);
    assert des.keys[i..] == [des.keys[i]] + des.keys[i + 1..];
    OnlyHead(des.keys[i], des.keys[i + 1..], cur);
  }

  lemma PlaceOld(a: seq<string>, n: string, b: seq<string>)
    ensures a + ([n] + b) == (a + [n]) + b && [] + b == b
  {
  }

  lemma PlaceNext(a: seq<string>, x: string, n: string, b: seq<string>)
    requires x != "" && x !in a
    ensures InsertAfter((a + [x]) + b, n, x) == ((a + [x]) + [n]) + b
  {
    InsertAt(a, x, b, n);
    assert (a + [x]) + b == a + ([x] + b);
    assert ((a + [x]) + [n]) + b == a + ([x, n] + b);
  }

  lemma PlaceStep(cols: seq<string>, cur: map<string, string>, des: OMap<string>, i: nat)
    requires des.Ok() && "" !in des.vals && i < |des.keys| && InPlace(cols, cur, des, i)
    requires i > 0 ==> des.keys[i - 1] in cols
    ensures var n := des.keys[i];
      InPlace(if n in cur then cols else InsertAfter(cols, n, if i == 0 then "" else des.keys[i - 1]), cur, des, i + 1)
  {
    hide *;
    DesiredSplit(cur, des, i);
    var n, rest := des.keys[i], Only(des.keys[i + 1..], cur);
    var now := if n in cur then cols else InsertAfter(cols, n, if i == 0 then "" else des.keys[i - 1]);
    InPlaceIs(cols, cur, des, i);
    InPlaceIs(now, cur, des, i + 1);
    PlaceOld(des.keys[..i], n, rest);
    if n !in cur && i > 0 {
      DesiredSplit(cur, des, i - 1);
      OnlyInsert(cols, n, des.keys[i - 1], des.vals);
      PlaceNext(des.keys[..i - 1], des.keys[i - 1], n, rest);
    } else if n !in cur {
      PlaceFirst(cols, n, rest, des.vals);
    }
  }

  lemma InPlaceIs(cols: seq<string>, cur: map<string, string>, des: OMap<string>, i: nat)
    requires i <= |des.keys|
    ensures InPlace(cols, cur, des, i) <==> Only(cols, des.vals) == des.keys[..i] + Only(des.keys[i..], cur)
    ensures i == 0 ==> des.keys[..i] == []
  {
    hide Only;
  }

  lemma PlaceFirst<V>(cols: seq<string>, n: string, rest: seq<string>, m: map<string, V>)
    requires n in m && Only(cols, m) == rest
    ensures Only(InsertAfter(cols, n, ""), m) == ([] + [n]) + rest
  {
    OnlyInsert(cols, n, "", m);
  }

  lemma {:induction false} InsertHas(s: seq<string>, n: string, after: string, x: string)
    ensures x in InsertAfter(s, n, after) <==> x in s || x == n
  {
    if after != "" && s != [] && s[0] != after {
      InsertHas(s[1..], n, after, x);
      assert s == [s[0]] + s[1..];
    } else if after != "" && s != [] {
      assert s == [s[0]] + s[1..];
    }
  }

  // Every column of `cur` and of the first i desired ones.
  ghost predicate Holds(cols: seq<string>, cur: map<string, string>, des: OMap<string>, i: nat)
    requires i <= |des.keys|
  {
    forall x :: x in cols <==> x in cur || x in des.keys[..i]
  }

  lemma HoldsStep(cols: seq<string>, cur: map<string, string>, des: OMap<string>, i: nat)
    requires i < |des.keys| && Holds(cols, cur, des, i)
    ensures Holds(if des.keys[i] in cur then cols
      else InsertAfter(cols, des.keys[i], if i == 0 then "" else des.keys[i - 1]), cur, des, i + 1)
  {
    var n, after := des.keys[i], if i == 0 then "" else des.keys[i - 1];
    assert des.keys[..i + 1] == des.keys[..i] + [n];
    forall x ensures x in InsertAfter(cols, n, after) <==> x in cols || x == n { InsertHas(cols, n, after, x); }
  }

  lemma {:induction false} AddsPlace(cols: seq<string>, cur: map<string, string>, des: OMap<string>, i: nat)
    requires des.Ok() && "" !in des.vals && i <= |des.keys| && InPlace(cols, cur, des, i) && Holds(cols, cur, des, i)
    ensures Only(AddedCols(cols, cur, des, i), des.vals) == des.keys
    decreases |des.keys| - i
  {
    if i < |des.keys| {
      var n := des.keys[i];
      assert n in Elems(des.keys);
      if i > 0 { assert des.keys[..i][i - 1] == des.keys[i - 1]; }
      PlaceStep(cols, cur, des, i);
      HoldsStep(cols, cur, des, i);
      AddsPlace(if n in cur then cols else InsertAfter(cols, n, if i == 0 then "" else des.keys[i - 1]), cur,
        des, i + 1);
    } else {
      assert des.keys[..i] == des.keys && des.keys[i..] == [];
    }
  }

  // The adds leave the current columns in their order.
  lemma {:induction false} AddsKeepOrder(cols: seq<string>, cur: map<string, string>, des: OMap<string>, i: nat)
    requires i <= |des.keys|
    ensures Only(AddedCols(cols, cur, des, i), cur) == Only(cols, cur)
    decreases |des.keys| - i
  {
    if i < |des.keys| {
      var n, after := des.keys[i], if i == 0 then "" else des.keys[i - 1];
      if n in des.vals && n !in cur {
        OnlySkip(cols, n, after, cur);
        AddsKeepOrder(InsertAfter(cols, n, after), cur, des, i + 1);
      } else {
        AddsKeepOrder(cols, cur, des, i + 1);
      }
    }
  }

  lemma {:induction false} AddedHas(cols: seq<string>, cur: map<string, string>, des: OMap<string>, i: nat, x: string)
    requires i <= |des.keys|
    ensures x in AddedCols(cols, cur, des, i) ==> x in cols || x in des.vals
    decreases |des.keys| - i
  {
    if i < |des.keys| {
      var n, after := des.keys[i], if i == 0 then "" else des.keys[i - 1];
      if n in des.vals && n !in cur {
        InsertHas(cols, n, after, x);
        AddedHas(InsertAfter(cols, n, after), cur, des, i + 1, x);
      } else {
        AddedHas(cols, cur, des, i + 1, x);
      }
    }
  }

  // With column drops allowed the table ends with desired's column sequence exactly when the columns
  // that survive already stood in desired's order.
  lemma ColumnOrder(cols: seq<string>, c: Schema, d: Schema)
    requires SchemaOk(c) && SchemaOk(d) && Distinct(cols) && Elems(cols) == c.cols.vals.Keys
    ensures var gone := Gone<string, string>(c.cols.keys, d.cols.vals);
      WithoutAll(AddedCols(cols, c.cols.vals, d.cols, 0), gone) == d.cols.keys <==> SameOrder(cols, c.cols.vals, d.cols)
  {
    var cur, des := c.cols.vals, d.cols;
    var added, gone := AddedCols(cols, cur, des, 0), Gone<string, string>(c.cols.keys, d.cols.vals);
    GoneIs(c.cols.keys, d.cols.vals);
    assert forall x :: x in c.cols.keys <==> x in Elems(c.cols.keys);
    assert forall x :: x in cols <==> x in Elems(cols);
    hide AddedCols, WithoutAll, Gone, Only, SchemaOk, Distinct, Elems;
    forall x | x in added ensures x in des.vals || x in gone { AddedHas(cols, cur, des, 0, x); }
    WithoutAllIsOnly(added, gone, des.vals);
    AddsKeepOrder(cols, cur, des, 0);
    OnlyAll(cols, cur);
    OnlyTwice(added, des.vals, cur);
    if SameOrder(cols, cur, des) {
      assert des.keys[..0] + Only(des.keys[0..], cur) == Only(des.keys, cur);
      DesiredIsOk(d);
      AddsPlace(cols, cur, des, 0);
    }
  }

  lemma DesiredIsOk(d: Schema)
    requires SchemaOk(d)
    ensures d.cols.Ok() && "" !in d.cols.vals
  {
  }
}
