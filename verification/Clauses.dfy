/** Splitting a SET list at its top-level commas. */
module Clauses {
  import opened Options
  import opened Spaces

  // ---- What separates clauses, read off the text ----

  /** How many of the first `n` characters are quotes. */
  function Quotes(s: string, n: nat): nat
    requires n <= |s|
  {
    if n == 0 then 0 else Quotes(s, n - 1) + (if s[n - 1] == '\'' then 1 else 0)
  }

  /** No string literal is open at `i`: the number of quotes before it is even. */
  predicate Outside(s: string, i: nat)
    requires i <= |s|
  {
    Quotes(s, i) % 2 == 0
  }

  /** How many of the first `n` characters are `c` and in no string literal. */
  function Plain(s: string, n: nat, c: char): nat
    requires n <= |s|
  {
    if n == 0 then 0 else Plain(s, n - 1, c) + (if s[n - 1] == c && Outside(s, n - 1) then 1 else 0)
  }

  /** No literal is open at `i`, and as many parentheses have been closed as opened. */
  predicate AtTop(s: string, i: nat)
    requires i <= |s|
  {
    Outside(s, i) && Plain(s, i, '(') == Plain(s, i, ')')
  }

  predicate Separates(s: string, i: nat) {
    i < |s| && s[i] == ',' && AtTop(s, i)
  }

  /** The separating commas among the first `n` characters, in order. */
  ghost function Separators(s: string, n: nat): seq<nat>
    requires n <= |s|
  {
    if n == 0 then [] else Separators(s, n - 1) + (if Separates(s, n - 1) then [n - 1] else [])
  }

  ghost predicate Rising(at: seq<nat>) {
    forall k, l :: 0 <= k < l < |at| ==> at[k] < at[l]
  }

  lemma {:induction false} SeparatorsAre(s: string, n: nat)
    requires n <= |s|
    ensures forall i: nat :: i in Separators(s, n) <==> i < n && Separates(s, i)
    ensures Rising(Separators(s, n))
  {
    if n > 0 {
      var init := Separators(s, n - 1);
      SeparatorsAre(s, n - 1);
      forall k | 0 <= k < |init|
        ensures init[k] < n - 1
      {
        assert init[k] in init;
      }
    }
  }

  /** Where the stretch after the first `k` separators begins. */
  ghost function From(at: seq<nat>, k: nat): nat
    requires k <= |at|
  {
    if k == 0 then 0 else at[k - 1] + 1
  }

  /** The stretch of `s` that begins after the first `k` separators and ends at the next, or at the end. */
  ghost function Stretch(s: string, at: seq<nat>, k: nat): string
    requires k <= |at|
  {
    var a, b := From(at, k), if k < |at| then at[k] else |s|;
    if a <= b <= |s| then s[a..b] else ""
  }

  /** The trimmed stretches that end at a separator. */
  ghost function Stretches(s: string, at: seq<nat>): (r: seq<string>)
    ensures |r| == |at| && forall k :: 0 <= k < |at| ==> r[k] == Trim(Stretch(s, at, k))
  {
    seq(|at|, k requires 0 <= k < |at| => Trim(Stretch(s, at, k)))
  }

  /** The clauses of a SET list: the stretches between separating commas, the last one unless it is empty. */
  ghost function Split(s: string): seq<string> {
    var at := Separators(s, |s|);
    Stretches(s, at) + (if Stretch(s, at, |at|) != "" then [Trim(Stretch(s, at, |at|))] else [])
  }

  lemma StretchNext(s: string, at: seq<nat>, i: nat, k: nat)
    requires k <= |at| && From(at, |at|) <= i < |s|
    ensures Stretch(s, at + [i], k) == if k < |at| then Stretch(s, at, k) else s[From(at, |at|)..i]
  {
    assert From(at + [i], k) == From(at, k) && (at + [i])[k] == if k < |at| then at[k] else i;
  }

  lemma StretchesNext(s: string, at: seq<nat>, i: nat)
    requires From(at, |at|) <= i < |s|
    ensures Stretches(s, at + [i]) == Stretches(s, at) + [Trim(s[From(at, |at|)..i])]
  {
    forall k | 0 <= k <= |at|
      ensures Stretches(s, at + [i])[k] == (Stretches(s, at) + [Trim(s[From(at, |at|)..i])])[k]
    {
      StretchNext(s, at, i, k);
    }
  }

  /** Where the stretch that reaches `i` begins. */
  ghost function Start(s: string, i: nat): nat
    requires i <= |s|
  {
    From(Separators(s, i), |Separators(s, i)|)
  }

  lemma StartStep(s: string, i: nat)
    requires i < |s|
    ensures Separates(s, i) ==> Start(s, i + 1) == i + 1 && Separators(s, i + 1) == Separators(s, i) + [i]
    ensures !Separates(s, i) ==> Separators(s, i + 1) == Separators(s, i)
  {
  }

  lemma {:induction false} StartBefore(s: string, i: nat)
    requires i <= |s|
    ensures Start(s, i) <= i
  {
    if i > 0 {
      StartBefore(s, i - 1);
      StartStep(s, i - 1);
    }
  }

  /** The clauses complete before `i`. */
  ghost function Before(s: string, i: nat): seq<string>
    requires i <= |s|
  {
    Stretches(s, Separators(s, i))
  }

  lemma BeforeStep(s: string, i: nat)
    requires i < |s| && Start(s, i) <= i
    ensures Separates(s, i) ==> Before(s, i + 1) == Before(s, i) + [Trim(s[Start(s, i)..i])] && Start(s, i + 1) == i + 1
    ensures !Separates(s, i) ==> Before(s, i + 1) == Before(s, i) && Start(s, i + 1) == Start(s, i)
  {
    StartStep(s, i);
    if Separates(s, i) {
      StretchesNext(s, Separators(s, i), i);
    }
  }

  lemma SplitEnds(s: string)
    ensures Start(s, |s|) <= |s|
    ensures Split(s) == Before(s, |s|) + (if Start(s, |s|) < |s| then [Trim(s[Start(s, |s|)..])] else [])
  {
    StartBefore(s, |s|);
    var at := Separators(s, |s|);
    assert Stretch(s, at, |at|) == s[Start(s, |s|)..];
  }

  method SplitSetClauses(s: string) returns (parts: seq<string>)
    ensures parts == Split(s)
  {
    parts := [];
    var depth, inStr, start := 0, false, 0;
    for i := 0 to |s|
      invariant depth == Plain(s, i, '(') - Plain(s, i, ')') && (inStr <==> !Outside(s, i))
      invariant parts == Before(s, i) && start == Start(s, i) <= i
    {
      var ch := s[i];
      BeforeStep(s, i);
      if inStr {
        if ch == '\'' {
          inStr := false;
        }
      } else if ch == '\'' {
        inStr := true;
      } else if ch == '(' {
        depth := depth + 1;
      } else if ch == ')' {
        depth := depth - 1;
      } else if ch == ',' && depth == 0 {
        parts := parts + [Trim(s[start..i])];
        start := i + 1;
      }
    }
    SplitEnds(s);
    if start < |s| {
      parts := parts + [Trim(s[start..])];
    }
  }

  // ---- The same as a scan ----

  /** Where the scan is: how deep in parentheses, and whether inside a string. */
  datatype Mode = Mode(depth: int, inStr: bool)

  const TOP := Mode(0, false)

  predicate Cuts(m: Mode, ch: char) {
    ch == ',' && m == TOP
  }

  function Next(m: Mode, ch: char): Mode {
    if m.inStr then m.(inStr := ch != '\'')
    else if ch == '\'' then m.(inStr := true)
    else if ch == '(' then m.(depth := m.depth + 1)
    else if ch == ')' then m.(depth := m.depth - 1)
    else m
  }

  /** The mode of the scan at `i`, from the counts. */
  function ModeAt(s: string, i: nat): Mode
    requires i <= |s|
  {
    Mode(Plain(s, i, '(') - Plain(s, i, ')'), !Outside(s, i))
  }

  lemma NextModeAt(s: string, i: nat)
    requires i < |s|
    ensures Next(ModeAt(s, i), s[i]) == ModeAt(s, i + 1)
    ensures Cuts(ModeAt(s, i), s[i]) <==> Separates(s, i)
  {
  }

  /** The clauses of `s`, the scan being in mode `m` with `cur` read since the last cut. */
  function Parts(s: string, m: Mode, cur: string): seq<string>
    decreases |s|
  {
    if s == "" then (if cur == "" then [] else [Trim(cur)])
    else if Cuts(m, s[0]) then [Trim(cur)] + Parts(s[1..], m, "")
    else Parts(s[1..], Next(m, s[0]), cur + [s[0]])
  }

  /** One character of the scan. */
  lemma PartsStep(s: string, i: nat, m: Mode, start: nat)
    requires start <= i < |s|
    ensures Parts(s[i..], m, s[start..i]) ==
      if Cuts(m, s[i]) then [Trim(s[start..i])] + Parts(s[i + 1..], m, "")
      else Parts(s[i + 1..], Next(m, s[i]), s[start..i + 1])
  {
    assert s[i..][1..] == s[i + 1..] && s[start..i] + [s[i]] == s[start..i + 1];
  }

  lemma CutStep(parts: seq<string>, part: string, rest: seq<string>)
    ensures parts + ([part] + rest) == (parts + [part]) + rest
  {
  }

  lemma SameModeAfter(s: string, i: nat)
    requires Separates(s, i)
    ensures s[i + 1..i + 1] == "" && ModeAt(s, i) == TOP == ModeAt(s, i + 1)
  {
  }

  lemma PartsCut(s: string, i: nat, start: nat)
    requires Separates(s, i) && start == Start(s, i) <= i
    ensures Before(s, i) + Parts(s[i..], ModeAt(s, i), s[start..i]) ==
            Before(s, i + 1) + Parts(s[i + 1..], ModeAt(s, i + 1), s[i + 1..i + 1])
  {
    NextModeAt(s, i);
    BeforeStep(s, i);
    PartsStep(s, i, ModeAt(s, i), start);
    SameModeAfter(s, i);
    CutStep(Before(s, i), Trim(s[start..i]), Parts(s[i + 1..], TOP, ""));
  }

  lemma PartsKept(s: string, i: nat, start: nat)
    requires i < |s| && !Separates(s, i) && start == Start(s, i) <= i
    ensures Parts(s[i..], ModeAt(s, i), s[start..i]) == Parts(s[i + 1..], ModeAt(s, i + 1), s[start..i + 1])
  {
    NextModeAt(s, i);
    PartsStep(s, i, ModeAt(s, i), start);
  }

  /** What is still to come from `i` on. */
  lemma {:induction false} PartsFrom(s: string, i: nat, start: nat)
    requires i <= |s| && start == Start(s, i) <= i
    ensures Before(s, i) + Parts(s[i..], ModeAt(s, i), s[start..i]) == Split(s)
    decreases |s| - i
  {
    if i == |s| {
      SplitEnds(s);
      assert s[i..] == "" && s[start..i] == s[start..];
    } else {
      BeforeStep(s, i);
      if Separates(s, i) {
        PartsCut(s, i, start);
        PartsFrom(s, i + 1, i + 1);
      } else {
        PartsKept(s, i, start);
        PartsFrom(s, i + 1, start);
      }
    }
  }

  lemma PartsAreSplit(s: string)
    ensures Parts(s, TOP, "") == Split(s)
  {
    PartsFrom(s, 0, 0);
    assert s[0..] == s && s[0..0] == "" && ModeAt(s, 0) == TOP && Before(s, 0) == [];
  }

  /** The mode after scanning `s`, if no comma in it is a cut. */
  function Through(m: Mode, s: string): Option<Mode>
    decreases |s|
  {
    if s == "" then Some(m) else if Cuts(m, s[0]) then None else Through(Next(m, s[0]), s[1..])
  }

  /** An item with no separating comma of its own. */
  ghost predicate Whole(item: string) {
    forall i: nat :: i < |item| ==> !Separates(item, i)
  }

  /** And with its literals and parentheses closed at the end. */
  ghost predicate Closed(item: string) {
    Whole(item) && AtTop(item, |item|)
  }

  lemma {:induction false} ThroughFrom(s: string, i: nat)
    requires i <= |s|
    ensures (forall j: nat :: i <= j < |s| ==> !Separates(s, j)) ==>
            Through(ModeAt(s, i), s[i..]) == Some(ModeAt(s, |s|))
    ensures (exists j: nat :: i <= j < |s| && Separates(s, j)) ==> Through(ModeAt(s, i), s[i..]).None?
    decreases |s| - i
  {
    if i < |s| {
      NextModeAt(s, i);
      ThroughFrom(s, i + 1);
      assert s[i..][1..] == s[i + 1..];
    }
  }

  lemma ClosedIsThrough(item: string)
    ensures Whole(item) <==> Through(TOP, item).Some?
    ensures Closed(item) <==> Through(TOP, item) == Some(TOP)
  {
    ThroughFrom(item, 0);
    assert item[0..] == item && ModeAt(item, 0) == TOP;
  }

  lemma {:induction false} ScanThrough(item: string, rest: string, m: Mode, cur: string)
    requires Through(m, item).Some?
    ensures Parts(item + rest, m, cur) == Parts(rest, Through(m, item).value, cur + item)
    decreases |item|
  {
    if item == "" {
      assert item + rest == rest && cur + item == cur;
    } else {
      assert (item + rest)[0] == item[0] && (item + rest)[1..] == item[1..] + rest;
      assert (cur + [item[0]]) + item[1..] == cur + item;
      ScanThrough(item[1..], rest, Next(m, item[0]), cur + [item[0]]);
    }
  }

  function Join(items: seq<string>): string {
    if items == [] then "" else if |items| == 1 then items[0] else items[0] + "," + Join(items[1..])
  }

  function Trims(items: seq<string>): (r: seq<string>)
    ensures |r| == |items|
  {
    if items == [] then [] else [Trim(items[0])] + Trims(items[1..])
  }

  // ---- When splitting gives the items back ----

  /** Every item but the last is closed, and the last has text and no separating comma. */
  ghost predicate Listable(items: seq<string>) {
    items == [] ||
    var last := items[|items| - 1];
    (forall i :: 0 <= i < |items| - 1 ==> Closed(items[i])) && Whole(last) && last != ""
  }

  lemma FirstItem(item: string, rest: string)
    requires Closed(item)
    ensures Parts(item + "," + rest, TOP, "") == [Trim(item)] + Parts(rest, TOP, "")
  {
    var more := "," + rest;
    assert item + "," + rest == item + more && "" + item == item;
    ClosedIsThrough(item);
    ScanThrough(item, more, TOP, "");
    assert more[0] == ',' && more[1..] == rest;
  }

  /** What is read before the first cut. */
  function FirstPiece(s: string, m: Mode): (r: string)
    ensures r <= s && (|r| < |s| ==> s[|r|] == ',')
    decreases |s|
  {
    if s == "" || Cuts(m, s[0]) then "" else [s[0]] + FirstPiece(s[1..], Next(m, s[0]))
  }

  lemma {:induction false} PartsStart(s: string, m: Mode, cur: string)
    requires s != "" || cur != ""
    ensures Parts(s, m, cur) != [] && Parts(s, m, cur)[0] == Trim(cur + FirstPiece(s, m))
    decreases |s|
  {
    if s == "" || Cuts(m, s[0]) {
      assert cur + "" == cur;
    } else {
      PartsStart(s[1..], Next(m, s[0]), cur + [s[0]]);
      Snoc(cur, s[0], FirstPiece(s[1..], Next(m, s[0])));
    }
  }

  lemma Snoc(a: string, c: char, b: string)
    ensures (a + [c]) + b == a + ([c] + b)
  {
  }

  function Commas(s: string): nat {
    multiset(s)[',']
  }

  lemma CommasConcat(a: string, b: string)
    ensures Commas(a + b) == Commas(a) + Commas(b)
  {
    assert multiset(a + b) == multiset(a) + multiset(b);
  }

  lemma {:induction false} TrimLeftKeepsCommas(s: string)
    ensures Commas(TrimLeft(s)) == Commas(s)
    decreases |s|
  {
    if s != "" && IsSpace(s[0]) {
      TrimLeftKeepsCommas(s[1..]);
      assert s == [s[0]] + s[1..];
      CommasConcat([s[0]], s[1..]);
    }
  }

  lemma {:induction false} TrimRightKeepsCommas(s: string)
    ensures Commas(TrimRight(s)) == Commas(s)
    decreases |s|
  {
    if s != "" && IsSpace(s[|s| - 1]) {
      TrimRightKeepsCommas(s[..|s| - 1]);
      assert s == s[..|s| - 1] + [s[|s| - 1]];
      CommasConcat(s[..|s| - 1], [s[|s| - 1]]);
    }
  }

  /** Text cut short before a comma is not the same text, trimmed or not. */
  lemma TrimLonger(p: string, s: string)
    requires p <= s && |p| < |s| && s[|p|] == ','
    ensures Trim(p) != Trim(s)
  {
    var rest := s[|p| + 1..];
    assert s == p + ("," + rest);
    CommasConcat(p, "," + rest);
    CommasConcat(",", rest);
    TrimLeftKeepsCommas(p);
    TrimRightKeepsCommas(TrimLeft(p));
    TrimLeftKeepsCommas(s);
    TrimRightKeepsCommas(TrimLeft(s));
  }

  lemma {:induction false} PieceIsClosed(item: string, rest: string, m: Mode)
    requires FirstPiece(item + "," + rest, m) == item
    ensures Through(m, item) == Some(TOP)
    decreases |item|
  {
    var s := item + "," + rest;
    if item == "" {
      assert s[0] == ',';
    } else {
      assert s[0] == item[0] && s[1..] == item[1..] + "," + rest;
      assert FirstPiece(s, m)[1..] == item[1..];
      PieceIsClosed(item[1..], rest, Next(m, item[0]));
    }
  }

  lemma {:induction false} PieceIsWhole(s: string, m: Mode)
    ensures FirstPiece(s, m) == s <==> Through(m, s).Some?
    decreases |s|
  {
    if s != "" && !Cuts(m, s[0]) {
      PieceIsWhole(s[1..], Next(m, s[0]));
      assert FirstPiece(s, m)[1..] == FirstPiece(s[1..], Next(m, s[0]));
      assert s == [s[0]] + s[1..];
    }
  }

  /** Two beginnings of one text, each ending at a comma, that trim alike are one. */
  lemma SamePiece(s: string, p: string, q: string)
    requires p <= s && q <= s && (|p| < |s| ==> s[|p|] == ',') && (|q| < |s| ==> s[|q|] == ',')
    requires Trim(p) == Trim(q)
    ensures p == q
  {
    if |p| < |q| {
      assert q[|p|] == s[|p|] && p <= q;
      TrimLonger(p, q);
    } else if |q| < |p| {
      assert p[|q|] == s[|q|] && q <= p;
      TrimLonger(q, p);
    }
  }

  lemma FirstPieceIsItem(item: string, rest: string)
    requires Trim(FirstPiece(item + "," + rest, TOP)) == Trim(item)
    ensures Through(TOP, item) == Some(TOP)
  {
    var s := item + "," + rest;
    assert item <= s && s[|item|] == ',';
    SamePiece(s, FirstPiece(s, TOP), item);
    PieceIsClosed(item, rest, TOP);
  }

  /** The first part is the first item only if the first cut is the comma after it. */
  lemma FirstPartIsItem(item: string, rest: string)
    ensures var parts := Parts(item + "," + rest, TOP, ""); parts != [] && (parts[0] == Trim(item) ==> Closed(item))
  {
    var s := item + "," + rest;
    PartsStart(s, TOP, "");
    assert "" + FirstPiece(s, TOP) == FirstPiece(s, TOP);
    ClosedIsThrough(item);
    if Parts(s, TOP, "")[0] == Trim(item) {
      FirstPieceIsItem(item, rest);
    }
  }

  lemma OneItem(item: string)
    ensures Parts(item, TOP, "") == [Trim(item)] <==> Whole(item) && item != ""
  {
    ClosedIsThrough(item);
    if item != "" {
      var p := FirstPiece(item, TOP);
      PartsStart(item, TOP, "");
      assert "" + p == p;
      PieceIsWhole(item, TOP);
      if |p| < |item| {
        TrimLonger(p, item);
      } else {
        assert item + "" == item && "" + item == item;
        ScanThrough(item, "", TOP, "");
      }
    }
  }

  lemma {:induction false} PartsInvertJoinIff(items: seq<string>)
    ensures Parts(Join(items), TOP, "") == Trims(items) <==> Listable(items)
  {
    if |items| == 1 {
      OneItem(items[0]);
      assert Trims(items) == [Trim(items[0])] + Trims(items[1..]);
    } else if items != [] {
      PartsInvertJoinIff(items[1..]);
      ListableTail(items);
      if Closed(items[0]) {
        FirstItem(items[0], Join(items[1..]));
        SameTail(Trim(items[0]), Parts(Join(items[1..]), TOP, ""), Trims(items[1..]));
      } else {
        FirstPartIsItem(items[0], Join(items[1..]));
      }
    }
  }

  /** Splitting a join gives back every item, trimmed, exactly when the items are listable. */
  lemma SplitInvertsJoinIff(items: seq<string>)
    ensures Split(Join(items)) == Trims(items) <==> Listable(items)
  {
    PartsInvertJoinIff(items);
    PartsAreSplit(Join(items));
  }

  lemma SameTail(x: string, a: seq<string>, b: seq<string>)
    ensures [x] + a == [x] + b <==> a == b
  {
    assert ([x] + a)[1..] == a && ([x] + b)[1..] == b;
  }

  lemma ListableTail(items: seq<string>)
    requires |items| >= 2
    ensures Listable(items) <==> Closed(items[0]) && Listable(items[1..])
  {
    assert items[1..][|items| - 2] == items[|items| - 1];
    assert forall i :: 0 <= i < |items| - 2 ==> items[1..][i] == items[i + 1];
    if Closed(items[0]) && Listable(items[1..]) {
      forall i | 0 <= i < |items| - 1
        ensures Closed(items[i])
      {
        assert i > 0 ==> items[i] == items[1..][i - 1];
      }
    }
  }

  /** A bare comma inside an item, and an empty last item, are both lost. */
  lemma NotListable()
    ensures Split(Join(["a,b"])) != Trims(["a,b"])
    ensures Split(Join(["a", ""])) != Trims(["a", ""])
  {
    SplitInvertsJoinIff(["a,b"]);
    SplitInvertsJoinIff(["a", ""]);
    assert Quotes("a,b", 1) == 0 && Plain("a,b", 1, '(') == 0 && Plain("a,b", 1, ')') == 0;
    assert Separates("a,b", 1);
    assert !Whole(["a,b"][0]);
    assert ["a", ""][1] == "";
  }
}
