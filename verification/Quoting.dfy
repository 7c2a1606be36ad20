/**
 String literals and delimited identifiers: the printers that double a quote, the
 readers that undo it, and where the NULL keyword stands apart.
 */
module Quoting {
  import opened Options
  import opened Names
  import opened Spaces

  /** Every `q` written twice. */
  function Double(q: char, s: string): string {
    if s == "" then ""
    else (if s[0] == q then [q, q] else [s[0]]) + Double(q, s[1..])
  }

  /** Every pair of `q` read as one, from the left. */
  function Undouble(q: char, s: string): string {
    if s == "" then ""
    else if |s| >= 2 && s[0] == q && s[1] == q then [q] + Undouble(q, s[2..])
    else [s[0]] + Undouble(q, s[1..])
  }

  lemma {:induction false} UndoubleDouble(q: char, s: string)
    ensures Undouble(q, Double(q, s)) == s
  {
    if s != "" {
      UndoubleDouble(q, s[1..]);
      var d := Double(q, s);
      if s[0] == q {
        assert d[2..] == Double(q, s[1..]);
      } else {
        assert d[1..] == Double(q, s[1..]);
      }
    }
  }

  ghost predicate NoPair(q: char, s: string) {
    |s| < 2 || (!(s[0] == q && s[1] == q) && NoPair(q, s[1..]))
  }

  /** Only a pair is read as one: text without a pair is read as it is. */
  lemma {:induction false} UndoubleLone(q: char, s: string)
    requires NoPair(q, s)
    ensures Undouble(q, s) == s
  {
    if s != "" {
      UndoubleLone(q, s[1..]);
      assert s == [s[0]] + s[1..];
    }
  }

  function Quoted(q: char, s: string): string {
    [q] + Double(q, s) + [q]
  }

  predicate IsQuoted(q: char, s: string) {
    |s| >= 2 && s[0] == q && s[|s| - 1] == q
  }

  /** A quote at either end, and they are two. */
  lemma IsQuotedMeans(q: char, s: string)
    ensures IsQuoted(q, s) <==> exists body: string :: s == [q] + body + [q]
  {
    if IsQuoted(q, s) {
      assert s == [q] + s[1..|s| - 1] + [q];
    }
  }

  function Unquoted(q: char, s: string): string
    requires IsQuoted(q, s)
  {
    Undouble(q, s[1..|s| - 1])
  }

  /** Quoting is undone exactly, whatever the value holds. */
  lemma UnquoteQuote(q: char, s: string)
    ensures IsQuoted(q, Quoted(q, s)) && Unquoted(q, Quoted(q, s)) == s
  {
    var t := Quoted(q, s);
    assert t[1..|t| - 1] == Double(q, s);
    UndoubleDouble(q, s);
  }

  // ---- Where a literal ends ----

  /** From `start` on the text is `value` with its quotes doubled, a quote, and then no quote; `end` is past it. */
  ghost predicate Lexes(q: char, text: string, start: nat, value: string, end: nat) {
    && start <= end <= |text| && text[start..end] == Double(q, value) + [q]
    && (end < |text| ==> text[end] != q)
  }

  /** How one character is written. */
  function Written(q: char, c: char): string {
    if c == q then [q, q] else [c]
  }

  lemma SameHead(q: char, c: char, a: string, d: char, b: string)
    requires Written(q, c) + a == Written(q, d) + b
    ensures c == d && a == b
  {
    var x, y := Written(q, c) + a, Written(q, d) + b;
    assert x[0] == c && y[0] == d;
    assert x[|Written(q, c)|..] == a && y[|Written(q, d)|..] == b;
  }

  lemma FirstWritten(q: char, w: string, rest: string)
    requires w != ""
    ensures Double(q, w) + rest == Written(q, w[0]) + (Double(q, w[1..]) + rest)
  {
  }

  /** One text cannot be the body of two literals. */
  lemma {:induction false} EndsOnce(q: char, v: string, w: string, after: string, rest: string)
    requires Double(q, v) + ([q] + after) == Double(q, w) + rest && (after != "" ==> after[0] != q)
    ensures w <= v
    decreases |v|
  {
    if w != "" {
      FirstWritten(q, w, rest);
      if v == "" {
        QuoteAlone(q, w[0], after, Double(q, w[1..]) + rest);
      } else {
        FirstWritten(q, v, [q] + after);
        SameHead(q, v[0], Double(q, v[1..]) + ([q] + after), w[0], Double(q, w[1..]) + rest);
        EndsOnce(q, v[1..], w[1..], after, rest);
      }
    }
  }

  /** A quote with no quote after it begins no character. */
  lemma QuoteAlone(q: char, c: char, after: string, rest: string)
    requires after != "" ==> after[0] != q
    ensures [q] + after != Written(q, c) + rest
  {
    var x, y := [q] + after, Written(q, c) + rest;
    assert x[0] == q && y[0] == c;
    if c == q {
      assert y[1] == q && (|x| > 1 ==> x[1] == after[0]);
    }
  }

  lemma DoublePrefix(q: char, v: string, w: string)
    requires w <= v
    ensures |Double(q, w)| <= |Double(q, v)|
  {
    if w != "" {
      assert w[1..] <= v[1..];
      DoublePrefix(q, v[1..], w[1..]);
    }
  }

  lemma LexesSplits(q: char, text: string, start: nat, v: string, end: nat)
    requires Lexes(q, text, start, v, end)
    ensures text[start..] == Double(q, v) + ([q] + text[end..])
  {
    assert text[start..] == text[start..end] + text[end..];
  }

  lemma LexesOnce(q: char, text: string, start: nat, v: string, end: nat, w: string, end': nat)
    requires Lexes(q, text, start, v, end) && Lexes(q, text, start, w, end')
    ensures v == w && end == end'
  {
    LexesSplits(q, text, start, v, end);
    LexesSplits(q, text, start, w, end');
    EndsOnce(q, v, w, text[end..], [q] + text[end'..]);
    EndsOnce(q, w, v, text[end'..], [q] + text[end..]);
  }

  lemma {:induction false} DoubleSnoc(q: char, s: string, c: char)
    ensures Double(q, s + [c]) == Double(q, s) + (if c == q then [q, q] else [c])
  {
    if s != "" {
      assert (s + [c])[0] == s[0] && (s + [c])[1..] == s[1..] + [c];
      DoubleSnoc(q, s[1..], c);
    } else {
      assert s + [c] == [c] && [c][1..] == "";
    }
  }

  /** What is read of an unfinished literal is the body of none. */
  lemma Unfinished(q: char, text: string, start: nat, read: string, v: string, end: nat)
    requires start <= |text| && text[start..] == Double(q, read)
    ensures !Lexes(q, text, start, v, end)
  {
    if Lexes(q, text, start, v, end) {
      LexesSplits(q, text, start, v, end);
      assert Double(q, read) + "" == Double(q, read);
      EndsOnce(q, v, read, text[end..], "");
      DoublePrefix(q, v, read);
    }
  }

  lemma NoneFinished(q: char, text: string, start: nat, read: string)
    requires start <= |text| && text[start..] == Double(q, read)
    ensures forall v, end :: !Lexes(q, text, start, v, end)
  {
    forall v, end: nat
      ensures !Lexes(q, text, start, v, end)
    {
      Unfinished(q, text, start, read, v, end);
    }
  }

  /** The lexer's string: the value and the position after it, or None when no quote ends it. */
  method LexString(q: char, text: string, start: nat) returns (r: Option<(string, nat)>)
    requires start <= |text|
    ensures r.Some? ==> Lexes(q, text, start, r.value.0, r.value.1)
    ensures r.None? ==> forall v, end :: !Lexes(q, text, start, v, end)
  {
    var value, pos := "", start;
    while pos < |text|
      invariant start <= pos <= |text| && text[start..pos] == Double(q, value)
    {
      var c := text[pos];
      DoubleSnoc(q, value, c);
      if c == q {
        if pos + 1 == |text| || text[pos + 1] != q {
          assert text[start..pos + 1] == text[start..pos] + [q];
          return Some((value, pos + 1));
        }
        assert text[start..pos + 2] == text[start..pos] + [q, q];
        pos := pos + 1;
      } else {
        assert text[start..pos + 1] == text[start..pos] + [c];
      }
      value, pos := value + [c], pos + 1;
    }
    assert text[start..pos] == text[start..];
    NoneFinished(q, text, start, value);
    return None;
  }

  /** No value ends its own literal: quoted, it is read back whole, and reading stops at its last quote. */
  lemma QuotedLexes(q: char, value: string, rest: string)
    requires rest != "" ==> rest[0] != q
    ensures Lexes(q, Quoted(q, value) + rest, 1, value, |Quoted(q, value)|)
  {
    var t := Quoted(q, value);
    assert (t + rest)[1..|t|] == Double(q, value) + [q];
  }

  // ---- Literals ----

  datatype Sign = Plus | Minus

  /** A constant of a SET or VALUES clause. A number's text begins with a digit or a point. */
  datatype Literal =
    | NullLiteral
    | StringLiteral(value: string)
    | BoolLiteral(text: string)
    | NumberLiteral(text: string)
    | SignedNumber(sign: Sign, text: string)

  predicate WellFormed(l: Literal) {
    && (l.BoolLiteral? ==> EqualFold(l.text, "true") || EqualFold(l.text, "false"))
    && (l.NumberLiteral? || l.SignedNumber? ==> l.text != "" && ('0' <= l.text[0] <= '9' || l.text[0] == '.'))
  }

  /** The text a constant is handed on as (`dmlLiteralText`). */
  function LiteralText(l: Literal): string {
    match l
    case NullLiteral => "NULL"
    case StringLiteral(value) => Quoted('\'', value)
    case BoolLiteral(text) => text
    case NumberLiteral(text) => text
    case SignedNumber(Plus, text) => text
    case SignedNumber(Minus, text) => "-" + text
  }

  /** The value a text column takes from it (`convertValue`); None is NULL. */
  function ConvertText(s: string): Option<string> {
    var t := Trim(s);
    if EqualFold(t, "null") then None
    else if IsQuoted('\'', t) then Some(Unquoted('\'', t))
    else Some(t)
  }

  /** Any string, quotes and spaces and the word NULL included, survives its literal. */
  lemma StringSurvives(value: string)
    ensures ConvertText(LiteralText(StringLiteral(value))) == Some(value)
  {
    var t := Quoted('\'', value);
    UnquoteQuote('\'', value);
    assert Trimmed(t);
    assert FoldChar(t[0]) == '\'' && FoldChar("null"[0]) == 'n';
  }

  /** NULL comes from the NULL keyword and from nothing else. */
  lemma NullOnlyFromKeyword(l: Literal)
    requires WellFormed(l)
    ensures ConvertText(LiteralText(l)).None? <==> l.NullLiteral?
  {
    if l.NullLiteral? {
      KeywordIsNull();
    } else if l.StringLiteral? {
      StringSurvives(l.value);
    } else {
      var t := LiteralText(l);
      assert l.BoolLiteral? ==> FoldChar(t[0]) == FoldChar("true"[0]) || FoldChar(t[0]) == FoldChar("false"[0]);
      StartsOtherwise(t);
    }
  }

  lemma KeywordIsNull()
    ensures ConvertText("NULL").None?
  {
  }

  lemma StartsOtherwise(s: string)
    requires s != "" && !IsSpace(s[0]) && FoldChar(s[0]) != 'n'
    ensures ConvertText(s).Some?
    ensures Trimmed(s) && s[0] != '\'' ==> ConvertText(s) == Some(s)
  {
  }

  /** A number keeps its text and a minus sign; a plus sign says nothing. */
  lemma NumberSurvives(l: Literal)
    requires WellFormed(l) && (l.NumberLiteral? || l.SignedNumber?) && Trimmed(l.text)
    ensures ConvertText(LiteralText(l)) == Some(if l.SignedNumber? && l.sign.Minus? then "-" + l.text else l.text)
  {
    StartsOtherwise(LiteralText(l));
  }

  lemma SameEnds(t: string, word: string)
    requires EqualFold(t, word) && word != ""
    ensures t != "" && FoldChar(t[0]) == FoldChar(word[0]) && FoldChar(t[|t| - 1]) == FoldChar(word[|word| - 1])
  {
  }

  /** And a truth value its spelling. */
  lemma BoolSurvives(l: Literal)
    requires WellFormed(l) && l.BoolLiteral?
    ensures ConvertText(LiteralText(l)) == Some(l.text)
  {
    var t := l.text;
    var word := if EqualFold(t, "true") then "true" else "false";
    SameEnds(t, word);
    assert word[0] in {'t', 'f'} && word[|word| - 1] == 'e';
    StartsOtherwise(t);
  }

  // ---- Identifiers ----

  /** A raw name as the lexer would read it (`dmlIdent`). */
  function Ident(s: string): string {
    var t := Trim(s);
    if IsQuoted('"', t) then Unquoted('"', t) else Fold(t)
  }

  /** A delimited identifier is read back byte for byte; an undelimited one is folded. */
  lemma IdentInvertsQuoting(name: string)
    ensures Ident(Quoted('"', name)) == name
  {
    UnquoteQuote('"', name);
    assert Trimmed(Quoted('"', name));
  }

  /** An undelimited name is folded: every spelling of it is one name, in lower case. */
  lemma IdentFolds(s: string)
    requires !IsQuoted('"', Trim(s))
    ensures Folded(Ident(s)) && EqualFold(Ident(s), Trim(s))
  {
    FoldIsFolded(Trim(s));
    FoldIsFolded(Fold(Trim(s)));
  }
}
