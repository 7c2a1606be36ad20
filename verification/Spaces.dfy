/** Trimming of white space at both ends, over the ASCII space characters. */
module Spaces {

  predicate IsSpace(c: char) {
    c in {' ', '\t', '\n', '\r', '\U{b}', '\U{c}'}
  }

  function TrimLeft(s: string): (r: string)
    ensures r == "" || !IsSpace(r[0])
    ensures s == "" || !IsSpace(s[0]) ==> r == s
    ensures s == "" || IsSpace(s[|s| - 1]) || (r != "" && r[|r| - 1] == s[|s| - 1])
  {
    if s != "" && IsSpace(s[0]) then TrimLeft(s[1..]) else s
  }

  function TrimRight(s: string): (r: string)
    ensures r == "" || !IsSpace(r[|r| - 1])
    ensures s == "" || !IsSpace(s[|s| - 1]) ==> r == s
    ensures s == "" || IsSpace(s[0]) || (r != "" && r[0] == s[0])
  {
    if s != "" && IsSpace(s[|s| - 1]) then TrimRight(s[..|s| - 1]) else s
  }

  /** Nothing left to trim. */
  predicate Trimmed(s: string) {
    s == "" || (!IsSpace(s[0]) && !IsSpace(s[|s| - 1]))
  }

  function Trim(s: string): (r: string)
    ensures Trimmed(r)
    ensures Trimmed(s) ==> r == s
  {
    TrimRight(TrimLeft(s))
  }

  predicate AllSpaces(s: string) {
    forall i :: 0 <= i < |s| ==> IsSpace(s[i])
  }

  lemma {:induction false} LeftLost(s: string) returns (lost: string)
    ensures AllSpaces(lost) && s == lost + TrimLeft(s)
  {
    lost := "";
    if s != "" && IsSpace(s[0]) {
      var more := LeftLost(s[1..]);
      lost := [s[0]] + more;
      assert s == [s[0]] + (more + TrimLeft(s));
    }
  }

  lemma {:induction false} RightLost(s: string) returns (lost: string)
    ensures AllSpaces(lost) && s == TrimRight(s) + lost
  {
    lost := "";
    if s != "" && IsSpace(s[|s| - 1]) {
      var more := RightLost(s[..|s| - 1]);
      lost := more + [s[|s| - 1]];
      assert s == (TrimRight(s) + more) + [s[|s| - 1]];
    }
  }

  /** Nothing but white space is lost, and only at the ends. */
  lemma TrimLosesSpaces(s: string) returns (left: string, right: string)
    ensures AllSpaces(left) && AllSpaces(right) && s == left + Trim(s) + right && Trimmed(Trim(s))
  {
    left := LeftLost(s);
    right := RightLost(TrimLeft(s));
    assert left + (Trim(s) + right) == left + Trim(s) + right;
  }
}
