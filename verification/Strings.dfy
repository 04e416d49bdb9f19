/** Python's string stripping, with the set of dropped characters as a predicate. */
module Strings {

  function TrimLeft(s: string, drop: char -> bool): string {
    if s != "" && drop(s[0]) then TrimLeft(s[1..], drop) else s
  }

  function TrimRight(s: string, drop: char -> bool): string {
    if s != "" && drop(s[|s| - 1]) then TrimRight(s[..|s| - 1], drop) else s
  }

  function Trim(s: string, drop: char -> bool): string {
    TrimRight(TrimLeft(s, drop), drop)
  }

  lemma {:induction false} TrimLeftSplits(s: string, drop: char -> bool) returns (before: string)
    ensures s == before + TrimLeft(s, drop)
    ensures forall i :: 0 <= i < |before| ==> drop(before[i])
  {
    before := "";
    if s != "" && drop(s[0]) {
      var rest := TrimLeftSplits(s[1..], drop);
      before := [s[0]] + rest;
    }
  }

  lemma {:induction false} TrimRightSplits(s: string, drop: char -> bool) returns (after: string)
    ensures s == TrimRight(s, drop) + after
    ensures forall i :: 0 <= i < |after| ==> drop(after[i])
  {
    after := "";
    if s != "" && drop(s[|s| - 1]) {
      var rest := TrimRightSplits(s[..|s| - 1], drop);
      after := rest + [s[|s| - 1]];
    }
  }

  lemma {:induction false} TrimLeftStops(s: string, drop: char -> bool)
    ensures var t := TrimLeft(s, drop); t != "" ==> !drop(t[0])
  {
    if s != "" && drop(s[0]) {
      TrimLeftStops(s[1..], drop);
    }
  }

  lemma {:induction false} TrimRightStops(s: string, drop: char -> bool)
    ensures var t := TrimRight(s, drop); t != "" ==> !drop(t[|t| - 1]) && t[0] == s[0]
  {
    if s != "" && drop(s[|s| - 1]) {
      TrimRightStops(s[..|s| - 1], drop);
    }
  }

  /** Trimming takes dropped characters off both ends and stops at the first that is kept, and this fixes its result. */
  lemma {:induction false} TrimStripsExactly(s: string, drop: char -> bool) returns (before: string, after: string)
    ensures s == before + Trim(s, drop) + after
    ensures forall i :: 0 <= i < |before| ==> drop(before[i])
    ensures forall i :: 0 <= i < |after| ==> drop(after[i])
    ensures var t := Trim(s, drop); t != "" ==> !drop(t[0]) && !drop(t[|t| - 1])
    ensures Trim(s, drop) == "" <==> forall i :: 0 <= i < |s| ==> drop(s[i])
  {
    before := TrimLeftSplits(s, drop);
    after := TrimRightSplits(TrimLeft(s, drop), drop);
    TrimLeftStops(s, drop);
    TrimRightStops(TrimLeft(s, drop), drop);
    var t := Trim(s, drop);
    assert s == before + (t + after) == before + t + after;
    if t == "" {
      assert s == before + after;
    } else {
      assert s[|before|] == t[0];
    }
  }
}
