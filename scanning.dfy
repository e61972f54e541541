/**
 * A left-to-right scan of a string for non-overlapping matches, given the
 * length of the match that starts at each position (0 where none does):
 * the shape of Python's `re.findall`, apart from the pattern itself.
 */
module Scanning {
  /**
   * A left-to-right scan given the match length at each position: a match
   * is taken where there is one and the scan resumes after it, otherwise
   * the scan moves one character on.
   */
  function ScanFrom(s: string, lens: seq<nat>, i: nat): seq<string>
    requires |lens| == |s|
    decreases |s| - i
  {
    if i >= |s| then []
    else if 0 < lens[i] && i + lens[i] <= |s| then [s[i..i + lens[i]]] + ScanFrom(s, lens, i + lens[i])
    else ScanFrom(s, lens, i + 1)
  }

  /** Each match in `ms` is the text of the match length at its position `ps[j]`, from `i` on. */
  ghost predicate FoundAt(s: string, lens: seq<nat>, i: nat, ms: seq<string>, ps: seq<nat>)
    requires |lens| == |s|
  {
    && |ps| == |ms|
    && forall j :: 0 <= j < |ps| ==>
         && i <= ps[j] < |s| && 0 < lens[ps[j]] == |ms[j]|
         && ps[j] + |ms[j]| <= |s| && ms[j] == s[ps[j]..ps[j] + |ms[j]|]
  }

  /** The matches come in order and do not overlap. */
  ghost predicate InOrder(ms: seq<string>, ps: seq<nat>)
    requires |ps| == |ms|
  {
    forall j, j' :: 0 <= j < j' < |ps| ==> ps[j] + |ms[j]| <= ps[j']
  }

  /** Position `q` lies inside one of the matches. */
  ghost predicate Covered(q: nat, ms: seq<string>, ps: seq<nat>)
    requires |ps| == |ms|
  {
    exists j :: 0 <= j < |ps| && ps[j] <= q < ps[j] + |ms[j]|
  }

  /** No position from `i` on outside the matches starts a match that fits. */
  ghost predicate NoneSkipped(s: string, lens: seq<nat>, i: nat, ms: seq<string>, ps: seq<nat>)
    requires |lens| == |s| && |ps| == |ms|
  {
    forall q :: i <= q < |s| && !Covered(q, ms, ps) ==> lens[q] == 0 || q + lens[q] > |s|
  }

  /**
   * `ps` are the positions where a scan from `i` found the matches `ms`:
   * each match is the text of the match length at its position, the
   * matches come in order without overlapping, and no position outside
   * them starts a match.
   */
  ghost predicate ScanPositions(s: string, lens: seq<nat>, i: nat, ms: seq<string>, ps: seq<nat>)
    requires |lens| == |s|
  {
    FoundAt(s, lens, i, ms, ps) && InOrder(ms, ps) && NoneSkipped(s, lens, i, ms, ps)
  }

  /** Taking a match at `i` in front of a scan from after it keeps each match at its position. */
  lemma TakeFoundAt(s: string, lens: seq<nat>, i: nat, rest: seq<string>, ps: seq<nat>)
    requires |lens| == |s| && i < |s| && 0 < lens[i] && i + lens[i] <= |s|
    requires FoundAt(s, lens, i + lens[i], rest, ps)
    ensures FoundAt(s, lens, i, [s[i..i + lens[i]]] + rest, [i] + ps)
  {
    var ms, ps' := [s[i..i + lens[i]]] + rest, [i] + ps;
    forall j | 1 <= j < |ps'|
      ensures i <= ps'[j] < |s| && 0 < lens[ps'[j]] == |ms[j]|
      ensures ps'[j] + |ms[j]| <= |s| && ms[j] == s[ps'[j]..ps'[j] + |ms[j]|]
    {
      assert ps'[j] == ps[j - 1];
      assert ms[j] == rest[j - 1];
    }
  }

  /** Taking a match at `i` in front of a scan from after it keeps the matches in order. */
  lemma TakeInOrder(s: string, lens: seq<nat>, i: nat, rest: seq<string>, ps: seq<nat>)
    requires |lens| == |s| && i < |s| && 0 < lens[i] && i + lens[i] <= |s|
    requires FoundAt(s, lens, i + lens[i], rest, ps) && InOrder(rest, ps)
    ensures InOrder([s[i..i + lens[i]]] + rest, [i] + ps)
  {
    var ms, ps' := [s[i..i + lens[i]]] + rest, [i] + ps;
    forall j, j' | 0 <= j < j' < |ps'|
      ensures ps'[j] + |ms[j]| <= ps'[j']
    {
      assert ps'[j'] == ps[j' - 1];
      if j > 0 {
        assert ps'[j] == ps[j - 1] && ms[j] == rest[j - 1];
      }
    }
  }

  /** A position inside a new first match, or inside a later one, is covered. */
  lemma CoveredCons(q: nat, m: string, rest: seq<string>, p: nat, ps: seq<nat>)
    requires |ps| == |rest|
    ensures (p <= q < p + |m| || Covered(q, rest, ps)) ==> Covered(q, [m] + rest, [p] + ps)
  {
    var ms, ps' := [m] + rest, [p] + ps;
    if p <= q < p + |m| {
      assert ps'[0] <= q < ps'[0] + |ms[0]|;
    } else if Covered(q, rest, ps) {
      var j :| 0 <= j < |ps| && ps[j] <= q < ps[j] + |rest[j]|;
      assert ps'[j + 1] <= q < ps'[j + 1] + |ms[j + 1]|;
    }
  }

  /** Taking a match at `i` in front of a scan from after it skips no match. */
  lemma TakeNoneSkipped(s: string, lens: seq<nat>, i: nat, rest: seq<string>, ps: seq<nat>)
    requires |lens| == |s| && i < |s| && 0 < lens[i] && i + lens[i] <= |s|
    requires |ps| == |rest| && NoneSkipped(s, lens, i + lens[i], rest, ps)
    ensures NoneSkipped(s, lens, i, [s[i..i + lens[i]]] + rest, [i] + ps)
  {
    var ms, ps' := [s[i..i + lens[i]]] + rest, [i] + ps;
    forall q | i <= q < |s| && !Covered(q, ms, ps')
      ensures lens[q] == 0 || q + lens[q] > |s|
    {
      CoveredCons(q, ms[0], rest, i, ps);
    }
  }

  /** Taking a match at `i` in front of a scan from after it. */
  lemma ScanPositionsTake(s: string, lens: seq<nat>, i: nat, rest: seq<string>, ps: seq<nat>)
    requires |lens| == |s| && i < |s| && 0 < lens[i] && i + lens[i] <= |s|
    requires ScanPositions(s, lens, i + lens[i], rest, ps)
    ensures ScanPositions(s, lens, i, [s[i..i + lens[i]]] + rest, [i] + ps)
  {
    TakeFoundAt(s, lens, i, rest, ps);
    TakeInOrder(s, lens, i, rest, ps);
    TakeNoneSkipped(s, lens, i, rest, ps);
  }

  /** Moving past a position where no match is taken. */
  lemma ScanPositionsSkip(s: string, lens: seq<nat>, i: nat, ms: seq<string>, ps: seq<nat>)
    requires |lens| == |s| && i < |s| && !(0 < lens[i] && i + lens[i] <= |s|)
    requires ScanPositions(s, lens, i + 1, ms, ps)
    ensures ScanPositions(s, lens, i, ms, ps)
  {
  }

  /** The scan finds each of its matches where it stands and skips none. */
  lemma {:induction false} ScanFromPositions(s: string, lens: seq<nat>, i: nat)
    requires |lens| == |s|
    ensures exists ps :: ScanPositions(s, lens, i, ScanFrom(s, lens, i), ps)
    decreases |s| - i
  {
    if i >= |s| {
      assert ScanFrom(s, lens, i) == [];
      assert ScanPositions(s, lens, i, [], []);
    } else {
      ScanStep(s, lens, i);
      if 0 < lens[i] && i + lens[i] <= |s| {
        ScanFromPositions(s, lens, i + lens[i]);
        var ps :| ScanPositions(s, lens, i + lens[i], ScanFrom(s, lens, i + lens[i]), ps);
        ScanPositionsTake(s, lens, i, ScanFrom(s, lens, i + lens[i]), ps);
      } else {
        ScanFromPositions(s, lens, i + 1);
        var ps :| ScanPositions(s, lens, i + 1, ScanFrom(s, lens, i + 1), ps);
        ScanPositionsSkip(s, lens, i, ScanFrom(s, lens, i + 1), ps);
      }
    }
  }

  /** Every match of a scan from `i` is the text of the match length at some position from `i` on. */
  lemma {:induction false} ScanMembers(s: string, lens: seq<nat>, i: nat)
    requires |lens| == |s|
    ensures forall m :: m in ScanFrom(s, lens, i) ==>
      exists p :: i <= p < |s| && 0 < lens[p] && p + lens[p] <= |s| && m == s[p..p + lens[p]]
    decreases |s| - i
  {
    if i < |s| {
      ScanStep(s, lens, i);
      if 0 < lens[i] && i + lens[i] <= |s| {
        ScanMembers(s, lens, i + lens[i]);
      } else {
        ScanMembers(s, lens, i + 1);
      }
    }
  }

  /** One step of the scan. */
  lemma ScanStep(s: string, lens: seq<nat>, i: nat)
    requires |lens| == |s| && i < |s|
    ensures 0 < lens[i] && i + lens[i] <= |s| ==> ScanFrom(s, lens, i) == [s[i..i + lens[i]]] + ScanFrom(s, lens, i + lens[i])
    ensures !(0 < lens[i] && i + lens[i] <= |s|) ==> ScanFrom(s, lens, i) == ScanFrom(s, lens, i + 1)
  {
  }
}
