/** Longest common subsequence, and how it bounds the edit distance. */
module Lcss {
  import opened EditDistance

  function Max(a: int, b: int): int
  {
    if a > b then a else b
  }

  /** Length for the first `i` and the first `j` characters. */
  function Length<T(==)>(s: seq<T>, t: seq<T>, i: nat, j: nat): nat
    requires i <= |s| && j <= |t|
    decreases i + j
  {
    if i == 0 || j == 0 then 0
    else if s[i - 1] == t[j - 1] then Length(s, t, i - 1, j - 1) + 1
    else Max(Length(s, t, i - 1, j), Length(s, t, i, j - 1))
  }

  /** Positions of a common subsequence in the first `i` and first `j`
      characters: increasing on both sides, equal characters. */
  ghost predicate Common<T>(ps: seq<(nat, nat)>, s: seq<T>, t: seq<T>, i: nat, j: nat)
    requires i <= |s| && j <= |t|
  {
    && (forall a :: 0 <= a < |ps| ==> ps[a].0 < i && ps[a].1 < j && s[ps[a].0] == t[ps[a].1])
    && (forall a, b :: 0 <= a < b < |ps| ==> ps[a].0 < ps[b].0 && ps[a].1 < ps[b].1)
  }

  lemma {:induction false} LengthSteps<T>(s: seq<T>, t: seq<T>, i: nat, j: nat)
    requires i <= |s| && j <= |t|
    ensures i > 0 ==> Length(s, t, i - 1, j) <= Length(s, t, i, j) <= Length(s, t, i - 1, j) + 1
    ensures j > 0 ==> Length(s, t, i, j - 1) <= Length(s, t, i, j) <= Length(s, t, i, j - 1) + 1
    decreases i + j
  {
    if i > 0 && j > 0 {
      LengthSteps(s, t, i - 1, j);
      LengthSteps(s, t, i, j - 1);
      LengthSteps(s, t, i - 1, j - 1);
    }
  }

  /** No common subsequence is longer. */
  lemma {:induction false} NoneLonger<T>(ps: seq<(nat, nat)>, s: seq<T>, t: seq<T>, i: nat, j: nat)
    requires i <= |s| && j <= |t| && Common(ps, s, t, i, j)
    ensures |ps| <= Length(s, t, i, j)
    decreases i + j
  {
    if ps != [] {
      var n := |ps| - 1;
      LengthSteps(s, t, i, j);
      if ps[n].0 < i - 1 {
        NoneLonger(ps, s, t, i - 1, j);
      } else if ps[n].1 < j - 1 {
        NoneLonger(ps, s, t, i, j - 1);
      } else {
        NoneLonger(ps[..n], s, t, i - 1, j - 1);
      }
    }
  }

  /** One of that length exists. */
  lemma {:induction false} Longest<T>(s: seq<T>, t: seq<T>, i: nat, j: nat) returns (ps: seq<(nat, nat)>)
    requires i <= |s| && j <= |t|
    ensures Common(ps, s, t, i, j) && |ps| == Length(s, t, i, j)
    decreases i + j
  {
    if i == 0 || j == 0 {
      ps := [];
    } else if s[i - 1] == t[j - 1] {
      ps := Longest(s, t, i - 1, j - 1);
      ps := ps + [(i - 1, j - 1)];
    } else if Length(s, t, i - 1, j) > Length(s, t, i, j - 1) {
      ps := Longest(s, t, i - 1, j);
    } else {
      ps := Longest(s, t, i, j - 1);
    }
  }

  lemma LengthIsMaximum<T>(s: seq<T>, t: seq<T>)
    ensures exists ps :: Common(ps, s, t, |s|, |t|) && |ps| == Length(s, t, |s|, |t|)
    ensures forall ps :: Common(ps, s, t, |s|, |t|) ==> |ps| <= Length(s, t, |s|, |t|)
  {
    hide Common, Length;
    var best := Longest(s, t, |s|, |t|);
    forall ps | Common(ps, s, t, |s|, |t|)
      ensures |ps| <= Length(s, t, |s|, |t|)
    {
      NoneLonger(ps, s, t, |s|, |t|);
    }
  }

  // ---- Against the edit distance ----

  lemma LengthDiagonal<T>(s: seq<T>, t: seq<T>, i: nat, j: nat)
    requires 0 < i <= |s| && 0 < j <= |t|
    ensures Differ(s, t, i, j) == 0 ==> Length(s, t, i, j) == Length(s, t, i - 1, j - 1) + 1
    ensures Length(s, t, i - 1, j - 1) <= Length(s, t, i, j)
    ensures Crossed(s, t, i, j) ==> Length(s, t, i - 2, j - 2) + 1 <= Length(s, t, i, j)
    ensures Differ(s, t, i, j) == 1 ==>
      Length(s, t, i, j) == Length(s, t, i - 1, j) || Length(s, t, i, j) == Length(s, t, i, j - 1)
  {
    LengthSteps(s, t, i, j);
    LengthSteps(s, t, i - 1, j);
    if Crossed(s, t, i, j) {
      LengthSteps(s, t, i, j - 1);
      LengthSteps(s, t, i - 1, j - 1);
    }
  }

  /** Each edit repairs at most one position of the longer string. */
  lemma {:induction false} DistanceAtLeast<T>(s: seq<T>, t: seq<T>, i: nat, j: nat)
    requires i <= |s| && j <= |t|
    ensures Max(i, j) - Length(s, t, i, j) <= Distance(s, t, i, j)
    decreases i + j
  {
    hide Distance, Length;
    DistanceEdges(s, t, i, j);
    if i > 0 && j > 0 {
      DistanceCases(s, t, i, j);
      LengthDiagonal(s, t, i, j);
      LengthSteps(s, t, i, j);
      DistanceAtLeast(s, t, i - 1, j);
      DistanceAtLeast(s, t, i, j - 1);
      DistanceAtLeast(s, t, i - 1, j - 1);
      if Crossed(s, t, i, j) {
        DistanceAtLeast(s, t, i - 2, j - 2);
      }
    } else {
      LengthOfNothing(s, t, i, j);
    }
  }

  /** Deleting and inserting around a longest common subsequence is a script. */
  lemma {:induction false} DistanceAtMost<T>(s: seq<T>, t: seq<T>, i: nat, j: nat)
    requires i <= |s| && j <= |t|
    ensures Distance(s, t, i, j) <= i + j - 2 * Length(s, t, i, j)
    decreases i + j
  {
    hide Distance, Length;
    DistanceEdges(s, t, i, j);
    DistanceSteps(s, t, i, j);
    if i > 0 && j > 0 {
      LengthDiagonal(s, t, i, j);
      DistanceAtMost(s, t, i - 1, j - 1);
      DistanceAtMost(s, t, i - 1, j);
      DistanceAtMost(s, t, i, j - 1);
    } else {
      LengthOfNothing(s, t, i, j);
    }
  }

  lemma LengthOfNothing<T>(s: seq<T>, t: seq<T>, i: nat, j: nat)
    requires i <= |s| && j <= |t| && (i == 0 || j == 0)
    ensures Length(s, t, i, j) == 0
  {
  }

  // ---- The table ----

  ghost predicate Filled<T>(m: array2<int>, s: seq<T>, t: seq<T>, i: nat, j: nat)
    reads m
  {
    && m.Length0 == |s| + 1 && m.Length1 == |t| + 1
    && forall a, b :: 0 <= a <= |s| && 0 <= b <= |t| && (a < i || b == 0 || (a == i && b < j)) ==>
         m[a, b] == Length(s, t, a, b)
  }

  method FillEdges<T(==)>(m: array2<int>, s: seq<T>, t: seq<T>)
    requires m.Length0 == |s| + 1 && m.Length1 == |t| + 1
    modifies m
    ensures Filled(m, s, t, 1, 1)
  {
    for i := 0 to |s| + 1
      invariant forall a :: 0 <= a < i ==> m[a, 0] == 0
    {
      m[i, 0] := 0;
    }
    for j := 0 to |t| + 1
      invariant forall a :: 0 <= a <= |s| ==> m[a, 0] == 0
      invariant forall b :: 0 <= b < j ==> m[0, b] == 0
    {
      m[0, j] := 0;
    }
  }

  method Compute<T(==)>(s: seq<T>, t: seq<T>) returns (n: int)
    ensures n == Length(s, t, |s|, |t|)
  {
    var m := new int[|s| + 1, |t| + 1];
    FillEdges(m, s, t);
    for i := 1 to |s| + 1
      invariant Filled(m, s, t, i, 1)
    {
      for j := 1 to |t| + 1
        invariant Filled(m, s, t, i, j)
      {
        if s[i - 1] == t[j - 1] {
          m[i, j] := m[i - 1, j - 1] + 1;
        } else {
          m[i, j] := Max(m[i - 1, j], m[i, j - 1]);
        }
      }
    }
    n := m[|s|, |t|];
  }
}
