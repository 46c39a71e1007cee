/** Edit distance with adjacent swaps: the table, the recurrence it fills, and
    the edit scripts it minimises over. */
module EditDistance {
  import opened Common

  predicate Crossed<T(==)>(s: seq<T>, t: seq<T>, i: nat, j: nat)
    requires i <= |s| && j <= |t|
  {
    i > 2 && j > 2 && s[i - 1] == t[j - 2] && s[i - 2] == t[j - 1]
  }

  function Differ<T(==)>(s: seq<T>, t: seq<T>, i: nat, j: nat): nat
    requires 0 < i <= |s| && 0 < j <= |t|
  {
    if s[i - 1] == t[j - 1] then 0 else 1
  }

  /** Distance between the first `i` and the first `j` characters. */
  function Distance<T(==)>(s: seq<T>, t: seq<T>, i: nat, j: nat): nat
    requires i <= |s| && j <= |t|
    decreases i + j
  {
    if i == 0 then j
    else if j == 0 then i
    else
      var cost := Differ(s, t, i, j);
      var d := Min(Min(Distance(s, t, i - 1, j) + 1, Distance(s, t, i, j - 1) + 1),
                   Distance(s, t, i - 1, j - 1) + cost);
      if Crossed(s, t, i, j) then Min(d, Distance(s, t, i - 2, j - 2) + cost) else d
  }

  // ---- Edit scripts ----

  /** One edit, read from left to right over the source string. A swap exchanges
      two neighbouring characters, neither the first consumed nor the first
      produced. */
  datatype Edit<T> = Keep | Put(c: T) | Insert(c: T) | Delete | Swap

  /** What the script makes of exactly the first `i` characters of `s`. */
  function Apply<T>(script: seq<Edit<T>>, s: seq<T>, i: nat): Option<seq<T>>
    requires i <= |s|
  {
    if script == [] then
      if i == 0 then Some([]) else None
    else
      var before := script[..|script| - 1];
      match script[|script| - 1]
      case Keep => if i < 1 then None else Extend(Apply(before, s, i - 1), [s[i - 1]])
      case Put(c) => if i < 1 then None else Extend(Apply(before, s, i - 1), [c])
      case Insert(c) => Extend(Apply(before, s, i), [c])
      case Delete => if i < 1 then None else Apply(before, s, i - 1)
      case Swap =>
        if i < 3 || Apply(before, s, i - 2) == Some([]) then None
        else Extend(Apply(before, s, i - 2), [s[i - 1], s[i - 2]])
  }

  function Extend<T>(r: Option<seq<T>>, more: seq<T>): Option<seq<T>>
  {
    if r.None? then None else Some(r.value + more)
  }

  function Cost<T>(script: seq<Edit<T>>): nat
  {
    if script == [] then 0
    else Cost(script[..|script| - 1]) + if script[|script| - 1].Keep? then 0 else 1
  }

  lemma ApplyAppend<T>(script: seq<Edit<T>>, e: Edit<T>)
    ensures (script + [e])[..|script|] == script
    ensures Cost(script + [e]) == Cost(script) + if e.Keep? then 0 else 1
  {
  }

  /** One more character on either side costs at most one more edit. */
  lemma DistanceSteps<T>(s: seq<T>, t: seq<T>, i: nat, j: nat)
    requires i <= |s| && j <= |t|
    ensures i > 0 ==> Distance(s, t, i, j) <= Distance(s, t, i - 1, j) + 1
    ensures j > 0 ==> Distance(s, t, i, j) <= Distance(s, t, i, j - 1) + 1
    ensures i > 0 && j > 0 ==> Distance(s, t, i, j) <= Distance(s, t, i - 1, j - 1) + Differ(s, t, i, j)
    ensures Crossed(s, t, i, j) ==> Distance(s, t, i, j) <= Distance(s, t, i - 2, j - 2) + 1
  {
  }

  /** No script is cheaper than the table's answer. */
  lemma {:induction false} NoScriptCheaper<T>(script: seq<Edit<T>>, s: seq<T>, t: seq<T>, i: nat, j: nat)
    requires i <= |s| && j <= |t| && Apply(script, s, i) == Some(t[..j])
    ensures Distance(s, t, i, j) <= Cost(script)
    decreases |script|
  {
    hide Distance;
    if script == [] {
      DistanceOfNothing(s, t);
    } else {
      DistanceSteps(s, t, i, j);
      var before := script[..|script| - 1];
      match script[|script| - 1]
      case Keep =>
        ExtendedBy(Apply(before, s, i - 1), [s[i - 1]], t, j);
        NoScriptCheaper(before, s, t, i - 1, j - 1);
      case Put(c) =>
        ExtendedBy(Apply(before, s, i - 1), [c], t, j);
        NoScriptCheaper(before, s, t, i - 1, j - 1);
      case Insert(c) =>
        ExtendedBy(Apply(before, s, i), [c], t, j);
        NoScriptCheaper(before, s, t, i, j - 1);
      case Delete =>
        NoScriptCheaper(before, s, t, i - 1, j);
      case Swap =>
        ExtendedBy(Apply(before, s, i - 2), [s[i - 1], s[i - 2]], t, j);
        NoScriptCheaper(before, s, t, i - 2, j - 2);
    }
  }

  lemma DistanceOfNothing<T>(s: seq<T>, t: seq<T>)
    ensures Distance(s, t, 0, 0) == 0
  {
  }

  lemma ExtendedBy<T>(r: Option<seq<T>>, more: seq<T>, t: seq<T>, j: nat)
    requires j <= |t| && Extend(r, more) == Some(t[..j])
    ensures |more| <= j && r == Some(t[..j - |more|]) && t[j - |more|..j] == more
  {
    var k := j - |more|;
    assert r.value == (r.value + more)[..k] == t[..k];
    assert more == (r.value + more)[k..] == t[..j][k..];
  }

  /** Appending one edit to a script that makes `t[..j]`. */
  lemma ApplyMore<T>(script: seq<Edit<T>>, e: Edit<T>, s: seq<T>, t: seq<T>, i: nat, j: nat, i': nat, j': nat)
    requires i <= i' <= |s| && j <= j' <= |t| && Apply(script, s, i) == Some(t[..j])
    requires match e
      case Keep => i' == i + 1 && j' == j + 1 && s[i] == t[j]
      case Put(c) => i' == i + 1 && j' == j + 1 && t[j] == c
      case Insert(c) => i' == i && j' == j + 1 && t[j] == c
      case Delete => i' == i + 1 && j' == j
      case Swap => i' == i + 2 && j' == j + 2 && i > 0 && j > 0 && s[i + 1] == t[j] && s[i] == t[j + 1]
    ensures Apply(script + [e], s, i') == Some(t[..j'])
  {
    ApplyAppend(script, e);
    if e.Swap? {
      assert t[..j'] == t[..j] + [s[i + 1], s[i]];
    } else if !e.Delete? {
      assert t[..j'] == t[..j] + [t[j]];
    }
  }

  /** Which of the table's choices is the least. */
  lemma DistanceCases<T>(s: seq<T>, t: seq<T>, i: nat, j: nat)
    requires 0 < i <= |s| && 0 < j <= |t|
    ensures Distance(s, t, i, j) == Distance(s, t, i - 1, j) + 1
         || Distance(s, t, i, j) == Distance(s, t, i, j - 1) + 1
         || Distance(s, t, i, j) == Distance(s, t, i - 1, j - 1) + Differ(s, t, i, j)
         || (Crossed(s, t, i, j) && Differ(s, t, i, j) == 1
             && Distance(s, t, i, j) == Distance(s, t, i - 2, j - 2) + 1)
  {
    if Crossed(s, t, i, j) && Differ(s, t, i, j) == 0 {
      DistanceSteps(s, t, i - 1, j - 1);
      assert Differ(s, t, i - 1, j - 1) == 0;
    }
  }

  lemma DistanceEdges<T>(s: seq<T>, t: seq<T>, i: nat, j: nat)
    requires i <= |s| && j <= |t|
    ensures i == 0 ==> Distance(s, t, i, j) == j
    ensures j == 0 ==> Distance(s, t, i, j) == i
  {
  }

  /** Some script costs exactly the table's answer. */
  lemma {:induction false} BestScript<T>(s: seq<T>, t: seq<T>, i: nat, j: nat) returns (script: seq<Edit<T>>)
    requires i <= |s| && j <= |t|
    ensures Apply(script, s, i) == Some(t[..j]) && Cost(script) == Distance(s, t, i, j)
    decreases i + j
  {
    if i == 0 && j == 0 {
      script := [];
    } else {
      var e: Edit<T>, i', j' := LastEdit(s, t, i, j);
      var before := BestScript(s, t, i', j');
      hide Distance, Apply;
      ApplyMore(before, e, s, t, i', j', i, j);
      ApplyAppend(before, e);
      script := before + [e];
    }
  }

  /** The edit the table's least choice stands for, and where it leads from. */
  lemma LastEdit<T>(s: seq<T>, t: seq<T>, i: nat, j: nat) returns (e: Edit<T>, i': nat, j': nat)
    requires i <= |s| && j <= |t| && i + j > 0
    ensures i' <= i && j' <= j && i' + j' < i + j
    ensures Distance(s, t, i, j) == Distance(s, t, i', j') + if e.Keep? then 0 else 1
    ensures match e
      case Keep => i == i' + 1 && j == j' + 1 && s[i'] == t[j']
      case Put(c) => i == i' + 1 && j == j' + 1 && t[j'] == c
      case Insert(c) => i == i' && j == j' + 1 && t[j'] == c
      case Delete => i == i' + 1 && j == j'
      case Swap => i == i' + 2 && j == j' + 2 && i' > 0 && j' > 0 && s[i' + 1] == t[j'] && s[i'] == t[j' + 1]
  {
    if i == 0 {
      return Insert(t[j - 1]), i, j - 1;
    }
    if j == 0 {
      return Delete, i - 1, j;
    }
    DistanceCases(s, t, i, j);
    hide Distance;
    var d := Distance(s, t, i, j);
    if d == Distance(s, t, i - 1, j) + 1 {
      return Delete, i - 1, j;
    } else if d == Distance(s, t, i, j - 1) + 1 {
      return Insert(t[j - 1]), i, j - 1;
    } else if d == Distance(s, t, i - 1, j - 1) + Differ(s, t, i, j) {
      return if Differ(s, t, i, j) == 0 then Keep else Put(t[j - 1]), i - 1, j - 1;
    } else {
      return Swap, i - 2, j - 2;
    }
  }

  /** The table's answer is the least cost of an edit script. */
  lemma DistanceIsMinimum<T>(s: seq<T>, t: seq<T>)
    ensures exists script :: Apply(script, s, |s|) == Some(t) && Cost(script) == Distance(s, t, |s|, |t|)
    ensures forall script :: Apply(script, s, |s|) == Some(t) ==> Distance(s, t, |s|, |t|) <= Cost(script)
  {
    hide Distance, Apply, Cost;
    assert t[..|t|] == t;
    var best := BestScript(s, t, |s|, |t|);
    forall script | Apply(script, s, |s|) == Some(t)
      ensures Distance(s, t, |s|, |t|) <= Cost(script)
    {
      NoScriptCheaper(script, s, t, |s|, |t|);
    }
  }

  lemma {:induction false} DistanceSymmetric<T>(s: seq<T>, t: seq<T>, i: nat, j: nat)
    requires i <= |s| && j <= |t|
    ensures Distance(s, t, i, j) == Distance(t, s, j, i)
    decreases i + j
  {
    if i > 0 && j > 0 {
      DistanceSymmetric(s, t, i - 1, j);
      DistanceSymmetric(s, t, i, j - 1);
      DistanceSymmetric(s, t, i - 1, j - 1);
      if Crossed(s, t, i, j) {
        DistanceSymmetric(s, t, i - 2, j - 2);
      }
    }
  }

  lemma {:induction false} DistanceZero<T>(s: seq<T>, t: seq<T>, i: nat, j: nat)
    requires i <= |s| && j <= |t|
    ensures Distance(s, t, i, j) == 0 <==> s[..i] == t[..j]
    decreases i + j
  {
    hide Distance;
    DistanceEdges(s, t, i, j);
    if i == 0 || j == 0 {
      assert |s[..i]| == i && |t[..j]| == j;
    } else {
      DistanceZero(s, t, i - 1, j - 1);
      DistanceCases(s, t, i, j);
      DistanceSteps(s, t, i, j);
      PrefixesEqual(s, t, i, j);
    }
  }

  lemma PrefixesEqual<T>(s: seq<T>, t: seq<T>, i: nat, j: nat)
    requires 0 < i <= |s| && 0 < j <= |t|
    ensures s[..i] == t[..j] <==> s[..i - 1] == t[..j - 1] && s[i - 1] == t[j - 1]
  {
    assert s[..i] == s[..i - 1] + [s[i - 1]] && t[..j] == t[..j - 1] + [t[j - 1]];
    if s[..i] == t[..j] {
      assert s[..i][..i - 1] == t[..j][..j - 1];
    }
  }

  // ---- The table ----

  /** The cells of the rows before `i`, the cells of row `i` before `j`, and the
      first column hold their distances. */
  ghost predicate Filled<T>(m: array2<int>, s: seq<T>, t: seq<T>, i: nat, j: nat)
    reads m
  {
    && m.Length0 == |s| + 1 && m.Length1 == |t| + 1
    && forall a, b :: 0 <= a <= |s| && 0 <= b <= |t| && (a < i || b == 0 || (a == i && b < j)) ==>
         m[a, b] == Distance(s, t, a, b)
  }

  lemma DistanceCell<T>(s: seq<T>, t: seq<T>, i: nat, j: nat, cost: nat, d: int)
    requires 0 < i <= |s| && 0 < j <= |t| && cost == Differ(s, t, i, j)
    requires d == Min(Min(Distance(s, t, i - 1, j) + 1, Distance(s, t, i, j - 1) + 1),
                      Distance(s, t, i - 1, j - 1) + cost)
    ensures Distance(s, t, i, j) ==
      if Crossed(s, t, i, j) then Min(d, Distance(s, t, i - 2, j - 2) + cost) else d
  {
    hide Min, Differ, Crossed;
  }

  method FillEdges<T(==)>(m: array2<int>, s: seq<T>, t: seq<T>)
    requires m.Length0 == |s| + 1 && m.Length1 == |t| + 1
    modifies m
    ensures Filled(m, s, t, 1, 1)
  {
    for i := 0 to |s| + 1
      invariant forall a :: 0 <= a < i ==> m[a, 0] == a
    {
      m[i, 0] := i;
    }
    for j := 0 to |t| + 1
      invariant forall a :: 0 <= a <= |s| ==> m[a, 0] == a
      invariant forall b :: 0 <= b < j ==> m[0, b] == b
    {
      m[0, j] := j;
    }
  }

  method FillCell<T(==)>(m: array2<int>, s: seq<T>, t: seq<T>, i: nat, j: nat)
    requires 0 < i <= |s| && 0 < j <= |t| && Filled(m, s, t, i, j)
    modifies m
    ensures Filled(m, s, t, i, j + 1)
  {
    hide Distance, Min;
    var cost := if s[i - 1] == t[j - 1] then 0 else 1;
    var d := Min(Min(m[i - 1, j] + 1, m[i, j - 1] + 1), m[i - 1, j - 1] + cost);
    DistanceCell(s, t, i, j, cost, d);
    if i > 2 && j > 2 && s[i - 1] == t[j - 2] && s[i - 2] == t[j - 1] {
      d := Min(d, m[i - 2, j - 2] + cost);
    }
    m[i, j] := d;
  }

  method Compute<T(==)>(s: seq<T>, t: seq<T>) returns (d: int)
    ensures d == Distance(s, t, |s|, |t|)
  {
    hide Distance;
    var m := new int[|s| + 1, |t| + 1];
    FillEdges(m, s, t);
    for i := 1 to |s| + 1
      invariant Filled(m, s, t, i, 1)
    {
      for j := 1 to |t| + 1
        invariant Filled(m, s, t, i, j)
      {
        FillCell(m, s, t, i, j);
      }
    }
    d := m[|s|, |t|];
  }
}
