/** Splitting a C string at a delimiter character or a delimiter string. */
module Split {

  /** The pieces with the delimiter between them. */
  function Join(pieces: seq<string>, delim: string): string
  {
    if pieces == [] then []
    else if |pieces| == 1 then pieces[0]
    else Join(pieces[..|pieces| - 1], delim) + delim + pieces[|pieces| - 1]
  }

  /** The pieces with the delimiter after each. */
  function Terminated(pieces: seq<string>, delim: string): string
  {
    if pieces == [] then [] else Terminated(pieces[..|pieces| - 1], delim) + pieces[|pieces| - 1] + delim
  }

  lemma {:induction false} JoinIsTerminated(pieces: seq<string>, last: string, delim: string)
    ensures Join(pieces + [last], delim) == Terminated(pieces, delim) + last
  {
    assert (pieces + [last])[..|pieces|] == pieces;
    if pieces != [] {
      var n := |pieces| - 1;
      JoinIsTerminated(pieces[..n], pieces[n], delim);
      assert pieces[..n] + [pieces[n]] == pieces;
    }
  }

  lemma TerminatedAppend(pieces: seq<string>, last: string, delim: string)
    ensures Terminated(pieces + [last], delim) == Terminated(pieces, delim) + last + delim
  {
    assert (pieces + [last])[..|pieces|] == pieces;
  }

  // ---- A delimiter character ----

  ghost predicate Free(pieces: seq<string>, delim: char)
  {
    forall i :: 0 <= i < |pieces| ==> delim !in pieces[i]
  }

  /** The pieces hold no delimiter, and joined they are the input up to one
      dropped trailing delimiter. */
  method SplitChar(str: string, delim: char) returns (results: seq<string>)
    ensures Free(results, delim)
    ensures str == [] <==> results == []
    ensures str != [] ==>
      str == Join(results, [delim]) + if str[|str| - 1] == delim then [delim] else []
  {
    hide Join, Terminated;
    results := [];
    TerminatedNone([delim]);
    var p1, p2 := 0, 0;
    while p1 < |str|
      invariant p1 <= p2 <= |str|
      invariant Free(results, delim)
      invariant p1 < |str| ==> p1 == p2
      invariant 0 < p1 <==> results != []
      invariant if p1 < |str| || (0 < |str| && str[|str| - 1] == delim)
        then str[..p1] == Terminated(results, [delim])
        else str == Join(results, [delim])
      decreases |str| - p1
    {
      while p2 < |str| && str[p2] != delim
        invariant p1 <= p2 <= |str|
        invariant delim !in str[p1..p2]
      {
        p2 := p2 + 1;
      }
      var piece := str[p1..p2];
      TerminatedAppend(results, piece, [delim]);
      JoinIsTerminated(results, piece, [delim]);
      assert str[..p2] == str[..p1] + piece;
      results := results + [piece];
      if p2 < |str| {
        p2 := p2 + 1;
      }
      p1 := p2;
    }
    if str != [] && str[|str| - 1] == delim {
      TerminatedIsJoin(results, [delim]);
      assert str[..|str|] == str;
    }
  }

  lemma TerminatedNone(delim: string)
    ensures Terminated([], delim) == [] && Join([], delim) == []
  {
  }

  lemma JoinOne(p: string, delim: string)
    ensures Join([p], delim) == p
  {
  }

  lemma TerminatedIsJoin(pieces: seq<string>, delim: string)
    requires pieces != []
    ensures Terminated(pieces, delim) == Join(pieces, delim) + delim
  {
    var n := |pieces| - 1;
    JoinIsTerminated(pieces[..n], pieces[n], delim);
    assert pieces[..n] + [pieces[n]] == pieces;
  }

  /** There is only one way to write a string as delimiter-free pieces. */
  lemma {:induction false} PiecesUnique(a: seq<string>, b: seq<string>, delim: char)
    requires a != [] && b != [] && Free(a, delim) && Free(b, delim)
    requires Join(a, [delim]) == Join(b, [delim])
    ensures a == b
    decreases |a|
  {
    hide Join, Terminated;
    var m, n := |a| - 1, |b| - 1;
    LastPieces(a, b, delim);
    LastPieces(b, a, delim);
    JoinIsTerminated(a[..m], a[m], [delim]);
    JoinIsTerminated(b[..n], b[n], [delim]);
    assert a[..m] + [a[m]] == a && b[..n] + [b[n]] == b;
    var s, u := Terminated(a[..m], [delim]), Terminated(b[..n], [delim]);
    assert |s| == |u| && (s + a[m])[|s|..] == a[m] && (u + b[n])[|s|..] == b[n];
    assert (s + a[m])[..|s|] == s && (u + b[n])[..|s|] == u;
    TerminatedNone([delim]);
    if m > 0 {
      TerminatedIsJoin(a[..m], [delim]);
    }
    if n > 0 {
      TerminatedIsJoin(b[..n], [delim]);
    }
    if m > 0 && n > 0 {
      var j, k := Join(a[..m], [delim]), Join(b[..n], [delim]);
      assert (j + [delim])[..|j|] == j && (k + [delim])[..|j|] == k;
      PiecesUnique(a[..m], b[..n], delim);
    }
  }

  /** The last piece of one is no shorter than that of the other. */
  lemma LastPieces(a: seq<string>, b: seq<string>, delim: char)
    requires a != [] && b != [] && Free(b, delim)
    requires Join(a, [delim]) == Join(b, [delim])
    ensures |a[|a| - 1]| >= |b[|b| - 1]|
  {
    hide Join, Terminated;
    var m, n := |a| - 1, |b| - 1;
    JoinIsTerminated(a[..m], a[m], [delim]);
    JoinIsTerminated(b[..n], b[n], [delim]);
    assert a[..m] + [a[m]] == a && b[..n] + [b[n]] == b;
    var s, u := Terminated(a[..m], [delim]), Terminated(b[..n], [delim]);
    TerminatedNone([delim]);
    if m > 0 {
      TerminatedIsJoin(a[..m], [delim]);
      var k := |s| - 1;
      assert (s + a[m])[k] == delim;
    }
  }

  // ---- A delimiter string ----

  /** strncmp(str + r, delim, len) == 0 */
  predicate At(str: string, delim: string, r: nat)
  {
    r + |delim| <= |str| && str[r..r + |delim|] == delim
  }

  predicate EndsWith(str: string, delim: string)
  {
    |delim| <= |str| && At(str, delim, |str| - |delim|)
  }

  /** Where the next delimiter is, from `r` on, or the end. */
  function Find(str: string, delim: string, r: nat): (k: nat)
    requires r <= |str|
    ensures r <= k <= |str|
    ensures k < |str| ==> At(str, delim, k)
    ensures forall i :: r <= i < k ==> !At(str, delim, i)
    decreases |str| - r
  {
    if r == |str| || At(str, delim, r) then r else Find(str, delim, r + 1)
  }

  /** The pieces a scan found, and whether a delimiter ended it. */
  datatype Scanned = Scanned(pieces: seq<string>, exact: bool)

  function Scan(str: string, delim: string, l: nat): Scanned
    requires l <= |str| && delim != []
    decreases |str| - l
  {
    if l == |str| then Scanned([], true)
    else
      var r := Find(str, delim, l);
      if r == |str| then Scanned([str[l..]], false)
      else
        var rest := Scan(str, delim, r + |delim|);
        Scanned([str[l..r]] + rest.pieces, rest.exact)
  }

  /** What the code returns: the scan, and one empty piece more when the string
      ends with the delimiter. */
  function Pieces(str: string, delim: string): seq<string>
    requires delim != []
  {
    Scan(str, delim, 0).pieces + if EndsWith(str, delim) then [""] else []
  }

  ghost predicate Without(p: string, delim: string)
  {
    forall i: nat :: !At(p, delim, i)
  }

  /** No piece holds the delimiter. */
  lemma {:induction false} ScanFree(str: string, delim: string, l: nat)
    requires l <= |str| && delim != []
    ensures forall p :: p in Scan(str, delim, l).pieces ==> Without(p, delim)
    decreases |str| - l
  {
    if l < |str| {
      var r := Find(str, delim, l);
      PieceFree(str, delim, l, r);
      if r < |str| {
        ScanFree(str, delim, r + |delim|);
      } else {
        assert str[l..r] == str[l..];
      }
    }
  }

  lemma PieceFree(str: string, delim: string, l: nat, r: nat)
    requires l <= r <= |str| && delim != [] && forall i :: l <= i < r ==> !At(str, delim, i)
    ensures Without(str[l..r], delim)
  {
    var p := str[l..r];
    forall i: nat | i + |delim| <= |p|
      ensures !At(p, delim, i)
    {
      SliceOfSlice(str, l, r, i, i + |delim|);
      assert !At(str, delim, l + i);
    }
  }

  lemma SliceOfSlice(str: string, l: nat, r: nat, i: nat, j: nat)
    requires l <= r <= |str| && i <= j <= r - l
    ensures str[l..r][i..j] == str[l + i..l + j]
  {
    var a, b := str[l..r][i..j], str[l + i..l + j];
    assert forall k :: 0 <= k < j - i ==> a[k] == str[l + (i + k)] && b[k] == str[(l + i) + k];
  }

  lemma {:induction false} TerminatedCons(p: string, rest: seq<string>, delim: string)
    ensures Terminated([p] + rest, delim) == p + delim + Terminated(rest, delim)
  {
    if rest == [] {
      assert [p] + rest == [p];
    } else {
      var n := |rest| - 1;
      TerminatedCons(p, rest[..n], delim);
      assert ([p] + rest)[..|rest|] == [p] + rest[..n];
    }
  }

  lemma JoinCons(p: string, rest: seq<string>, delim: string)
    requires rest != []
    ensures Join([p] + rest, delim) == p + delim + Join(rest, delim)
  {
    hide Join, Terminated;
    var n := |rest| - 1;
    assert [p] + rest == [p] + rest[..n] + [rest[n]] && rest == rest[..n] + [rest[n]];
    JoinIsTerminated([p] + rest[..n], rest[n], delim);
    JoinIsTerminated(rest[..n], rest[n], delim);
    TerminatedCons(p, rest[..n], delim);
  }

  lemma {:induction false} ScanCovers(str: string, delim: string, l: nat)
    requires l <= |str| && delim != []
    ensures var s := Scan(str, delim, l);
      if s.exact then Terminated(s.pieces, delim) == str[l..]
      else s.pieces != [] && Join(s.pieces, delim) == str[l..]
    decreases |str| - l
  {
    hide Join, Terminated, Find;
    TerminatedNone(delim);
    if l < |str| {
      var r := Find(str, delim, l);
      JoinOne(str[l..], delim);
      if r < |str| {
        var next := r + |delim|;
        var rest := Scan(str, delim, next);
        ScanCovers(str, delim, next);
        assert str[l..] == str[l..r] + str[r..next] + str[next..] && str[r..next] == delim;
        if rest.exact {
          TerminatedCons(str[l..r], rest.pieces, delim);
        } else {
          JoinCons(str[l..r], rest.pieces, delim);
        }
      }
    }
  }

  /** For one string: the pieces join back to it exactly unless it ends with a
      delimiter the scan did not stop at. */
  lemma JoinsBackExactly(str: string, delim: string)
    requires delim != [] && |delim| <= |str|
    ensures Join(Pieces(str, delim), delim) == str
      <==> (EndsWith(str, delim) ==> Scan(str, delim, 0).exact)
  {
    hide Join, Terminated;
    var s := Scan(str, delim, 0);
    ScanCovers(str, delim, 0);
    assert str[0..] == str;
    JoinIsTerminated(s.pieces, "", delim);
    if s.exact {
      ExactEnds(str, delim, 0);
    } else {
      TerminatedIsJoin(s.pieces, delim);
    }
    assert s.pieces + [] == s.pieces;
  }

  /** A scan ended by a delimiter leaves the string ending with it. */
  lemma {:induction false} ExactEnds(str: string, delim: string, l: nat)
    requires l < |str| && delim != [] && Scan(str, delim, l).exact
    ensures EndsWith(str, delim)
    decreases |str| - l
  {
    var r := Find(str, delim, l);
    if r + |delim| < |str| {
      ExactEnds(str, delim, r + |delim|);
    }
  }

  /** The first `b` characters of the delimiter are also its last. */
  predicate Border(delim: string, b: nat)
  {
    0 < b < |delim| && delim[..b] == delim[|delim| - b..]
  }

  /** Two overlapping occurrences of the delimiter give it a border. */
  lemma OverlapIsBorder(str: string, delim: string, r: nat, end: nat)
    requires At(str, delim, r) && At(str, delim, end) && r < end < r + |delim|
    ensures Border(delim, |delim| - (end - r))
  {
    var gap := end - r;
    assert delim[gap..] == str[r..r + |delim|][gap..] == str[end..r + |delim|];
    assert delim[..|delim| - gap] == str[end..end + |delim|][..|delim| - gap] == str[end..r + |delim|];
  }

  lemma {:induction false} ExactWithoutBorder(str: string, delim: string, l: nat)
    requires delim != [] && l <= |str| && EndsWith(str, delim) && (l + |delim| <= |str| || l == |str|)
    requires forall b :: !Border(delim, b)
    ensures Scan(str, delim, l).exact
    decreases |str| - l
  {
    if l < |str| {
      var end := |str| - |delim|;
      var r := Find(str, delim, l);
      assert At(str, delim, end);
      var gap := end - r;
      if 0 < gap < |delim| {
        OverlapIsBorder(str, delim, r, end);
      }
      ExactWithoutBorder(str, delim, r + |delim|);
    }
  }

  /** A delimiter that overlaps itself has an input that does not join back. */
  lemma BorderBreaks(delim: string, b: nat)
    requires Border(delim, b)
    ensures Join(Pieces(delim + delim[b..], delim), delim) != delim + delim[b..]
  {
    hide Join, Pieces;
    var str := delim + delim[b..];
    var n := |delim|;
    EndsInBorder(delim, b);
    assert str[0..n] == delim;
    assert Find(str, delim, 0) == 0;
    assert Find(str, delim, n) == |str|;
    assert !Scan(str, delim, n).exact;
    JoinsBackExactly(str, delim);
  }

  lemma EndsInBorder(delim: string, b: nat)
    requires Border(delim, b)
    ensures EndsWith(delim + delim[b..], delim)
  {
    var str, n := delim + delim[b..], |delim|;
    assert str[n - b..] == delim[n - b..] + delim[b..] == delim[..b] + delim[b..] == delim;
    assert str[n - b..n - b + n] == str[n - b..];
  }

  /** String splitting joins back for every input no shorter than the delimiter
      exactly when the delimiter does not overlap itself. */
  lemma JoinsBackIffNoBorder(delim: string)
    requires delim != []
    ensures (forall str :: |delim| <= |str| ==> Join(Pieces(str, delim), delim) == str)
      <==> (forall b :: !Border(delim, b))
  {
    hide Join, Pieces, Scan;
    if b :| Border(delim, b) {
      BorderBreaks(delim, b);
    } else {
      forall str | |delim| <= |str|
        ensures Join(Pieces(str, delim), delim) == str
      {
        JoinsBackExactly(str, delim);
        if EndsWith(str, delim) {
          ExactWithoutBorder(str, delim, 0);
        }
      }
    }
  }

  // ---- Inputs shorter than the delimiter ----

  /** What the code returns when `before` lies before the string in memory: the last
      test looks back over the delimiter's length, wherever that reaches. */
  function Returned(before: string, str: string, delim: string): seq<string>
    requires delim != []
  {
    Scan(str, delim, 0).pieces + if EndsWith(before + str, delim) then [""] else []
  }

  lemma LongEnough(before: string, str: string, delim: string)
    requires delim != [] && |delim| <= |str|
    ensures Returned(before, str, delim) == Pieces(str, delim)
  {
    hide Scan;
    var r := |before| + |str| - |delim|;
    assert (before + str)[r..r + |delim|] == str[|str| - |delim|..|str| - |delim| + |delim|];
  }

  lemma ShortScan(str: string, delim: string)
    requires 0 < |str| < |delim|
    ensures Scan(str, delim, 0).pieces == [str]
  {
    assert forall r :: 0 <= r <= |str| ==> !At(str, delim, r);
    assert Find(str, delim, 0) == |str| && str[0..] == str;
  }

  /** A non-empty input shorter than the delimiter joins back whatever lies before
      it exactly when it is not how the delimiter ends. */
  lemma ShortJoinsBack(str: string, delim: string)
    requires 0 < |str| < |delim|
    ensures (forall before :: |before| >= |delim| ==> Join(Returned(before, str, delim), delim) == str)
      <==> delim[|delim| - |str|..] != str
  {
    hide Join, Scan, EndsWith;
    ShortScan(str, delim);
    ShortResults(str, delim);
    assert [str] + [] == [str];
    var n := |delim| - |str|;
    if delim[n..] == str {
      ShortTailMade(str, delim);
      assert Join(Returned(delim + delim[..n], str, delim), delim) == str + delim;
    } else {
      forall before | |before| >= |delim|
        ensures Join(Returned(before, str, delim), delim) == str
      {
        ShortTail(before, str, delim);
      }
    }
  }

  lemma ShortResults(str: string, delim: string)
    ensures Join([str], delim) == str && Join([str] + [""], delim) == str + delim
  {
    hide Join, Terminated;
    JoinOne(str, delim);
    JoinIsTerminated([str], "", delim);
    TerminatedAppend([], str, delim);
    TerminatedNone(delim);
    assert [] + [str] == [str];
  }

  lemma ShortTail(before: string, str: string, delim: string)
    requires |str| < |delim| <= |before| && delim[|delim| - |str|..] != str
    ensures !EndsWith(before + str, delim)
  {
    var all := before + str;
    var r, n := |all| - |delim|, |delim| - |str|;
    assert all[r..r + |delim|][n..] == all[r + n..] == str;
  }

  lemma ShortTailMade(str: string, delim: string)
    requires |str| < |delim| && delim[|delim| - |str|..] == str
    ensures EndsWith(delim + delim[..|delim| - |str|] + str, delim)
  {
    var n := |delim| - |str|;
    var all := delim + delim[..n] + str;
    assert all[|delim|..|delim| + |delim|] == delim[..n] + delim[n..] == delim;
  }

  lemma OneCharacter(before: string, str: string, delim: string)
    requires |delim| == 1
    ensures Join(Returned(before, str, delim), delim) == str
  {
    hide Join, Scan, Pieces;
    if str == [] {
      EmptyInput(before, delim);
    } else {
      LongEnough(before, str, delim);
      JoinsBackIffNoBorder(delim);
    }
  }

  lemma EmptyInput(before: string, delim: string)
    requires delim != []
    ensures Join(Returned(before, [], delim), delim) == []
  {
    TerminatedNone(delim);
    JoinOne("", delim);
    assert [] + [""] == [""];
  }

  /** Over all inputs and all memory, string splitting joins back exactly when the
      delimiter is a single character. */
  lemma JoinsBackAlways(delim: string)
    requires delim != []
    ensures (forall before, str :: |before| >= |delim| ==> Join(Returned(before, str, delim), delim) == str)
      <==> |delim| == 1
  {
    hide Join, Returned;
    if |delim| == 1 {
      forall before, str | |before| >= |delim|
        ensures Join(Returned(before, str, delim), delim) == str
      {
        OneCharacter(before, str, delim);
      }
    } else {
      var str := delim[|delim| - 1..];
      ShortJoinsBack(str, delim);
    }
  }

  /** The string-delimiter loop, with `before` lying before the string in memory. */
  method SplitString(before: string, str: string, delim: string) returns (results: seq<string>)
    requires delim != [] && |before| >= |delim|
    ensures results == Returned(before, str, delim)
    ensures |delim| <= |str| ==> results == Pieces(str, delim)
  {
    hide Find, Pieces, Scan, EndsWith;
    ScanNext(str, delim, |str|);
    results := [];
    var l, r := 0, 0;
    while l < |str|
      invariant l == r <= |str|
      invariant results + Scan(str, delim, l).pieces == Scan(str, delim, 0).pieces
      decreases |str| - l
    {
      ScanNext(str, delim, l);
      r := Seek(str, delim, r);
      results := results + [str[l..r]];
      if r < |str| {
        r := r + |delim|;
      }
      l := r;
    }
    EndsAt(before + str, delim);
    if |delim| <= |str| {
      LongEnough(before, str, delim);
    }
    if At(before + str, delim, |before| + l - |delim|) {
      results := results + [""];
    }
  }

  lemma ScanNext(str: string, delim: string, l: nat)
    requires l <= |str| && delim != []
    ensures var r := Find(str, delim, l);
      Scan(str, delim, l).pieces ==
      if l == |str| then []
      else [str[l..r]] + if r == |str| then [] else Scan(str, delim, r + |delim|).pieces
  {
    assert str[l..|str|] == str[l..];
  }

  lemma EndsAt(str: string, delim: string)
    requires |delim| <= |str|
    ensures EndsWith(str, delim) <==> At(str, delim, |str| - |delim|)
  {
  }

  method Seek(str: string, delim: string, from: nat) returns (r: nat)
    requires from <= |str|
    ensures r == Find(str, delim, from)
  {
    r := from;
    while r < |str| && !At(str, delim, r)
      invariant from <= r <= |str| && Find(str, delim, from) == Find(str, delim, r)
    {
      r := r + 1;
    }
  }
}
