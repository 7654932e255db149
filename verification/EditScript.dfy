/** The edit script behind a diff: a longest-common-subsequence table filled bottom-up,
    then a greedy walk through it. */
module EditScript {
  type Line = string

  datatype Change = Keep(line: Line) | Del(line: Line) | Add(line: Line)

  /** The lines a script consumes. */
  function Old(changes: seq<Change>): seq<Line> {
    if changes == [] then []
    else (if changes[0].Add? then [] else [changes[0].line]) + Old(changes[1..])
  }

  /** The lines a script produces. */
  function New(changes: seq<Change>): seq<Line> {
    if changes == [] then []
    else (if changes[0].Del? then [] else [changes[0].line]) + New(changes[1..])
  }

  function Kept(changes: seq<Change>): seq<Line> {
    if changes == [] then []
    else (if changes[0].Keep? then [changes[0].line] else []) + Kept(changes[1..])
  }

  /** `s` is a subsequence of `text[i..]`. */
  predicate Subseq(s: seq<Line>, text: seq<Line>, i: nat)
    requires i <= |text|
    decreases |text| - i
  {
    || s == []
    || (i < |text| && ((s[0] == text[i] && Subseq(s[1..], text, i + 1)) || Subseq(s, text, i + 1)))
  }

  function Max(x: nat, y: nat): nat {
    if x >= y then x else y
  }

  /** The value the table holds at `(i, j)`. */
  function Lcs(a: seq<Line>, b: seq<Line>, i: nat, j: nat): nat
    requires i <= |a| && j <= |b|
    decreases |a| - i + |b| - j
  {
    if i == |a| || j == |b| then 0
    else if a[i] == b[j] then Lcs(a, b, i + 1, j + 1) + 1
    else Max(Lcs(a, b, i + 1, j), Lcs(a, b, i, j + 1))
  }

  method FillTable(oldLines: seq<Line>, newLines: seq<Line>) returns (dp: array2<nat>)
    ensures fresh(dp) && dp.Length0 == |oldLines| + 1 && dp.Length1 == |newLines| + 1
    ensures forall i, j {:trigger dp[i, j]} :: 0 <= i <= |oldLines| && 0 <= j <= |newLines| ==> dp[i, j] == Lcs(oldLines, newLines, i, j)
  {
    var m, n := |oldLines|, |newLines|;
    dp := new nat[m + 1, n + 1]((_, _) => 0);
    var i := m;
    while i > 0
      invariant 0 <= i <= m
      invariant forall p, q {:trigger dp[p, q]} :: i <= p <= m && 0 <= q <= n ==> dp[p, q] == Lcs(oldLines, newLines, p, q)
      invariant forall p {:trigger dp[p, n]} :: 0 <= p < i ==> dp[p, n] == 0
    {
      i := i - 1;
      var j := n;
      while j > 0
        invariant 0 <= j <= n
        invariant forall p, q {:trigger dp[p, q]} :: i < p <= m && 0 <= q <= n ==> dp[p, q] == Lcs(oldLines, newLines, p, q)
        invariant forall q {:trigger dp[i, q]} :: j <= q <= n ==> dp[i, q] == Lcs(oldLines, newLines, i, q)
        invariant forall p {:trigger dp[p, n]} :: 0 <= p < i ==> dp[p, n] == 0
      {
        j := j - 1;
        if oldLines[i] == newLines[j] {
          dp[i, j] := dp[i + 1, j + 1] + 1;
        } else {
          dp[i, j] := Max(dp[i + 1, j], dp[i, j + 1]);
        }
      }
    }
  }

  /** The change the walk makes at `(i, j)`. */
  function Step(a: seq<Line>, b: seq<Line>, i: nat, j: nat): Change
    requires i <= |a| && j <= |b| && (i < |a| || j < |b|)
  {
    if i < |a| && j < |b| && a[i] == b[j] then Keep(a[i])
    else if j < |b| && (i == |a| || Lcs(a, b, i, j + 1) >= Lcs(a, b, i + 1, j)) then Add(b[j])
    else Del(a[i])
  }

  /** The script the walk appends from position `(i, j)` on. */
  function Walk(a: seq<Line>, b: seq<Line>, i: nat, j: nat): seq<Change>
    requires i <= |a| && j <= |b|
    decreases |a| - i + |b| - j
  {
    if i == |a| && j == |b| then []
    else
      var c := Step(a, b, i, j);
      [c] + Walk(a, b, if c.Add? then i else i + 1, if c.Del? then j else j + 1)
  }

  lemma Associate<T>(x: seq<T>, y: T, z: seq<T>)
    ensures x + [y] + z == x + ([y] + z)
  {
  }

  method BuildScript(oldLines: seq<Line>, newLines: seq<Line>) returns (changes: seq<Change>)
    ensures changes == Walk(oldLines, newLines, 0, 0)
  {
    var dp := FillTable(oldLines, newLines);
    changes := [];
    var m, n := |oldLines|, |newLines|;
    var i, j := 0, 0;
    while i < m || j < n
      invariant 0 <= i <= m && 0 <= j <= n
      invariant forall p, q {:trigger dp[p, q]} :: 0 <= p <= m && 0 <= q <= n ==> dp[p, q] == Lcs(oldLines, newLines, p, q)
      invariant changes + Walk(oldLines, newLines, i, j) == Walk(oldLines, newLines, 0, 0)
      decreases m - i + n - j
    {
      ghost var c := Step(oldLines, newLines, i, j);
      ghost var before := changes;
      ghost var rest := Walk(oldLines, newLines, if c.Add? then i else i + 1, if c.Del? then j else j + 1);
      assert Walk(oldLines, newLines, i, j) == [c] + rest;
      Associate(changes, c, rest);
      if i < m && j < n && oldLines[i] == newLines[j] {
        changes := changes + [Keep(oldLines[i])];
        i := i + 1;
        j := j + 1;
      } else if j < n && (i >= m || dp[i, j + 1] >= dp[i + 1, j]) {
        changes := changes + [Add(newLines[j])];
        j := j + 1;
      } else {
        changes := changes + [Del(oldLines[i])];
        i := i + 1;
      }
      assert changes == before + [c];
    }
  }

  // ----- the table holds the true optimum -----

  lemma {:induction false} SubseqTail(s: seq<Line>, text: seq<Line>, i: nat)
    requires i <= |text| && s != [] && Subseq(s, text, i)
    ensures i < |text| && (s[0] == text[i] ==> Subseq(s[1..], text, i + 1))
    ensures Subseq(s[1..], text, i)
    decreases |text| - i
  {
    if !(s[0] == text[i] && Subseq(s[1..], text, i + 1)) {
      SubseqTail(s, text, i + 1);
    }
  }

  /** No common subsequence of the two suffixes is longer than the table says. */
  lemma {:induction false} LcsIsUpperBound(s: seq<Line>, a: seq<Line>, b: seq<Line>, i: nat, j: nat)
    requires i <= |a| && j <= |b|
    requires Subseq(s, a, i) && Subseq(s, b, j)
    ensures |s| <= Lcs(a, b, i, j)
    decreases |a| - i + |b| - j
  {
    if s != [] {
      SubseqTail(s, a, i);
      SubseqTail(s, b, j);
      if a[i] == b[j] {
        if s[0] == a[i] {
          LcsIsUpperBound(s[1..], a, b, i + 1, j + 1);
        } else {
          LcsIsUpperBound(s, a, b, i + 1, j + 1);
        }
      } else if s[0] != a[i] {
        LcsIsUpperBound(s, a, b, i + 1, j);
      } else {
        LcsIsUpperBound(s, a, b, i, j + 1);
      }
    }
  }

  lemma ScriptCons(c: Change, rest: seq<Change>)
    ensures Old([c] + rest) == (if c.Add? then [] else [c.line]) + Old(rest)
    ensures New([c] + rest) == (if c.Del? then [] else [c.line]) + New(rest)
    ensures Kept([c] + rest) == (if c.Keep? then [c.line] else []) + Kept(rest)
  {
    assert ([c] + rest)[1..] == rest;
  }

  /** The walk consumes the old text. */
  lemma {:induction false} WalkOld(a: seq<Line>, b: seq<Line>, i: nat, j: nat)
    requires i <= |a| && j <= |b|
    ensures Old(Walk(a, b, i, j)) == a[i..]
    decreases |a| - i + |b| - j
  {
    if i < |a| || j < |b| {
      var c := Step(a, b, i, j);
      var i', j' := if c.Add? then i else i + 1, if c.Del? then j else j + 1;
      WalkOld(a, b, i', j');
      ScriptCons(c, Walk(a, b, i', j'));
    }
  }

  /** The walk produces the new text. */
  lemma {:induction false} WalkNew(a: seq<Line>, b: seq<Line>, i: nat, j: nat)
    requires i <= |a| && j <= |b|
    ensures New(Walk(a, b, i, j)) == b[j..]
    decreases |a| - i + |b| - j
  {
    if i < |a| || j < |b| {
      var c := Step(a, b, i, j);
      var i', j' := if c.Add? then i else i + 1, if c.Del? then j else j + 1;
      WalkNew(a, b, i', j');
      ScriptCons(c, Walk(a, b, i', j'));
    }
  }

  /** The walk keeps as many lines as the table says. */
  lemma {:induction false} WalkKept(a: seq<Line>, b: seq<Line>, i: nat, j: nat)
    requires i <= |a| && j <= |b|
    ensures |Kept(Walk(a, b, i, j))| == Lcs(a, b, i, j)
    decreases |a| - i + |b| - j
  {
    if i < |a| || j < |b| {
      var c := Step(a, b, i, j);
      var i', j' := if c.Add? then i else i + 1, if c.Del? then j else j + 1;
      WalkKept(a, b, i', j');
      ScriptCons(c, Walk(a, b, i', j'));
    }
  }

  /** The walk turns the old text into the new one, keeping as many lines as the table says. */
  lemma WalkIsScript(a: seq<Line>, b: seq<Line>)
    ensures Old(Walk(a, b, 0, 0)) == a
    ensures New(Walk(a, b, 0, 0)) == b
    ensures |Kept(Walk(a, b, 0, 0))| == Lcs(a, b, 0, 0)
  {
    WalkOld(a, b, 0, 0);
    WalkNew(a, b, 0, 0);
    WalkKept(a, b, 0, 0);
  }

  /** The lines any script keeps are a common subsequence of the texts it relates. */
  lemma {:induction false} KeptIsCommon(c: seq<Change>, a: seq<Line>, b: seq<Line>, i: nat, j: nat)
    requires i <= |a| && j <= |b| && Old(c) == a[i..] && New(c) == b[j..]
    ensures Subseq(Kept(c), a, i) && Subseq(Kept(c), b, j)
  {
    if c != [] {
      if !c[0].Add? {
        assert Old(c)[0] == c[0].line && Old(c)[1..] == Old(c[1..]);
        assert a[i..][1..] == a[i + 1..];
      } else {
        assert Old(c) == Old(c[1..]);
      }
      if !c[0].Del? {
        assert New(c)[0] == c[0].line && New(c)[1..] == New(c[1..]);
        assert b[j..][1..] == b[j + 1..];
      } else {
        assert New(c) == New(c[1..]);
      }
      KeptIsCommon(c[1..], a, b, if c[0].Add? then i else i + 1, if c[0].Del? then j else j + 1);
      if c[0].Keep? {
        assert Kept(c)[1..] == Kept(c[1..]);
      } else {
        assert Kept(c) == Kept(c[1..]);
      }
    }
  }

  /** `Lcs` at the origin is the length of a longest common subsequence: one of that length
      exists and none is longer. */
  lemma LcsIsOptimum(a: seq<Line>, b: seq<Line>)
    ensures var s := Kept(Walk(a, b, 0, 0));
      Subseq(s, a, 0) && Subseq(s, b, 0) && |s| == Lcs(a, b, 0, 0)
    ensures forall s :: Subseq(s, a, 0) && Subseq(s, b, 0) ==> |s| <= Lcs(a, b, 0, 0)
  {
    WalkIsScript(a, b);
    KeptIsCommon(Walk(a, b, 0, 0), a, b, 0, 0);
    forall s | Subseq(s, a, 0) && Subseq(s, b, 0)
      ensures |s| <= Lcs(a, b, 0, 0)
    {
      LcsIsUpperBound(s, a, b, 0, 0);
    }
  }

  lemma {:induction false} ScriptLength(c: seq<Change>)
    ensures |Old(c)| + |New(c)| == |c| + |Kept(c)|
  {
    if c != [] {
      ScriptLength(c[1..]);
    }
  }

  /** No script from the old text to the new one has fewer deletions and additions. */
  lemma WalkIsMinimal(a: seq<Line>, b: seq<Line>, c: seq<Change>)
    requires Old(c) == a && New(c) == b
    ensures var w := Walk(a, b, 0, 0); |w| - |Kept(w)| <= |c| - |Kept(c)|
  {
    WalkIsScript(a, b);
    KeptIsCommon(c, a, b, 0, 0);
    LcsIsUpperBound(Kept(c), a, b, 0, 0);
    ScriptLength(c);
    ScriptLength(Walk(a, b, 0, 0));
  }

  /** The walk is greedy. Where the lines agree it keeps; where they differ it adds the next new
      line exactly when the best script can still be had without matching that line, also when
      it could as well delete the next old one. */
  lemma StepIsGreedy(a: seq<Line>, b: seq<Line>, i: nat, j: nat)
    requires i < |a| && j < |b|
    ensures Step(a, b, i, j) == if a[i] == b[j] then Keep(a[i])
                                else if Lcs(a, b, i, j + 1) == Lcs(a, b, i, j) then Add(b[j])
                                else Del(a[i])
    ensures Walk(a, b, i, j)[0] == Step(a, b, i, j)
  {
  }
}
