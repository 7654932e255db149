/** Dropping the superseded drafts that some providers stream before the final tool call. */
module ToolCallDrafts {
  /** A parsed tool call. `noInputKeys` tells whether the parsed input object is empty. */
  datatype Call = Call(id: string, name: string, argsJson: string, noInputKeys: bool, truncated: bool)

  /** White space and line terminators, as String.prototype.trim removes them. */
  predicate IsSpace(c: char) {
    || '\t' <= c <= '\r'
    || c == ' '
    || c == '\U{A0}'
    || c == '\U{1680}'
    || '\U{2000}' <= c <= '\U{200A}'
    || c == '\U{2028}' || c == '\U{2029}' || c == '\U{202F}' || c == '\U{205F}' || c == '\U{3000}' || c == '\U{FEFF}'
  }

  function TrimStart(s: string): string {
    if s != [] && IsSpace(s[0]) then TrimStart(s[1..]) else s
  }

  function TrimEnd(s: string): string {
    if s != [] && IsSpace(s[|s| - 1]) then TrimEnd(s[..|s| - 1]) else s
  }

  function Trim(s: string): string {
    TrimEnd(TrimStart(s))
  }

  predicate IsEmptyObjectCall(call: Call) {
    !call.truncated && Trim(call.argsJson) == "{}" && call.noInputKeys
  }

  predicate IsSupersededToolCallDraft(earlier: Call, later: Call, emptySameToolCount: nat) {
    if earlier.name != later.name then false
    else if later.truncated then false
    else if earlier.truncated && (Trim(earlier.argsJson) == "" || Trim(earlier.argsJson) <= Trim(later.argsJson)) then true
    else emptySameToolCount > 1 && IsEmptyObjectCall(earlier) && !IsEmptyObjectCall(later)
  }

  /** How many empty calls of a tool are among the first `n`. */
  function EmptyCount(calls: seq<Call>, n: nat, name: string): nat
    requires n <= |calls|
  {
    if n == 0 then 0
    else EmptyCount(calls, n - 1, name) + if IsEmptyObjectCall(calls[n - 1]) && calls[n - 1].name == name then 1 else 0
  }

  predicate Supersedes(calls: seq<Call>, i: nat, j: nat)
    requires i < |calls| && j < |calls|
  {
    IsSupersededToolCallDraft(calls[i], calls[j], EmptyCount(calls, |calls|, calls[i].name))
  }

  /** Some later call supersedes the one at `i`. */
  predicate Superseded(calls: seq<Call>, i: nat)
    requires i < |calls|
  {
    exists j :: i < j < |calls| && Supersedes(calls, i, j)
  }

  function Kept(calls: seq<Call>, n: nat): seq<Call>
    requires n <= |calls|
  {
    if n == 0 then [] else Kept(calls, n - 1) + if Superseded(calls, n - 1) then [] else [calls[n - 1]]
  }

  /** `dropSupersededToolCallDrafts`. */
  method DropSupersededToolCallDrafts(calls: seq<Call>) returns (r: seq<Call>)
    ensures r == Kept(calls, |calls|)
  {
    if |calls| < 2 {
      FewCallsKept(calls);
      return calls;
    }
    var emptyCountsByTool: map<string, nat> := map[];
    for i := 0 to |calls|
      invariant forall name :: Lookup(emptyCountsByTool, name) == EmptyCount(calls, i, name)
    {
      var call := calls[i];
      if IsEmptyObjectCall(call) {
        emptyCountsByTool := emptyCountsByTool[call.name := Lookup(emptyCountsByTool, call.name) + 1];
      }
    }
    r := [];
    for i := 0 to |calls|
      invariant r == Kept(calls, i)
    {
      var superseded := false;
      var j := i + 1;
      while j < |calls|
        invariant i + 1 <= j <= |calls|
        invariant !superseded
        invariant forall k :: i < k < j ==> !Supersedes(calls, i, k)
      {
        if IsSupersededToolCallDraft(calls[i], calls[j], Lookup(emptyCountsByTool, calls[i].name)) {
          superseded := true;
          assert Supersedes(calls, i, j);
          break;
        }
        j := j + 1;
      }
      assert superseded == Superseded(calls, i);
      if !superseded {
        r := r + [calls[i]];
      }
    }
  }

  function Lookup(counts: map<string, nat>, name: string): nat {
    if name in counts then counts[name] else 0
  }

  lemma FewCallsKept(calls: seq<Call>)
    requires |calls| < 2
    ensures Kept(calls, |calls|) == calls
  {
    if |calls| == 1 {
      assert !Superseded(calls, 0);
      assert Kept(calls, 0) == [];
    }
  }

  // ----- what is dropped -----

  predicate AllSpace(s: string) {
    forall i :: 0 <= i < |s| ==> IsSpace(s[i])
  }

  lemma {:induction false} TrimStartExact(s: string) returns (lead: string)
    ensures s == lead + TrimStart(s) && AllSpace(lead)
    ensures TrimStart(s) != "" ==> !IsSpace(TrimStart(s)[0])
  {
    if s != [] && IsSpace(s[0]) {
      var rest := TrimStartExact(s[1..]);
      lead := [s[0]] + rest;
      assert s == [s[0]] + s[1..];
    } else {
      lead := [];
    }
  }

  lemma {:induction false} TrimEndExact(s: string) returns (trail: string)
    ensures s == TrimEnd(s) + trail && AllSpace(trail)
    ensures TrimEnd(s) != "" ==> !IsSpace(TrimEnd(s)[|TrimEnd(s)| - 1])
  {
    if s != [] && IsSpace(s[|s| - 1]) {
      var rest := TrimEndExact(s[..|s| - 1]);
      trail := rest + [s[|s| - 1]];
      assert s == s[..|s| - 1] + [s[|s| - 1]];
    } else {
      trail := [];
    }
  }

  /** Trimming removes white space from both ends and leaves none there. */
  lemma TrimExact(s: string) returns (lead: string, trail: string)
    ensures s == lead + Trim(s) + trail && AllSpace(lead) && AllSpace(trail)
    ensures Trim(s) != "" ==> !IsSpace(Trim(s)[0]) && !IsSpace(Trim(s)[|Trim(s)| - 1])
  {
    lead := TrimStartExact(s);
    trail := TrimEndExact(TrimStart(s));
    if Trim(s) != "" {
      assert TrimStart(s)[0] == Trim(s)[0];
    }
  }

  predicate EmptyOf(calls: seq<Call>, k: nat, name: string)
    requires k < |calls|
  {
    IsEmptyObjectCall(calls[k]) && calls[k].name == name
  }

  lemma {:induction false} NoneEmpty(calls: seq<Call>, n: nat, name: string)
    requires n <= |calls|
    ensures EmptyCount(calls, n, name) == 0 <==> forall k :: 0 <= k < n ==> !EmptyOf(calls, k, name)
  {
    if n > 0 {
      NoneEmpty(calls, n - 1, name);
      assert EmptyOf(calls, n - 1, name) <==> IsEmptyObjectCall(calls[n - 1]) && calls[n - 1].name == name;
    }
  }

  lemma {:induction false} OneEmpty(calls: seq<Call>, n: nat, name: string, i: nat)
    requires i < n <= |calls| && EmptyOf(calls, i, name)
    ensures EmptyCount(calls, n, name) > 1 <==> exists k :: 0 <= k < n && k != i && EmptyOf(calls, k, name)
  {
    assert EmptyOf(calls, n - 1, name) <==> IsEmptyObjectCall(calls[n - 1]) && calls[n - 1].name == name;
    if n - 1 == i {
      NoneEmpty(calls, n - 1, name);
      assert EmptyCount(calls, n, name) == EmptyCount(calls, n - 1, name) + 1;
    } else {
      NoneEmpty(calls, n - 1, name);
      OneEmpty(calls, n - 1, name, i);
    }
  }

  /** A later complete call of the same tool makes call `i` a draft: a truncated call whose
      text is nothing or the beginning of the later one's, or an empty call, unless it is the
      tool's only one, before one that is not empty. */
  ghost predicate DraftOf(calls: seq<Call>, i: nat, j: nat)
    requires i < |calls| && j < |calls|
  {
    var earlier, later := calls[i], calls[j];
    && earlier.name == later.name && !later.truncated
    && if earlier.truncated then Trim(earlier.argsJson) == "" || Trim(earlier.argsJson) <= Trim(later.argsJson)
       else IsEmptyObjectCall(earlier) && !IsEmptyObjectCall(later)
            && exists k :: 0 <= k < |calls| && k != i && EmptyOf(calls, k, earlier.name)
  }

  lemma SupersedesIff(calls: seq<Call>, i: nat, j: nat)
    requires i < |calls| && j < |calls|
    ensures Supersedes(calls, i, j) <==> DraftOf(calls, i, j)
  {
    if EmptyOf(calls, i, calls[i].name) {
      OneEmpty(calls, |calls|, calls[i].name, i);
    }
  }

  /** Exactly the drafts are dropped. */
  lemma DroppedIff(calls: seq<Call>, i: nat)
    requires i < |calls|
    ensures Superseded(calls, i) <==> exists j :: i < j < |calls| && DraftOf(calls, i, j)
  {
    forall j | i < j < |calls|
      ensures Supersedes(calls, i, j) <==> DraftOf(calls, i, j)
    {
      SupersedesIff(calls, i, j);
    }
  }

  // ----- nothing of value is lost -----

  /** A complete call with real arguments is never dropped. */
  lemma RealCallsSurvive(calls: seq<Call>, i: nat)
    requires i < |calls| && !calls[i].truncated && !IsEmptyObjectCall(calls[i])
    ensures !Superseded(calls, i)
  {
  }

  /** Every dropped call has a later call of the same tool that is complete and is kept. */
  lemma DroppedHasSurvivor(calls: seq<Call>, i: nat) returns (j: nat)
    requires i < |calls| && Superseded(calls, i)
    ensures i < j < |calls| && calls[j].name == calls[i].name && !calls[j].truncated && !Superseded(calls, j)
  {
    j :| i < j < |calls| && Supersedes(calls, i, j);
    if Superseded(calls, j) {
      var k :| j < k < |calls| && Supersedes(calls, j, k);
      RealCallsSurvive(calls, k);
      j := k;
    }
  }

  // ----- filtering again changes nothing -----

  /** The positions of the kept calls. */
  ghost function KeptAt(calls: seq<Call>, n: nat): seq<nat>
    requires n <= |calls|
  {
    if n == 0 then [] else KeptAt(calls, n - 1) + if Superseded(calls, n - 1) then [] else [n - 1]
  }

  /** The result is a subsequence: its calls sit at ascending positions of the input. */
  lemma {:induction false} KeptIsSubsequence(calls: seq<Call>, n: nat)
    requires n <= |calls|
    ensures var at := KeptAt(calls, n); var kept := Kept(calls, n);
      && |at| == |kept|
      && (forall p :: 0 <= p < |at| ==> at[p] < n && kept[p] == calls[at[p]] && !Superseded(calls, at[p]))
      && (forall p, q :: 0 <= p < q < |at| ==> at[p] < at[q])
  {
    if n > 0 {
      KeptIsSubsequence(calls, n - 1);
    }
  }

  lemma {:induction false} EmptyCountPrefix(a: seq<Call>, b: seq<Call>, n: nat, name: string)
    requires n <= |a| && a <= b
    ensures EmptyCount(b, n, name) == EmptyCount(a, n, name)
  {
    if n > 0 {
      EmptyCountPrefix(a, b, n - 1, name);
    }
  }

  lemma {:induction false} FilteringKeepsCount(calls: seq<Call>, n: nat, name: string)
    requires n <= |calls|
    ensures var kept := Kept(calls, n); EmptyCount(kept, |kept|, name) <= EmptyCount(calls, n, name)
  {
    if n > 0 {
      FilteringKeepsCount(calls, n - 1, name);
      var before, kept := Kept(calls, n - 1), Kept(calls, n);
      if Superseded(calls, n - 1) {
        assert kept == before;
      } else {
        assert kept == before + [calls[n - 1]] && kept[|before|] == calls[n - 1];
        EmptyCountPrefix(before, kept, |before|, name);
      }
    }
  }

  lemma {:induction false} AllKept(calls: seq<Call>, n: nat)
    requires n <= |calls| && forall i :: 0 <= i < n ==> !Superseded(calls, i)
    ensures Kept(calls, n) == calls[..n]
  {
    if n > 0 {
      AllKept(calls, n - 1);
    }
  }

  /** Filtering is idempotent. */
  lemma FilterIdempotent(calls: seq<Call>)
    ensures var kept := Kept(calls, |calls|); Kept(kept, |kept|) == kept
  {
    var kept, at := Kept(calls, |calls|), KeptAt(calls, |calls|);
    KeptIsSubsequence(calls, |calls|);
    forall p | 0 <= p < |kept|
      ensures !Superseded(kept, p)
    {
      FilteringKeepsCount(calls, |calls|, kept[p].name);
      forall q | p < q < |kept| ensures Supersedes(kept, p, q) ==> Supersedes(calls, at[p], at[q]) { }
    }
    AllKept(kept, |kept|);
    assert kept[..|kept|] == kept;
  }
}
