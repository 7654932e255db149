/** The printed diff, a reader for its format, and the proof that applying what is read to
    the old text gives the new text. */
module DiffRoundTrip {
  import opened Results
  import opened Decimal
  import opened Lines
  import opened EditScript
  import opened UnifiedDiff

  // ----- printing -----

  function Header(h: Hunk): string {
    "@@ -" + (Dec(h.oldStart) + ("," + (Dec(h.oldCount) + (" +" + (Dec(h.newStart) + ("," + (Dec(h.newCount) + " @@")))))))
  }

  function PrintChange(c: Change): string {
    match c
    case Keep(line) => " " + line
    case Del(line) => "-" + line
    case Add(line) => "+" + line
  }

  function PrintBody(changes: seq<Change>): seq<string> {
    if changes == [] then [] else [PrintChange(changes[0])] + PrintBody(changes[1..])
  }

  function PrintHunks(hunks: seq<Hunk>): seq<string> {
    if hunks == [] then [] else [Header(hunks[0])] + (PrintBody(hunks[0].lines) + PrintHunks(hunks[1..]))
  }

  function DiffLines(path: string, hunks: seq<Hunk>): seq<string> {
    ["--- " + path, "+++ " + path] + PrintHunks(hunks)
  }

  /** `unifiedDiff`. */
  method PrintUnifiedDiff(path: string, oldText: string, newText: string) returns (text: string)
    ensures text == JoinLines(DiffLines(path, DiffHunks(oldText, newText)))
    ensures ApplyDiffTo(path, text, oldText) == Some(newText)
    ensures '\n' !in path ==> ApplyDiff(text, oldText) == Some(newText)
  {
    var oldLines, newLines := SplitLines(oldText), SplitLines(newText);
    var changes := BuildScript(oldLines, newLines);
    var groups := GroupHunks(changes);
    var hunks := ["--- " + path, "+++ " + path];
    for k := 0 to |groups|
      invariant hunks + PrintHunks(groups[k..]) == DiffLines(path, groups)
    {
      var body := PrintLines(groups[k].lines);
      PrintStep(hunks, groups, k);
      hunks := hunks + [Header(groups[k])] + body;
    }
    assert hunks == DiffLines(path, groups);
    text := JoinLines(hunks);
    DiffAppliesTo(path, oldText, newText);
    if '\n' !in path {
      DiffApplies(path, oldText, newText);
    }
  }

  lemma PrintStep(printed: seq<string>, hunks: seq<Hunk>, k: nat)
    requires k < |hunks|
    ensures printed + [Header(hunks[k])] + PrintBody(hunks[k].lines) + PrintHunks(hunks[k + 1..])
         == printed + PrintHunks(hunks[k..])
  {
    assert hunks[k..][1..] == hunks[k + 1..];
  }

  method PrintLines(changes: seq<Change>) returns (lines: seq<string>)
    ensures lines == PrintBody(changes)
  {
    lines := [];
    for k := 0 to |changes|
      invariant lines + PrintBody(changes[k..]) == PrintBody(changes)
    {
      assert changes[k..][1..] == changes[k + 1..];
      Associate(lines, PrintChange(changes[k]), PrintBody(changes[k + 1..]));
      lines := lines + [PrintChange(changes[k])];
    }
  }

  // ----- reading -----

  function Expect(s: string, prefix: string): Option<string> {
    if prefix <= s then Some(s[|prefix|..]) else None
  }

  function Number(s: string): Option<(nat, string)> {
    if s != [] && IsDigit(s[0]) then Some(ReadDigits(s, 0)) else None
  }

  /** Reads a number that must follow `prefix`. */
  function NumberAfter(s: string, prefix: string): Option<(nat, string)> {
    match Expect(s, prefix)
    case None => None
    case Some(rest) => Number(rest)
  }

  /** The four numbers of a hunk header. */
  function ReadHeader(line: string): Option<Hunk> {
    match NumberAfter(line, "@@ -")
    case None => None
    case Some((oldStart, s1)) =>
      match NumberAfter(s1, ",")
      case None => None
      case Some((oldCount, s2)) =>
        match NumberAfter(s2, " +")
        case None => None
        case Some((newStart, s3)) =>
          match NumberAfter(s3, ",")
          case None => None
          case Some((newCount, s4)) =>
            if s4 == " @@" then Some(Hunk(oldStart, oldCount, newStart, newCount, [])) else None
  }

  /** Reads body lines until `o` old and `n` new lines have been seen. */
  function ReadBody(lines: seq<string>, o: nat, n: nat): Option<(seq<Change>, seq<string>)> {
    if o == 0 && n == 0 then Some(([], lines))
    else if lines == [] || lines[0] == [] then None
    else
      var mark, line := lines[0][0], lines[0][1..];
      if mark == ' ' && o > 0 && n > 0 then PutFirst(Keep(line), ReadBody(lines[1..], o - 1, n - 1))
      else if mark == '-' && o > 0 then PutFirst(Del(line), ReadBody(lines[1..], o - 1, n))
      else if mark == '+' && n > 0 then PutFirst(Add(line), ReadBody(lines[1..], o, n - 1))
      else None
  }

  function PutFirst(c: Change, r: Option<(seq<Change>, seq<string>)>): (p: Option<(seq<Change>, seq<string>)>)
  {
    match r
    case None => None
    case Some((changes, rest)) => Some(([c] + changes, rest))
  }

  lemma {:induction false} ReadBodyShrinks(lines: seq<string>, o: nat, n: nat)
    ensures ReadBody(lines, o, n).Some? ==> |ReadBody(lines, o, n).value.1| <= |lines|
  {
    if !(o == 0 && n == 0) && lines != [] && lines[0] != [] {
      var mark := lines[0][0];
      if mark == ' ' && o > 0 && n > 0 {
        ReadBodyShrinks(lines[1..], o - 1, n - 1);
      } else if mark == '-' && o > 0 {
        ReadBodyShrinks(lines[1..], o - 1, n);
      } else if mark == '+' && n > 0 {
        ReadBodyShrinks(lines[1..], o, n - 1);
      }
    }
  }

  function ReadHunks(lines: seq<string>): Option<seq<Hunk>>
    decreases |lines|
  {
    if lines == [] then Some([])
    else
      match ReadHeader(lines[0])
      case None => None
      case Some(h) =>
        ReadBodyShrinks(lines[1..], h.oldCount, h.newCount);
        match ReadBody(lines[1..], h.oldCount, h.newCount)
        case None => None
        case Some((body, rest)) =>
          match ReadHunks(rest)
          case None => None
          case Some(hunks) => Some([h.(lines := body)] + hunks)
  }

  // ----- applying -----

  /** Applies hunks from old line `pos` on, `made` new lines having been made already. Each
      hunk must find its old side where its header says, and start where its header says. */
  function Apply(text: seq<Line>, pos: nat, made: nat, hunks: seq<Hunk>): Option<seq<Line>>
    requires pos <= |text|
    decreases |hunks|
  {
    if hunks == [] then Some(text[pos..])
    else
      var h := hunks[0];
      var at, stop := h.oldStart - 1, h.oldStart - 1 + h.oldCount;
      if !(pos <= at <= stop <= |text|) || text[at..stop] != Old(h.lines) then None
      else if h.newStart - 1 != made + at - pos || h.newCount != |New(h.lines)| then None
      else
        match Apply(text, stop, h.newStart - 1 + h.newCount, hunks[1..])
        case None => None
        case Some(rest) => Some(text[pos..at] + (New(h.lines) + rest))
  }

  /** Reads hunks and applies them to a text. */
  function ApplyHunkLines(lines: seq<string>, oldText: string): Option<string> {
    match ReadHunks(lines)
    case None => None
    case Some(hunks) =>
      match Apply(SplitLines(oldText), 0, 0, hunks)
      case None => None
      case Some(newLines) => Some(JoinLines(newLines))
  }

  /** Reads a printed diff line by line, whatever file it names, and applies it to a text. */
  function ApplyDiff(diff: string, oldText: string): Option<string> {
    var lines := SplitLines(diff);
    if |lines| < 2 || !("--- " <= lines[0]) || !("+++ " <= lines[1]) then None else ApplyHunkLines(lines[2..], oldText)
  }

  /** Reads a printed diff of a given file and applies it to a text. */
  function ApplyDiffTo(path: string, diff: string, oldText: string): Option<string> {
    var header := ("--- " + path) + "\n" + ("+++ " + path);
    if diff == header then ApplyHunkLines([], oldText)
    else if header + "\n" <= diff then ApplyHunkLines(SplitLines(diff[|header| + 1..]), oldText)
    else None
  }

  // ----- reading inverts printing -----

  lemma ReadNumber(prefix: string, n: nat, rest: string)
    requires rest == [] || !IsDigit(rest[0])
    ensures NumberAfter(prefix + (Dec(n) + rest), prefix) == Some((n, rest))
  {
    var s := prefix + (Dec(n) + rest);
    assert s[|prefix|..] == Dec(n) + rest;
    DecIsDigits(n);
    assert (Dec(n) + rest)[0] == Dec(n)[0] && Dec(n)[0] in Dec(n);
    ReadDec(n, rest);
  }

  lemma HeaderRoundTrip(h: Hunk)
    ensures ReadHeader(Header(h)) == Some(h.(lines := []))
  {
    var s4 := " @@";
    var s3 := "," + (Dec(h.newCount) + s4);
    var s2 := " +" + (Dec(h.newStart) + s3);
    var s1 := "," + (Dec(h.oldCount) + s2);
    ReadNumber("@@ -", h.oldStart, s1);
    ReadNumber(",", h.oldCount, s2);
    ReadNumber(" +", h.newStart, s3);
    ReadNumber(",", h.newCount, s4);
  }

  lemma {:induction false} BodyRoundTrip(body: seq<Change>, rest: seq<string>)
    ensures ReadBody(PrintBody(body) + rest, |Old(body)|, |New(body)|) == Some((body, rest))
  {
    if body == [] {
      assert PrintBody(body) + rest == rest;
    } else {
      var lines := PrintBody(body) + rest;
      BodyRoundTrip(body[1..], rest);
      assert lines[0] == PrintChange(body[0]) && lines[0][1..] == body[0].line;
      assert lines[1..] == PrintBody(body[1..]) + rest;
      assert body == [body[0]] + body[1..];
    }
  }

  ghost predicate CountsRight(h: Hunk) {
    h.oldCount == |Old(h.lines)| && h.newCount == |New(h.lines)|
  }

  lemma {:induction false} HunksRoundTrip(hunks: seq<Hunk>)
    requires forall h :: h in hunks ==> CountsRight(h)
    ensures ReadHunks(PrintHunks(hunks)) == Some(hunks)
  {
    if hunks != [] {
      var h, lines := hunks[0], PrintHunks(hunks);
      var after := PrintBody(h.lines) + PrintHunks(hunks[1..]);
      HunksRoundTrip(hunks[1..]);
      HeaderRoundTrip(h);
      assert CountsRight(h);
      BodyRoundTrip(h.lines, PrintHunks(hunks[1..]));
      assert lines[0] == Header(h) && lines[1..] == after;
      assert h.(lines := []).(lines := h.lines) == h;
      assert [h] + hunks[1..] == hunks;
    }
  }

  // ----- applying the hunks of a script -----

  lemma CutOld(c: seq<Change>, i: nat, j: nat)
    requires i <= j <= |c|
    ensures |Old(c[..i])| <= |Old(c[..j])| <= |Old(c)|
    ensures |Old(c[..j])| == |Old(c[..i])| + |Old(c[i..j])|
    ensures Old(c)[|Old(c[..i])|..|Old(c[..j])|] == Old(c[i..j])
  {
    assert c[..j] == c[..i] + c[i..j] && c == c[..j] + c[j..];
    OldConcat(c[..i], c[i..j]);
    OldConcat(c[..j], c[j..]);
  }

  lemma CutNew(c: seq<Change>, i: nat, j: nat)
    requires i <= j <= |c|
    ensures |New(c[..j])| == |New(c[..i])| + |New(c[i..j])|
    ensures New(c[i..]) == New(c[i..j]) + New(c[j..])
  {
    assert c[..j] == c[..i] + c[i..j] && c[i..] == c[i..j] + c[j..];
    NewConcat(c[..i], c[i..j]);
    NewConcat(c[i..j], c[j..]);
  }

  lemma {:induction false} KeptBothSides(c: seq<Change>)
    requires forall k :: 0 <= k < |c| ==> c[k].Keep?
    ensures Old(c) == New(c)
  {
    if c != [] {
      KeptBothSides(c[1..]);
    }
  }

  /** Applied from where the scan resumes, the remaining hunks make the rest of the new text. */
  lemma {:induction false} HunksApply(c: seq<Change>, ci: nat)
    requires ci <= |c| && Resumable(c, ci)
    ensures |Old(c[..ci])| <= |Old(c)|
    ensures Apply(Old(c), |Old(c[..ci])|, |New(c[..ci])|, HunksOf(c, SpansFrom(c, ci))) == Some(New(c[ci..]))
    decreases |c| - ci
  {
    assert |Old(c[..ci])| <= |Old(c)| by { CutOld(c, ci, |c|); }
    NextChangeFinds(c, ci);
    var first := NextChange(c, ci);
    if first == |c| {
      OnlyKeptLinesLeft(c, ci);
    } else {
      SpansRound(c, ci);
      HunksRound(c, ci);
      var span := Span(first, GroupEnd(c, first));
      var s, e := span.Start(), span.End(|c|);
      HunksApply(c, e);
      assert |Old(c[..e])| <= |Old(c)| by { CutOld(c, ci, e); }
      KeptBothSides(c[ci..s]);
      ApplyOne(c, ci, s, e, HunksOf(c, SpansFrom(c, e)));
    }
  }

  lemma OnlyKeptLinesLeft(c: seq<Change>, ci: nat)
    requires ci <= |c| && NextChange(c, ci) == |c| && |Old(c[..ci])| <= |Old(c)|
    ensures Apply(Old(c), |Old(c[..ci])|, |New(c[..ci])|, HunksOf(c, SpansFrom(c, ci))) == Some(New(c[ci..]))
  {
    NextChangeFinds(c, ci);
    CutOld(c, ci, |c|);
    assert c[..|c|] == c && c[ci..|c|] == c[ci..];
    KeptBothSides(c[ci..]);
    assert Old(c)[|Old(c[..ci])|..] == Old(c)[|Old(c[..ci])|..|Old(c[..|c|])|];
    assert HunksOf(c, SpansFrom(c, ci)) == [];
  }

  /** One hunk that finds its old side where its header says. */
  lemma ApplyStep(text: seq<Line>, pos: nat, made: nat, h: Hunk, rest: seq<Hunk>, at: nat, stop: nat, made': nat, tail: seq<Line>)
    requires pos <= at <= stop <= |text| && text[at..stop] == Old(h.lines)
    requires h.oldStart == at + 1 && h.oldCount == stop - at
    requires h.newStart == made + at - pos + 1 && h.newCount == |New(h.lines)| && made' == made + at - pos + h.newCount
    requires Apply(text, stop, made', rest) == Some(tail)
    ensures Apply(text, pos, made, [h] + rest) == Some(text[pos..at] + (New(h.lines) + tail))
  {
    assert ([h] + rest)[1..] == rest;
  }

  lemma ApplyOne(c: seq<Change>, ci: nat, s: nat, e: nat, rest: seq<Hunk>)
    requires ci <= s <= e <= |c| && |Old(c[..ci])| <= |Old(c)| && |Old(c[..e])| <= |Old(c)|
    requires Old(c[ci..s]) == New(c[ci..s])
    requires Apply(Old(c), |Old(c[..e])|, |New(c[..e])|, rest) == Some(New(c[e..]))
    ensures Apply(Old(c), |Old(c[..ci])|, |New(c[..ci])|, [HunkAt(c, s, e)] + rest) == Some(New(c[ci..]))
  {
    CutOld(c, ci, s);
    CutOld(c, s, e);
    CutNew(c, ci, s);
    CutNew(c, s, e);
    ApplyStep(Old(c), |Old(c[..ci])|, |New(c[..ci])|, HunkAt(c, s, e), rest,
              |Old(c[..s])|, |Old(c[..e])|, |New(c[..e])|, New(c[e..]));
  }

  lemma {:induction false} HunksCountRight(c: seq<Change>, spans: seq<Span>)
    requires InBounds(c, spans)
    ensures forall h :: h in HunksOf(c, spans) ==> CountsRight(h)
  {
    if spans != [] {
      HunksCountRight(c, spans[1..]);
    }
  }

  // ----- the whole text -----

  lemma {:induction false} LineOfOneSide(c: seq<Change>, change: Change)
    requires change in c
    ensures change.line in Old(c) || change.line in New(c)
  {
    if change != c[0] {
      LineOfOneSide(c[1..], change);
    }
  }

  lemma {:induction false} HunksTakeLines(c: seq<Change>, spans: seq<Span>)
    requires InBounds(c, spans)
    ensures forall h, change :: h in HunksOf(c, spans) && change in h.lines ==> change in c
  {
    if spans != [] {
      HunksTakeLines(c, spans[1..]);
    }
  }

  lemma {:induction false} BodyIsClean(body: seq<Change>)
    requires forall change :: change in body ==> '\n' !in change.line
    ensures forall line :: line in PrintBody(body) ==> '\n' !in line
  {
    if body != [] {
      BodyIsClean(body[1..]);
      assert body[0] in body;
    }
  }

  lemma {:induction false} HeaderIsClean(h: Hunk)
    ensures '\n' !in Header(h)
  {
    DecIsDigits(h.oldStart);
    DecIsDigits(h.oldCount);
    DecIsDigits(h.newStart);
    DecIsDigits(h.newCount);
  }

  lemma {:induction false} PrintedHunksAreClean(hunks: seq<Hunk>)
    requires forall h, change :: h in hunks && change in h.lines ==> '\n' !in change.line
    ensures forall line :: line in PrintHunks(hunks) ==> '\n' !in line
  {
    if hunks != [] {
      PrintedHunksAreClean(hunks[1..]);
      HeaderIsClean(hunks[0]);
      assert hunks[0] in hunks;
      BodyIsClean(hunks[0].lines);
    }
  }

  /** The hunks of the diff between two texts. */
  ghost function DiffHunks(oldText: string, newText: string): seq<Hunk> {
    var c := Walk(SplitLines(oldText), SplitLines(newText), 0, 0);
    HunksOf(c, SpansFrom(c, 0))
  }

  lemma {:induction false} DiffIsClean(oldText: string, newText: string)
    ensures forall line :: line in PrintHunks(DiffHunks(oldText, newText)) ==> '\n' !in line
  {
    var a, b := SplitLines(oldText), SplitLines(newText);
    var c := Walk(a, b, 0, 0);
    var hunks := HunksOf(c, SpansFrom(c, 0));
    HunksTakeLines(c, SpansFrom(c, 0));
    forall h, change | h in hunks && change in h.lines
      ensures '\n' !in change.line
    {
      LineOfOneSide(c, change);
      WalkIsScript(a, b);
      SplitHasNoNewline(oldText);
      SplitHasNoNewline(newText);
    }
    PrintedHunksAreClean(hunks);
  }

  lemma {:induction false} HunkLinesApply(oldText: string, newText: string)
    ensures ApplyHunkLines(PrintHunks(DiffHunks(oldText, newText)), oldText) == Some(newText)
  {
    var a, b := SplitLines(oldText), SplitLines(newText);
    var c := Walk(a, b, 0, 0);
    HunksCountRight(c, SpansFrom(c, 0));
    HunksRoundTrip(DiffHunks(oldText, newText));
    WalkIsScript(a, b);
    HunksApply(c, 0);
    assert c[0..] == c;
    JoinSplit(newText);
  }

  lemma JoinAfterHeader(first: string, second: string, lines: seq<string>)
    ensures JoinLines([first, second] + lines)
         == first + "\n" + second + if lines == [] then [] else "\n" + JoinLines(lines)
  {
    assert ([first, second] + lines)[1..] == [second] + lines;
    assert ([second] + lines)[1..] == lines;
  }

  /** Diff, then patch, for a known file name: reading the printed diff back and applying it by
      its start and count numbers turns the old text into the new one. */
  lemma {:induction false} DiffAppliesTo(path: string, oldText: string, newText: string)
    ensures ApplyDiffTo(path, JoinLines(DiffLines(path, DiffHunks(oldText, newText))), oldText) == Some(newText)
  {
    var lines := PrintHunks(DiffHunks(oldText, newText));
    var first, second := "--- " + path, "+++ " + path;
    var header := first + "\n" + second;
    JoinAfterHeader(first, second, lines);
    HunkLinesApply(oldText, newText);
    if lines != [] {
      var diff := JoinLines([first, second] + lines);
      assert diff == header + "\n" + JoinLines(lines);
      assert diff[|header| + 1..] == JoinLines(lines);
      DiffIsClean(oldText, newText);
      SplitJoin(lines);
    }
  }

  /** Diff, then patch, line by line: so it is for every file name that is a single line. */
  lemma DiffApplies(path: string, oldText: string, newText: string)
    requires '\n' !in path
    ensures ApplyDiff(JoinLines(DiffLines(path, DiffHunks(oldText, newText))), oldText) == Some(newText)
  {
    var lines := DiffLines(path, DiffHunks(oldText, newText));
    DiffIsClean(oldText, newText);
    SplitJoin(lines);
    assert lines[2..] == PrintHunks(DiffHunks(oldText, newText));
    HunkLinesApply(oldText, newText);
  }

  /** No hunk of a diff has an empty side, for both texts have at least one line: a header
      never needs the format's zero-count form. */
  lemma {:induction false} CountsArePositive(c: seq<Change>, k: nat)
    requires Old(c) != [] && New(c) != [] && k < |SpansFrom(c, 0)|
    ensures var span := SpansFrom(c, 0)[k]; span.Start() < span.End(|c|) <= |c|
    ensures var span := SpansFrom(c, 0)[k]; var h := HunkAt(c, span.Start(), span.End(|c|));
      h.oldCount > 0 && h.newCount > 0
  {
    var spans := SpansFrom(c, 0);
    var span := spans[k];
    HunkLayout(c);
    assert span in spans;
    var s, e := span.Start(), span.End(|c|);
    if s == 0 && e == |c| {
      assert c[s..e] == c;
    } else {
      var at := if s > 0 then s else span.stop;
      assert c[at].Keep? && s <= at < e;
      KeptCounts(c[s..e], at - s);
    }
  }

  lemma {:induction false} KeptCounts(c: seq<Change>, i: nat)
    requires i < |c| && c[i].Keep?
    ensures Old(c) != [] && New(c) != []
  {
    if i > 0 {
      KeptCounts(c[1..], i - 1);
    }
  }

  // ----- one line replaced -----

  lemma ReplacedScript(x: Line, y: Line, z: Line)
    requires x != y && x != z
    ensures Walk([x, z], [y, z], 0, 0) == [Add(y), Del(x), Keep(z)]
  {
    var a, b := [x, z], [y, z];
    assert Walk(a, b, 2, 2) == [];
    assert Walk(a, b, 1, 1) == [Keep(z)];
    assert Lcs(a, b, 1, 1) == 1;
    assert Lcs(a, b, 0, 1) == 1 && Lcs(a, b, 1, 0) == 1;
    assert Walk(a, b, 0, 1) == [Del(x), Keep(z)];
  }

  lemma ReplacedSpans(c: seq<Change>)
    requires |c| == 3 && c[0].Add? && c[1].Del? && c[2].Keep?
    ensures SpansFrom(c, 0) == [Span(0, 2)]
  {
    assert NextChange(c, 3) == 3 && SpansFrom(c, 3) == [];
    assert NextChange(c, 2) == 3 && GroupEnd(c, 2) == 2;
    assert NextChange(c, 0) == 0 && GroupEnd(c, 1) == 2;
    assert Span(0, 2).End(3) == 3;
  }

  lemma ReplacedHunks(x: Line, y: Line, z: Line)
    ensures HunksOf([Add(y), Del(x), Keep(z)], SpansFrom([Add(y), Del(x), Keep(z)], 0))
         == [Hunk(1, 2, 1, 2, [Add(y), Del(x), Keep(z)])]
  {
    var last, tail, c := [Keep(z)], [Del(x), Keep(z)], [Add(y), Del(x), Keep(z)];
    ReplacedSpans(c);
    assert last[1..] == [] && tail[1..] == last && c[1..] == tail;
    assert Old(last) == [z] && New(last) == [z];
    assert Old(tail) == [x, z] && New(tail) == [z];
    assert Old(c) == [x, z] && New(c) == [y, z];
    assert c[..0] == [] && c[0..3] == c;
    assert [Span(0, 2)][1..] == [] && HunksOf(c, []) == [];
  }

  lemma ThreeLines(x: Change, y: Change, z: Change)
    ensures PrintBody([x, y, z]) == [PrintChange(x), PrintChange(y), PrintChange(z)]
  {
    assert [x, y, z][1..] == [y, z] && [y, z][1..] == [z] && [z][1..] == [];
    assert PrintBody([z]) == [PrintChange(z)];
  }

  lemma ReplacedHeader(lines: seq<Change>)
    ensures Header(Hunk(1, 2, 1, 2, lines)) == "@@ -1,2 +1,2 @@"
  {
  }

  /** The diff for one replaced line, letter for letter: where the script could as well delete
      first, the new line is printed before the old one. */
  lemma ReplacedLineDiff(path: string, x: Line, y: Line, z: Line)
    requires x != y && x != z && '\n' !in x && '\n' !in y && '\n' !in z
    ensures DiffLines(path, DiffHunks(x + "\n" + z, y + "\n" + z))
         == ["--- " + path, "+++ " + path, "@@ -1,2 +1,2 @@", "+" + y, "-" + x, " " + z]
  {
    var c := [Add(y), Del(x), Keep(z)];
    var h := Hunk(1, 2, 1, 2, c);
    assert DiffHunks(x + "\n" + z, y + "\n" + z) == [h] by {
      SplitOneLine(x, z);
      SplitOneLine(y, z);
      SplitOneLine(z, []);
      assert [x] + [z] == [x, z] && [y] + [z] == [y, z];
      ReplacedScript(x, y, z);
      ReplacedHunks(x, y, z);
    }
    ReplacedHeader(c);
    ThreeLines(Add(y), Del(x), Keep(z));
    assert [h][1..] == [];
    assert PrintHunks([h]) == [Header(h)] + PrintBody(c);
  }
}
