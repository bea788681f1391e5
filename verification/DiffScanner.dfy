/** The walk of the pre-commit secret scanner over a staged diff (server/scripts/secret-scanner.js),
    against a printer of unified diffs. */
module DiffScanner {
  import opened Prelude

  // ---- Decimal numbers ----

  predicate IsDigit(c: char) {
    '0' <= c <= '9'
  }

  function DigitChar(d: nat): (c: char)
    requires d < 10
    ensures IsDigit(c) && c as int - '0' as int == d
  {
    ('0' as int + d) as char
  }

  function Decimal(n: nat): (s: string)
    ensures s != [] && forall i :: 0 <= i < |s| ==> IsDigit(s[i])
  {
    if n < 10 then [DigitChar(n)] else Decimal(n / 10) + [DigitChar(n % 10)]
  }

  /** parseInt on a string of digits. */
  function ParseInt(s: string): nat
    requires forall i :: 0 <= i < |s| ==> IsDigit(s[i])
  {
    if s == [] then 0
    else
      assert IsDigit(s[|s| - 1]);
      ParseInt(s[..|s| - 1]) * 10 + (s[|s| - 1] as int - '0' as int)
  }

  lemma {:induction false} ParseDecimal(n: nat)
    ensures ParseInt(Decimal(n)) == n
  {
    if n < 10 {
      assert Decimal(n)[..0] == [];
    } else {
      ParseDecimal(n / 10);
      assert Decimal(n)[..|Decimal(n)| - 1] == Decimal(n / 10);
    }
  }

  // ---- Hunk headers ----

  /** The longest prefix of digits: what `\d+` matches, if not empty. */
  function Digits(s: string): (d: string)
    ensures |d| <= |s| && s[..|d|] == d && forall i :: 0 <= i < |d| ==> IsDigit(d[i])
  {
    if s != [] && IsDigit(s[0]) then [s[0]] + Digits(s[1..]) else []
  }

  lemma {:induction false} DigitsStop(d: string, rest: string)
    requires forall i :: 0 <= i < |d| ==> IsDigit(d[i])
    requires rest == [] || !IsDigit(rest[0])
    ensures Digits(d + rest) == d
  {
    if d == [] {
      assert d + rest == rest;
    } else {
      DigitsStop(d[1..], rest);
      assert (d + rest)[1..] == d[1..] + rest;
    }
  }

  /** What is left after `\d+(?:,\d+)?`, or None when it does not match. */
  function SkipRange(s: string): Option<string> {
    var d := Digits(s);
    var rest := s[|d|..];
    if d == [] then None
    else if rest != [] && rest[0] == ',' && Digits(rest[1..]) != [] then Some(rest[1..][|Digits(rest[1..])|..])
    else Some(rest)
  }

  /** The start line in the new file: `^@@ -\d+(?:,\d+)? \+(\d+)`. */
  function HunkStart(line: string): Option<nat> {
    if !StartsWith(line, "@@ -") then None
    else
      match SkipRange(line[4..])
      case None => None
      case Some(rest) =>
        if StartsWith(rest, " +") && Digits(rest[2..]) != [] then Some(ParseInt(Digits(rest[2..]))) else None
  }

  // ---- The walk ----

  /** An added line that the walk hands to the scanner. */
  datatype Visit = Visit(file: Option<string>, line: int, text: string)

  datatype Walk = Walk(currentFile: Option<string>, lineNum: int, visits: seq<Visit>)

  function WalkLine(w: Walk, line: string): Walk {
    if StartsWith(line, "+++ b/") then w.(currentFile := Some(line[6..]), lineNum := 0)
    else if HunkStart(line).Some? then w.(lineNum := HunkStart(line).value - 1)
    else if StartsWith(line, "+") && !StartsWith(line, "+++") then
      w.(lineNum := w.lineNum + 1, visits := w.visits + [Visit(w.currentFile, w.lineNum + 1, line[1..])])
    else if !StartsWith(line, "-") then w.(lineNum := w.lineNum + 1)
    else w
  }

  function WalkLines(w: Walk, lines: seq<string>): Walk {
    if lines == [] then w else WalkLine(WalkLines(w, lines[..|lines| - 1]), lines[|lines| - 1])
  }

  const START := Walk(None, 0, [])

  lemma {:induction false} WalkConcat(w: Walk, a: seq<string>, b: seq<string>)
    ensures WalkLines(w, a + b) == WalkLines(WalkLines(w, a), b)
  {
    if b == [] {
      assert a + b == a;
    } else {
      WalkConcat(w, a, b[..|b| - 1]);
      assert (a + b)[..|a + b| - 1] == a + b[..|b| - 1];
    }
  }

  // ---- Printing unified diffs ----

  datatype Line = Context(text: string) | Removed(text: string) | Added(text: string) | NoNewline

  datatype Hunk = Hunk(
    oldStart: nat, oldCount: Option<nat>, newStart: nat, newCount: Option<nat>, section: string, lines: seq<Line>)

  /** `preamble` is what git prints between two files: "diff --git", "index", "--- a/..." and the like. */
  datatype FileDiff = FileDiff(preamble: seq<string>, path: string, hunks: seq<Hunk>)

  predicate PreambleLine(line: string) {
    !StartsWith(line, "+") && !StartsWith(line, "@")
  }

  predicate WellFormed(f: FileDiff) {
    forall i :: 0 <= i < |f.preamble| ==> PreambleLine(f.preamble[i])
  }

  function PrintRange(start: nat, count: Option<nat>): string {
    Decimal(start) + if count.Some? then "," + Decimal(count.value) else ""
  }

  function PrintHeader(h: Hunk): string {
    "@@ -" + (PrintRange(h.oldStart, h.oldCount) + (" +" + (PrintRange(h.newStart, h.newCount) + (" @@" + h.section))))
  }

  function PrintLine(l: Line): string {
    match l
    case Context(t) => " " + t
    case Removed(t) => "-" + t
    case Added(t) => "+" + t
    case NoNewline => "\\ No newline at end of file"
  }

  function PrintLines(ls: seq<Line>): seq<string> {
    if ls == [] then [] else PrintLines(ls[..|ls| - 1]) + [PrintLine(ls[|ls| - 1])]
  }

  function PrintHunks(hs: seq<Hunk>): seq<string> {
    if hs == [] then []
    else PrintHunks(hs[..|hs| - 1]) + ([PrintHeader(hs[|hs| - 1])] + PrintLines(hs[|hs| - 1].lines))
  }

  function PrintFile(f: FileDiff): seq<string> {
    f.preamble + (["+++ b/" + f.path] + PrintHunks(f.hunks))
  }

  /** The diff's lines as `split('\n')` gives them: the last newline leaves an empty string. */
  function Print(fs: seq<FileDiff>): seq<string> {
    PrintFiles(fs) + [""]
  }

  function PrintFiles(fs: seq<FileDiff>): seq<string> {
    if fs == [] then [] else PrintFiles(fs[..|fs| - 1]) + PrintFile(fs[|fs| - 1])
  }

  // ---- What should be visited ----

  /** Lines of the new file among `ls`. */
  function NewLines(ls: seq<Line>): nat {
    if ls == [] then 0
    else NewLines(ls[..|ls| - 1]) + if ls[|ls| - 1].Context? || ls[|ls| - 1].Added? then 1 else 0
  }

  function Markers(ls: seq<Line>): nat {
    if ls == [] then 0 else Markers(ls[..|ls| - 1]) + if ls[|ls| - 1].NoNewline? then 1 else 0
  }

  /** The added lines of a hunk with their numbers in the new file. `skew` adds the markers passed so far. */
  function LineVisits(file: string, start: int, ls: seq<Line>, skew: bool): seq<Visit> {
    if ls == [] then []
    else
      var init, l := ls[..|ls| - 1], ls[|ls| - 1];
      LineVisits(file, start, init, skew) +
      if l.Added? then [Visit(Some(file), start + NewLines(init) + (if skew then Markers(init) else 0), l.text)] else []
  }

  function HunkVisits(file: string, hs: seq<Hunk>, skew: bool): seq<Visit> {
    if hs == [] then []
    else HunkVisits(file, hs[..|hs| - 1], skew) + LineVisits(file, hs[|hs| - 1].newStart, hs[|hs| - 1].lines, skew)
  }

  function FileVisits(fs: seq<FileDiff>, skew: bool): seq<Visit> {
    if fs == [] then []
    else FileVisits(fs[..|fs| - 1], skew) + HunkVisits(fs[|fs| - 1].path, fs[|fs| - 1].hunks, skew)
  }

  // ---- The conditions ----

  /** An added line whose text starts with "++" looks like a file header. */
  predicate Plain(ls: seq<Line>) {
    forall i :: 0 <= i < |ls| && ls[i].Added? ==> !StartsWith(ls[i].text, "++")
  }

  /** No added line comes after a "No newline" marker of its hunk. */
  predicate MarkersLast(ls: seq<Line>) {
    forall i, j :: 0 <= i < j < |ls| && ls[i].NoNewline? ==> !ls[j].Added?
  }

  predicate AllPlain(fs: seq<FileDiff>) {
    forall i, j :: 0 <= i < |fs| && 0 <= j < |fs[i].hunks| ==> Plain(fs[i].hunks[j].lines)
  }

  predicate AllMarkersLast(fs: seq<FileDiff>) {
    forall i, j :: 0 <= i < |fs| && 0 <= j < |fs[i].hunks| ==> MarkersLast(fs[i].hunks[j].lines)
  }

  // ---- The walk on a printed diff ----

  lemma SkipRangeOfPrint(start: nat, count: Option<nat>, rest: string)
    requires rest != [] && !IsDigit(rest[0]) && rest[0] != ','
    ensures SkipRange(PrintRange(start, count) + rest) == Some(rest)
    ensures Digits(PrintRange(start, count) + rest) == Decimal(start)
  {
    var d := Decimal(start);
    if count.None? {
      assert PrintRange(start, count) == d;
      DigitsStop(d, rest);
      assert (d + rest)[|d|..] == rest;
    } else {
      var c := Decimal(count.value);
      var tail := "," + (c + rest);
      assert PrintRange(start, count) + rest == d + tail;
      DigitsStop(d, tail);
      DigitsStop(c, rest);
      assert (d + tail)[|d|..] == tail && tail[1..] == c + rest && (c + rest)[|c|..] == rest;
    }
  }

  lemma HeaderParses(h: Hunk)
    ensures HunkStart(PrintHeader(h)) == Some(h.newStart)
    ensures !StartsWith(PrintHeader(h), "+++ b/")
  {
    var inner := PrintRange(h.newStart, h.newCount) + (" @@" + h.section);
    var rest := " +" + inner;
    var line := PrintHeader(h);
    assert line == "@@ -" + (PrintRange(h.oldStart, h.oldCount) + rest);
    assert line[..4] == "@@ -" && line[4..] == PrintRange(h.oldStart, h.oldCount) + rest;
    SkipRangeOfPrint(h.oldStart, h.oldCount, rest);
    assert rest[..2] == " +" && rest[2..] == inner;
    SkipRangeOfPrint(h.newStart, h.newCount, " @@" + h.section);
    ParseDecimal(h.newStart);
  }

  lemma ShorterPrefix(s: string, longer: string, shorter: string)
    requires |shorter| <= |longer| && longer[..|shorter|] == shorter
    ensures StartsWith(s, longer) ==> StartsWith(s, shorter)
  {
    if StartsWith(s, longer) {
      assert s[..|shorter|] == s[..|longer|][..|shorter|];
    }
  }

  /** What a printed line starts with. */
  lemma PrintedStarts(l: Line)
    ensures var s := PrintLine(l);
            && HunkStart(s) == None
            && (StartsWith(s, "+") <==> l.Added?)
            && (StartsWith(s, "-") <==> l.Removed?)
            && (l.Added? ==> s[1..] == l.text && (StartsWith(s, "+++") <==> StartsWith(l.text, "++")))
            && (StartsWith(s, "+++ b/") ==> l.Added? && StartsWith(l.text, "++"))
  {
    var s := PrintLine(l);
    assert |s| >= 1 && s[..1] == [s[0]];
    ShorterPrefix(s, "@@ -", "@");
    ShorterPrefix(s, "+++ b/", "+++");
    ShorterPrefix(s, "+++", "+");
    if l.Added? {
      assert s[1..] == l.text;
      if |s| >= 3 {
        assert l.text[..2] == s[1..3] && s[..3] == [s[0]] + s[1..3];
      }
    }
  }

  /** How one printed body line moves the walk. */
  lemma WalkBodyLine(w: Walk, l: Line)
    requires l.Added? ==> !StartsWith(l.text, "++")
    ensures var t := WalkLine(w, PrintLine(l));
            && t.currentFile == w.currentFile
            && t.lineNum == w.lineNum + (if l.Removed? then 0 else 1)
            && t.visits == w.visits + if l.Added? then [Visit(w.currentFile, w.lineNum + 1, l.text)] else []
  {
    hide PrintLine, StartsWith, HunkStart;
    PrintedStarts(l);
  }

  lemma {:induction false} WalkBody(w: Walk, file: string, start: int, ls: seq<Line>)
    requires Plain(ls) && w.currentFile == Some(file) && w.lineNum == start - 1
    ensures var t := WalkLines(w, PrintLines(ls));
            && t.currentFile == Some(file)
            && t.lineNum == start - 1 + NewLines(ls) + Markers(ls)
            && t.visits == w.visits + LineVisits(file, start, ls, true)
  {
    if ls != [] {
      var init, l := ls[..|ls| - 1], ls[|ls| - 1];
      WalkBody(w, file, start, init);
      WalkBodyLine(WalkLines(w, PrintLines(init)), l);
      assert PrintLines(ls)[..|PrintLines(ls)| - 1] == PrintLines(init);
    }
  }

  lemma WalkHunk(w: Walk, file: string, h: Hunk)
    requires Plain(h.lines) && w.currentFile == Some(file)
    ensures var t := WalkLines(w, [PrintHeader(h)] + PrintLines(h.lines));
            t.currentFile == Some(file) && t.visits == w.visits + LineVisits(file, h.newStart, h.lines, true)
  {
    HeaderParses(h);
    WalkConcat(w, [PrintHeader(h)], PrintLines(h.lines));
    assert [PrintHeader(h)][..0] == [];
    var v := WalkLines(w, [PrintHeader(h)]);
    assert v == WalkLine(WalkLines(w, []), PrintHeader(h));
    WalkBody(v, file, h.newStart, h.lines);
  }

  lemma {:induction false} WalkHunks(w: Walk, file: string, hs: seq<Hunk>)
    requires w.currentFile == Some(file) && forall j :: 0 <= j < |hs| ==> Plain(hs[j].lines)
    ensures var t := WalkLines(w, PrintHunks(hs));
            t.currentFile == Some(file) && t.visits == w.visits + HunkVisits(file, hs, true)
  {
    hide Plain, PrintHeader, PrintLines, LineVisits, WalkLine;
    if hs != [] {
      WalkHunks(w, file, hs[..|hs| - 1]);
      WalkLastHunk(w, file, hs);
    }
  }

  lemma WalkLastHunk(w: Walk, file: string, hs: seq<Hunk>)
    requires hs != [] && Plain(hs[|hs| - 1].lines)
    requires WalkLines(w, PrintHunks(hs[..|hs| - 1])).currentFile == Some(file)
    ensures var v, t := WalkLines(w, PrintHunks(hs[..|hs| - 1])), WalkLines(w, PrintHunks(hs));
            && t.currentFile == Some(file)
            && t.visits == v.visits + LineVisits(file, hs[|hs| - 1].newStart, hs[|hs| - 1].lines, true)
  {
    hide Plain, PrintHeader, PrintLines, LineVisits, WalkLine, WalkLines;
    var init, h := hs[..|hs| - 1], hs[|hs| - 1];
    WalkConcat(w, PrintHunks(init), [PrintHeader(h)] + PrintLines(h.lines));
    WalkHunk(WalkLines(w, PrintHunks(init)), file, h);
  }

  lemma NoHunkHere(line: string)
    requires !StartsWith(line, "@")
    ensures HunkStart(line) == None
  {
    ShorterPrefix(line, "@@ -", "@");
  }

  lemma {:induction false} WalkPreamble(w: Walk, ls: seq<string>)
    requires forall i :: 0 <= i < |ls| ==> PreambleLine(ls[i])
    ensures WalkLines(w, ls).visits == w.visits
  {
    if ls != [] {
      WalkPreamble(w, ls[..|ls| - 1]);
      var line := ls[|ls| - 1];
      NoHunkHere(line);
      ShorterPrefix(line, "+++ b/", "+");
    }
  }

  lemma WalkFile(w: Walk, f: FileDiff)
    requires WellFormed(f) && forall j :: 0 <= j < |f.hunks| ==> Plain(f.hunks[j].lines)
    ensures WalkLines(w, PrintFile(f)).visits == w.visits + HunkVisits(f.path, f.hunks, true)
  {
    var header := "+++ b/" + f.path;
    WalkConcat(w, f.preamble, [header] + PrintHunks(f.hunks));
    WalkPreamble(w, f.preamble);
    var v := WalkLines(w, f.preamble);
    WalkConcat(v, [header], PrintHunks(f.hunks));
    assert [header][..0] == [];
    assert header[..6] == "+++ b/" && header[6..] == f.path;
    assert WalkLines(v, [header]) == WalkLine(WalkLines(v, []), header);
    WalkHunks(WalkLines(v, [header]), f.path, f.hunks);
  }

  lemma {:induction false} WalkFiles(fs: seq<FileDiff>)
    requires forall i :: 0 <= i < |fs| ==> WellFormed(fs[i])
    requires AllPlain(fs)
    ensures WalkLines(START, PrintFiles(fs)).visits == FileVisits(fs, true)
  {
    if fs != [] {
      var init, f := fs[..|fs| - 1], fs[|fs| - 1];
      assert AllPlain(init);
      WalkFiles(init);
      WalkConcat(START, PrintFiles(init), PrintFile(f));
      WalkFile(WalkLines(START, PrintFiles(init)), f);
    }
  }

  // ---- Exactly when the walk is right ----

  /** The walk hands the line to the scanner, whatever came before. */
  predicate Visited(line: string) {
    !StartsWith(line, "+++ b/") && HunkStart(line).None? && StartsWith(line, "+") && !StartsWith(line, "+++")
  }

  function VisitCount(lines: seq<string>): nat {
    if lines == [] then 0 else VisitCount(lines[..|lines| - 1]) + if Visited(lines[|lines| - 1]) then 1 else 0
  }

  lemma {:induction false} VisitsAreCounted(w: Walk, lines: seq<string>)
    ensures |WalkLines(w, lines).visits| == |w.visits| + VisitCount(lines)
  {
    hide StartsWith, HunkStart;
    if lines != [] {
      VisitsAreCounted(w, lines[..|lines| - 1]);
    }
  }

  lemma {:induction false} VisitCountConcat(a: seq<string>, b: seq<string>)
    ensures VisitCount(a + b) == VisitCount(a) + VisitCount(b)
  {
    hide Visited;
    if b == [] {
      assert a + b == a;
    } else {
      VisitCountConcat(a, b[..|b| - 1]);
      assert (a + b)[..|a + b| - 1] == a + b[..|b| - 1];
    }
  }

  function AddedCount(ls: seq<Line>): nat {
    if ls == [] then 0 else AddedCount(ls[..|ls| - 1]) + if ls[|ls| - 1].Added? then 1 else 0
  }

  function AddedInHunks(hs: seq<Hunk>): nat {
    if hs == [] then 0 else AddedInHunks(hs[..|hs| - 1]) + AddedCount(hs[|hs| - 1].lines)
  }

  function AddedInFiles(fs: seq<FileDiff>): nat {
    if fs == [] then 0 else AddedInFiles(fs[..|fs| - 1]) + AddedInHunks(fs[|fs| - 1].hunks)
  }

  lemma {:induction false} BodyVisitCount(ls: seq<Line>)
    ensures VisitCount(PrintLines(ls)) <= AddedCount(ls)
    ensures VisitCount(PrintLines(ls)) == AddedCount(ls) ==> Plain(ls)
  {
    hide PrintLine, StartsWith, HunkStart;
    if ls != [] {
      var init, l := ls[..|ls| - 1], ls[|ls| - 1];
      BodyVisitCount(init);
      PrintedStarts(l);
      assert PrintLines(ls)[..|PrintLines(ls)| - 1] == PrintLines(init);
    }
  }

  lemma HeaderIsNotVisited(h: Hunk)
    ensures VisitCount([PrintHeader(h)]) == 0
  {
    HeaderParses(h);
    assert [PrintHeader(h)][..0] == [];
  }

  lemma {:induction false} HunksVisitCount(hs: seq<Hunk>)
    ensures VisitCount(PrintHunks(hs)) <= AddedInHunks(hs)
    ensures VisitCount(PrintHunks(hs)) == AddedInHunks(hs) ==> forall j :: 0 <= j < |hs| ==> Plain(hs[j].lines)
  {
    hide Plain, PrintHeader, Visited, AddedCount, PrintLines;
    if hs != [] {
      HunksVisitCount(hs[..|hs| - 1]);
      LastHunkVisitCount(hs);
      BodyVisitCount(hs[|hs| - 1].lines);
    }
  }

  lemma LastHunkVisitCount(hs: seq<Hunk>)
    requires hs != []
    ensures VisitCount(PrintHunks(hs))
            == VisitCount(PrintHunks(hs[..|hs| - 1])) + VisitCount(PrintLines(hs[|hs| - 1].lines))
  {
    hide PrintHeader, PrintLines, VisitCount;
    var init, h := hs[..|hs| - 1], hs[|hs| - 1];
    VisitCountConcat(PrintHunks(init), [PrintHeader(h)] + PrintLines(h.lines));
    VisitCountConcat([PrintHeader(h)], PrintLines(h.lines));
    HeaderIsNotVisited(h);
  }

  lemma FileVisitCount(f: FileDiff)
    requires WellFormed(f)
    ensures VisitCount(PrintFile(f)) == VisitCount(PrintHunks(f.hunks))
  {
    var header := "+++ b/" + f.path;
    VisitCountConcat(f.preamble, [header] + PrintHunks(f.hunks));
    VisitCountConcat([header], PrintHunks(f.hunks));
    WalkPreamble(START, f.preamble);
    VisitsAreCounted(START, f.preamble);
    assert [header][..0] == [] && header[..6] == "+++ b/";
  }

  lemma {:induction false} FilesVisitCount(fs: seq<FileDiff>)
    requires forall i :: 0 <= i < |fs| ==> WellFormed(fs[i])
    ensures VisitCount(PrintFiles(fs)) <= AddedInFiles(fs)
    ensures VisitCount(PrintFiles(fs)) == AddedInFiles(fs) ==> AllPlain(fs)
  {
    hide Plain, PrintFile, Visited;
    if fs != [] {
      var init, f := fs[..|fs| - 1], fs[|fs| - 1];
      FilesVisitCount(init);
      VisitCountConcat(PrintFiles(init), PrintFile(f));
      FileVisitCount(f);
      HunksVisitCount(f.hunks);
    }
  }

  lemma {:induction false} LineVisitsLength(file: string, start: int, ls: seq<Line>, skew: bool)
    ensures |LineVisits(file, start, ls, skew)| == AddedCount(ls)
  {
    if ls != [] {
      LineVisitsLength(file, start, ls[..|ls| - 1], skew);
    }
  }

  lemma {:induction false} HunkVisitsLength(file: string, hs: seq<Hunk>, skew: bool)
    ensures |HunkVisits(file, hs, skew)| == AddedInHunks(hs)
  {
    if hs != [] {
      HunkVisitsLength(file, hs[..|hs| - 1], skew);
      LineVisitsLength(file, hs[|hs| - 1].newStart, hs[|hs| - 1].lines, skew);
    }
  }

  lemma {:induction false} FileVisitsLength(fs: seq<FileDiff>, skew: bool)
    ensures |FileVisits(fs, skew)| == AddedInFiles(fs)
  {
    if fs != [] {
      FileVisitsLength(fs[..|fs| - 1], skew);
      HunkVisitsLength(fs[|fs| - 1].path, fs[|fs| - 1].hunks, skew);
    }
  }

  lemma {:induction false} NoMarkers(ls: seq<Line>)
    ensures Markers(ls) == 0 <==> forall i :: 0 <= i < |ls| ==> !ls[i].NoNewline?
  {
    if ls != [] {
      NoMarkers(ls[..|ls| - 1]);
    }
  }

  lemma SplitEqual(a: seq<Visit>, b: seq<Visit>, c: seq<Visit>, d: seq<Visit>)
    requires |b| == |d|
    ensures a + b == c + d <==> a == c && b == d
  {
    if a + b == c + d {
      assert |a| == |c|;
      assert a == (a + b)[..|a|] == (c + d)[..|c|] == c;
      assert b == (a + b)[|a|..] == (c + d)[|c|..] == d;
    }
  }

  lemma {:induction false} LineSkew(file: string, start: int, ls: seq<Line>)
    ensures LineVisits(file, start, ls, true) == LineVisits(file, start, ls, false) <==> MarkersLast(ls)
  {
    if ls != [] {
      var init, l := ls[..|ls| - 1], ls[|ls| - 1];
      LineSkew(file, start, init);
      NoMarkers(init);
      assert MarkersLast(ls) <==> MarkersLast(init) && (l.Added? ==> Markers(init) == 0);
      var n := start + NewLines(init);
      SplitEqual(
        LineVisits(file, start, init, true), if l.Added? then [Visit(Some(file), n + Markers(init), l.text)] else [],
        LineVisits(file, start, init, false), if l.Added? then [Visit(Some(file), n, l.text)] else []);
    }
  }

  lemma {:induction false} HunkSkew(file: string, hs: seq<Hunk>)
    ensures HunkVisits(file, hs, true) == HunkVisits(file, hs, false) <==>
            forall j :: 0 <= j < |hs| ==> MarkersLast(hs[j].lines)
  {
    hide MarkersLast, LineVisits;
    if hs != [] {
      var init, h := hs[..|hs| - 1], hs[|hs| - 1];
      HunkSkew(file, init);
      LineSkew(file, h.newStart, h.lines);
      LineVisitsLength(file, h.newStart, h.lines, true);
      LineVisitsLength(file, h.newStart, h.lines, false);
      SplitEqual(HunkVisits(file, init, true), LineVisits(file, h.newStart, h.lines, true),
                 HunkVisits(file, init, false), LineVisits(file, h.newStart, h.lines, false));
    }
  }

  lemma {:induction false} FileSkew(fs: seq<FileDiff>)
    ensures FileVisits(fs, true) == FileVisits(fs, false) <==> AllMarkersLast(fs)
  {
    hide MarkersLast, HunkVisits;
    if fs != [] {
      var init, f := fs[..|fs| - 1], fs[|fs| - 1];
      FileSkew(init);
      HunkSkew(f.path, f.hunks);
      HunkVisitsLength(f.path, f.hunks, true);
      HunkVisitsLength(f.path, f.hunks, false);
      SplitEqual(FileVisits(init, true), HunkVisits(f.path, f.hunks, true),
                 FileVisits(init, false), HunkVisits(f.path, f.hunks, false));
      assert AllMarkersLast(fs) <==>
             AllMarkersLast(init) && forall j :: 0 <= j < |f.hunks| ==> MarkersLast(f.hunks[j].lines);
    }
  }

  lemma LastEmptyLine(w: Walk)
    ensures WalkLines(w, [""]).visits == w.visits
  {
    assert [""][..0] == [];
    NoHunkHere("");
  }

  /** Printing any staged change as a unified diff and walking it visits every added line exactly once, in
      order, with its file and its true line number, if and only if no added line starts with "++" and no
      "No newline" marker comes before an added line of its hunk. */
  lemma WalkFindsEveryAddedLine(fs: seq<FileDiff>)
    requires forall i :: 0 <= i < |fs| ==> WellFormed(fs[i])
    ensures WalkLines(START, Print(fs)).visits == FileVisits(fs, false) <==> AllPlain(fs) && AllMarkersLast(fs)
  {
    hide FileVisits, AllPlain, AllMarkersLast, PrintFiles;
    var lines := PrintFiles(fs);
    WalkConcat(START, lines, [""]);
    LastEmptyLine(WalkLines(START, lines));
    var visits := WalkLines(START, lines).visits;
    assert WalkLines(START, Print(fs)).visits == visits;
    if visits == FileVisits(fs, false) {
      VisitsAreCounted(START, lines);
      FileVisitsLength(fs, false);
      FilesVisitCount(fs);
    }
    if AllPlain(fs) {
      WalkFiles(fs);
      FileSkew(fs);
    }
  }

  // ---- Findings ----

  datatype Finding = Finding(pattern: string, file: Option<string>, line: int)

  /** `scan` is the scanner of one line; `allowlisted` and `skipped` are its two exemptions. */
  datatype Rules = Rules(
    allowlisted: string -> bool, skipped: string -> bool, scan: (string, Option<string>) -> seq<Finding>)

  function Relocated(fs: seq<Finding>, line: int): seq<Finding> {
    seq(|fs|, i requires 0 <= i < |fs| => fs[i].(line := line))
  }

  function FindingsAt(rules: Rules, v: Visit): seq<Finding> {
    if rules.allowlisted(v.text) then []
    else if v.file.Some? && v.file.value != "" && rules.skipped(v.file.value) then []
    else Relocated(rules.scan(v.text, v.file), v.line)
  }

  function FindingsOf(rules: Rules, visits: seq<Visit>): seq<Finding> {
    if visits == [] then []
    else FindingsOf(rules, visits[..|visits| - 1]) + FindingsAt(rules, visits[|visits| - 1])
  }

  lemma {:induction false} FindingsConcat(rules: Rules, a: seq<Visit>, b: seq<Visit>)
    ensures FindingsOf(rules, a + b) == FindingsOf(rules, a) + FindingsOf(rules, b)
  {
    hide FindingsAt;
    if b == [] {
      assert a + b == a;
    } else {
      FindingsConcat(rules, a, b[..|b| - 1]);
      assert (a + b)[..|a + b| - 1] == a + b[..|b| - 1];
    }
  }

  /** A finding is reported exactly if it is one of the line scanner's on a visited line that is not on the allow list,
      in a file that is not skipped; it carries the number of that line. */
  ghost predicate FoundOn(rules: Rules, v: Visit, x: Finding) {
    && !rules.allowlisted(v.text) && (v.file.Some? && v.file.value != "" ==> !rules.skipped(v.file.value))
    && exists g :: g in rules.scan(v.text, v.file) && x == Finding(g.pattern, g.file, v.line)
  }

  lemma FindingsAtExactly(rules: Rules, v: Visit, x: Finding)
    ensures x in FindingsAt(rules, v) <==> FoundOn(rules, v, x)
  {
    var gs := rules.scan(v.text, v.file);
    if FoundOn(rules, v, x) {
      var g :| g in gs && x == Finding(g.pattern, g.file, v.line);
      var i :| 0 <= i < |gs| && gs[i] == g;
      assert Relocated(gs, v.line)[i] == x;
    }
    if x in FindingsAt(rules, v) {
      var i :| 0 <= i < |gs| && Relocated(gs, v.line)[i] == x;
      assert gs[i] in gs;
    }
  }

  lemma {:induction false} FindingsExactly(rules: Rules, visits: seq<Visit>, x: Finding)
    ensures x in FindingsOf(rules, visits) <==> exists i :: 0 <= i < |visits| && FoundOn(rules, visits[i], x)
  {
    hide FindingsAt, FoundOn;
    if visits != [] {
      var init, last := visits[..|visits| - 1], visits[|visits| - 1];
      FindingsExactly(rules, init, x);
      FindingsAtExactly(rules, last, x);
    }
  }

  /** Of any staged change without "++" lines and early markers, the scan of its printed diff reports exactly what the
      line scanner finds on the added lines that are not exempt, at their true numbers. */
  lemma SecretsAreReportedExactly(rules: Rules, fs: seq<FileDiff>, x: Finding)
    requires (forall i :: 0 <= i < |fs| ==> WellFormed(fs[i])) && AllPlain(fs) && AllMarkersLast(fs)
    ensures x in FindingsOf(rules, WalkLines(START, Print(fs)).visits) <==>
            exists i :: 0 <= i < |FileVisits(fs, false)| && FoundOn(rules, FileVisits(fs, false)[i], x)
  {
    hide FindingsOf, FoundOn, AllPlain, AllMarkersLast, WellFormed;
    WalkFindsEveryAddedLine(fs);
    FindingsExactly(rules, FileVisits(fs, false), x);
  }

  /** The lines of the new file that a hunk shows, the first of them at the hunk's start. */
  function NewText(ls: seq<Line>): seq<string> {
    if ls == [] then []
    else
      var l := ls[|ls| - 1];
      NewText(ls[..|ls| - 1]) + if l.Context? || l.Added? then [l.text] else []
  }

  /** The numbers to be visited are true: counted from the hunk's start, the new file has that text at that place. */
  lemma {:induction false} NumbersAreTrue(file: string, start: int, ls: seq<Line>, i: nat)
    requires i < |LineVisits(file, start, ls, false)|
    ensures |NewText(ls)| == NewLines(ls)
    ensures var v := LineVisits(file, start, ls, false)[i];
            v.file == Some(file) && 0 <= v.line - start < |NewText(ls)| && NewText(ls)[v.line - start] == v.text
  {
    var init, l := ls[..|ls| - 1], ls[|ls| - 1];
    NewTextLength(init);
    if i < |LineVisits(file, start, init, false)| {
      NumbersAreTrue(file, start, init, i);
    }
  }

  lemma {:induction false} NewTextLength(ls: seq<Line>)
    ensures |NewText(ls)| == NewLines(ls)
  {
    if ls != [] {
      NewTextLength(ls[..|ls| - 1]);
    }
  }

  /** A line's effect does not depend on the visits before it. */
  lemma WalkLineAdds(w: Walk, line: string)
    ensures WalkLine(w, line) ==
            var t := WalkLine(w.(visits := []), line); t.(visits := w.visits + t.visits)
  {
    hide StartsWith, HunkStart;
  }

  /** `scanGitDiff` on the lines of the diff. */
  method ScanGitDiff(rules: Rules, lines: seq<string>) returns (findings: seq<Finding>)
    ensures findings == FindingsOf(rules, WalkLines(START, lines).visits)
  {
    hide WalkLine, FindingsOf;
    findings := [];
    var currentFile: Option<string> := None;
    var lineNum: int := 0;
    assert lines[..0] == [] && FindingsOf(rules, []) == [] by {
      NoFindings(rules);
    }
    for i := 0 to |lines|
      invariant var w := WalkLines(START, lines[..i]);
                currentFile == w.currentFile && lineNum == w.lineNum && findings == FindingsOf(rules, w.visits)
    {
      assert lines[..i + 1][..i] == lines[..i];
      ghost var w := WalkLines(START, lines[..i]);
      WalkLineAdds(w, lines[i]);
      FindingsConcat(rules, w.visits, WalkLine(w.(visits := []), lines[i]).visits);
      var found;
      currentFile, lineNum, found := ScanLine(rules, lines[i], currentFile, lineNum);
      findings := findings + found;
    }
    assert lines[..|lines|] == lines;
  }

  lemma NoFindings(rules: Rules)
    ensures FindingsOf(rules, []) == []
  {
  }

  lemma FindingsOfOne(rules: Rules, v: Visit)
    ensures FindingsOf(rules, [v]) == FindingsAt(rules, v)
  {
    assert [v][..0] == [];
  }

  /** One line of the loop. */
  method ScanLine(rules: Rules, line: string, file: Option<string>, num: int)
    returns (currentFile: Option<string>, lineNum: int, found: seq<Finding>)
    ensures var w := WalkLine(Walk(file, num, []), line);
            currentFile == w.currentFile && lineNum == w.lineNum && found == FindingsOf(rules, w.visits)
  {
    currentFile, lineNum, found := file, num, [];
    if StartsWith(line, "+++ b/") {
      currentFile := Some(line[6..]);
      lineNum := 0;
      return;
    }
    var hunkMatch := HunkStart(line);
    if hunkMatch.Some? {
      var start: int := hunkMatch.value;
      lineNum := start - 1;
      return;
    }
    if StartsWith(line, "+") && !StartsWith(line, "+++") {
      lineNum := lineNum + 1;
      FindingsOfOne(rules, Visit(currentFile, lineNum, line[1..]));
      if rules.allowlisted(line[1..]) {
        return;
      }
      if currentFile.Some? && currentFile.value != "" && rules.skipped(currentFile.value) {
        return;
      }
      found := Relocated(rules.scan(line[1..], currentFile), lineNum);
    } else if !StartsWith(line, "-") {
      lineNum := lineNum + 1;
    }
  }
}
