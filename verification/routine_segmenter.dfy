/** ExtractProceduresAndFunctions and ProcedureOrFunctionGetName of
    ProcessPackages.cs: a package source, its comments removed, is cut into
    lines, every line naming a PROCEDURE or FUNCTION opens a segment, and
    each segment that has a BEGIN becomes a routine filed under its name. */
module RoutineSegmenter {
  import opened Wrappers
  import opened Strings
  import opened Dictionaries
  import opened TextUtils

  /** A line that opens a segment. */
  predicate IsHeader(line: string) {
    Contains(line, "PROCEDURE ") || Contains(line, "FUNCTION ")
  }

  /** The lines of a package: split on '\n', empty entries removed. */
  function SourceLines(content: string): seq<string> {
    NonEmpty(Split(RemoveComments(content), "\n"))
  }

  /** Increasing indexes of lines. */
  predicate ValidHeaders(lines: seq<string>, idx: seq<nat>) {
    && (forall k :: 0 <= k < |idx| ==> idx[k] < |lines|)
    && (forall k, m :: 0 <= k < m < |idx| ==> idx[k] < idx[m])
  }

  /** The indexes of all header lines, in order. */
  function Headers(lines: seq<string>): (idx: seq<nat>)
    ensures ValidHeaders(lines, idx)
  {
    if |lines| == 0 then []
    else
      var n := |lines| - 1;
      var init := Headers(lines[..n]);
      assert forall i :: 0 <= i < n ==> lines[..n][i] == lines[i];
      if IsHeader(lines[n]) then init + [n] else init
  }

  /** The header indexes are exactly the indexes of the header lines. */
  lemma {:induction false} HeadersExact(lines: seq<string>)
    ensures forall i :: i in Headers(lines) <==> 0 <= i < |lines| && IsHeader(lines[i])
  {
    if |lines| > 0 {
      var n := |lines| - 1;
      HeadersExact(lines[..n]);
      assert forall i :: 0 <= i < n ==> lines[..n][i] == lines[i];
    }
  }

  /** Lines none of which is a header have no header index. */
  lemma {:induction false} NoHeaderLines(lines: seq<string>)
    requires forall i :: 0 <= i < |lines| ==> !IsHeader(lines[i])
    ensures Headers(lines) == []
  {
    if |lines| > 0 {
      var n := |lines| - 1;
      assert forall i :: 0 <= i < n ==> lines[..n][i] == lines[i];
      NoHeaderLines(lines[..n]);
    }
  }

  // ---------------------------------------------------------------- names

  /** ProcedureOrFunctionGetName: the header before its '(' (when that is not
      the first character), without PROCEDURE and ';' or else without
      FUNCTION, trimmed, cut at its first space, lower-cased. */
  function RoutineName(text: string): (name: string)
    ensures ' ' !in name && IsLowerCased(name)
  {
    var paren := IndexOf(text, "(");
    var head := if paren > 0 then text[..paren] else text;
    var bare :=
      if Contains(head, "PROCEDURE") then Trim(Replace(Replace(head, "PROCEDURE", ""), ";", ""))
      else Trim(Replace(head, "FUNCTION", ""));
    var word := if Contains(bare, " ") then Split(bare, " ")[0] else bare;
    SpaceFreeWord(bare);
    LowerKeepsSpaceFree(word);
    ToLower(word)
  }

  lemma SpaceFreeWord(bare: string)
    ensures ' ' !in (if Contains(bare, " ") then Split(bare, " ")[0] else bare)
  {
    if Contains(bare, " ") {
      SplitPiecesFree(bare, " ");
      ContainsChar(Split(bare, " ")[0], ' ');
    } else {
      ContainsChar(bare, ' ');
    }
  }

  lemma LowerKeepsSpaceFree(s: string)
    requires ' ' !in s
    ensures ' ' !in ToLower(s)
  {
    forall j | 0 <= j < |s| ensures ToLower(s)[j] != ' ' {
      assert s[j] != ' ';
    }
  }

  /** The suffix a colliding name gets inside the loop: "_func" when the
      trimmed, upper-cased body starts with FUNCTION, "_proc" otherwise. */
  function CollisionSuffix(body: string): (r: string)
    ensures r == "_func" || r == "_proc"
    ensures r == "_func" <==> StartsWith(ToUpper(Trim(body)), "FUNCTION")
    ensures ' ' !in r && IsLowerCased(r)
  {
    if StartsWith(ToUpper(Trim(body)), "FUNCTION") then "_func" else "_proc"
  }

  // ---------------------------------------------------------------- segments

  /** The lines [a, b) joined with '\n'. */
  function Segment(lines: seq<string>, a: nat, b: nat): string
    requires a <= b <= |lines|
  {
    Join("\n", lines[a..b])
  }

  /** What the extraction reads off one segment: the name of its header line,
      the suffix it gets when that name collides inside the loop, its trimmed
      body, and whether it contains BEGIN. */
  datatype Piece = Piece(name: string, suffix: string, body: string, hasBegin: bool)

  function PieceOf(lines: seq<string>, a: nat, b: nat): Piece
    requires a < b <= |lines|
  {
    var segment := Segment(lines, a, b);
    Piece(RoutineName(lines[a]), CollisionSuffix(segment), Trim(segment), Contains(segment, "BEGIN"))
  }

  /** Segment k runs from header k up to header k + 1, the last one up to
      the end of the file. */
  function SegmentEnd(lines: seq<string>, idx: seq<nat>, k: nat): (b: nat)
    requires ValidHeaders(lines, idx) && k < |idx|
    ensures idx[k] < b <= |lines|
  {
    if k + 1 < |idx| then idx[k + 1] else |lines|
  }

  /** The segments opened by the header lines idx. */
  function Pieces(lines: seq<string>, idx: seq<nat>): (ps: seq<Piece>)
    requires ValidHeaders(lines, idx)
    ensures |ps| == |idx|
    ensures forall k {:trigger ps[k]} :: 0 <= k < |idx| ==> ps[k] == PieceOf(lines, idx[k], SegmentEnd(lines, idx, k))
  {
    seq(|idx|, k requires 0 <= k < |idx| => PieceOf(lines, idx[k], SegmentEnd(lines, idx, k)))
  }

  /** The routines kept so far: distinct names, each without spaces and
      lower-cased, and trimmed bodies that contain BEGIN. */
  predicate WellFormed(d: seq<Entry<string>>) {
    && DistinctKeys(d)
    && forall k :: 0 <= k < |d| ==>
         ' ' !in d[k].key && IsLowerCased(d[k].key) && Contains(d[k].value, "BEGIN") && Trimmed(d[k].value)
  }

  /** The name a piece is filed under: its header's name, suffixed when it
      collides inside the loop. */
  function PieceKey(d: seq<Entry<string>>, p: Piece, inLoop: bool): string {
    if inLoop && p.name in Keys(d) then p.name + p.suffix else p.name
  }

  /** One piece filed: skipped without BEGIN, otherwise added under its key;
      Add throws on a name already present. */
  function FilePiece(d: seq<Entry<string>>, p: Piece, inLoop: bool): Result<seq<Entry<string>>> {
    if !p.hasBegin then Ok(d) else Add(d, PieceKey(d, p, inLoop), p.body)
  }

  /** The loop: every piece in order, each filed inside the loop. */
  function FileLoop(ps: seq<Piece>): Result<seq<Entry<string>>> {
    if |ps| == 0 then Ok([])
    else
      match FileLoop(ps[..|ps| - 1])
      case Err(e) => Err(e)
      case Ok(d) => FilePiece(d, ps[|ps| - 1], true)
  }

  /** No piece gives no routine; otherwise every piece but the last goes
      through the loop and the last is filed after it. */
  function FilePieces(ps: seq<Piece>): Result<seq<Entry<string>>> {
    if |ps| == 0 then Ok([])
    else
      match FileLoop(ps[..|ps| - 1])
      case Err(e) => Err(e)
      case Ok(d) => FilePiece(d, ps[|ps| - 1], false)
  }

  /** ExtractProceduresAndFunctions on the content of a package file. */
  function Routines(content: string): Result<seq<Entry<string>>> {
    var lines := SourceLines(content);
    FilePieces(Pieces(lines, Headers(lines)))
  }

  // ---------------------------------------------------------------- the method

  /** ExtractProceduresAndFunctions: a prev/next cursor over the header lines. */
  method ExtractProceduresAndFunctions(content: string) returns (r: Result<seq<Entry<string>>>)
    ensures r == Routines(content)
  {
    var lines := SourceLines(content);
    var lineIndexes := Headers(lines);
    ghost var ps := Pieces(lines, lineIndexes);
    if |lineIndexes| == 0 {
      return Ok([]);
    }
    var proceduresAndFunctions: seq<Entry<string>> := [];
    var prev := lineIndexes[0];
    var j := 1;
    while j < |lineIndexes|
      invariant 1 <= j <= |lineIndexes|
      invariant prev == lineIndexes[j - 1]
      invariant FileLoop(ps[..j - 1]) == Ok(proceduresAndFunctions)
    {
      var next := lineIndexes[j];
      var procedureOrFunction := Join("\n", lines[prev..next]);
      FileLoopStep(ps, j - 1);
      if Contains(procedureOrFunction, "BEGIN") {
        var name := RoutineName(lines[prev]);
        if name in Keys(proceduresAndFunctions) {
          name := name + CollisionSuffix(procedureOrFunction);
        }
        var added := Add(proceduresAndFunctions, name, Trim(procedureOrFunction));
        if added.Err? {
          LoopErrorIsFinal(ps, j);
          return Err(added.error);
        }
        proceduresAndFunctions := added.value;
      }
      prev := next;
      j := j + 1;
    }
    var lastProcedureOrFunction := Join("\n", lines[prev..]);
    LastPiece(lines, lineIndexes);
    if Contains(lastProcedureOrFunction, "BEGIN") {
      var added := Add(proceduresAndFunctions, RoutineName(lines[prev]), Trim(lastProcedureOrFunction));
      if added.Err? {
        return Err(added.error);
      }
      proceduresAndFunctions := added.value;
    }
    r := Ok(proceduresAndFunctions);
  }

  /** The last piece runs to the end of the file. */
  lemma LastPiece(lines: seq<string>, idx: seq<nat>)
    requires ValidHeaders(lines, idx) && |idx| > 0
    ensures Pieces(lines, idx)[|idx| - 1] ==
      var a := idx[|idx| - 1];
      Piece(RoutineName(lines[a]), CollisionSuffix(Join("\n", lines[a..])), Trim(Join("\n", lines[a..])), Contains(Join("\n", lines[a..]), "BEGIN"))
  {
    var a := idx[|idx| - 1];
    assert lines[a..] == lines[a..|lines|];
  }

  /** One more piece through the loop. */
  lemma FileLoopStep(ps: seq<Piece>, i: nat)
    requires i < |ps| && FileLoop(ps[..i]).Ok?
    ensures FileLoop(ps[..i + 1]) == FilePiece(FileLoop(ps[..i]).value, ps[i], true)
  {
    assert ps[..i + 1][..i] == ps[..i];
  }

  /** A piece failing in the loop is the error of the whole file. */
  lemma LoopErrorIsFinal(ps: seq<Piece>, j: nat)
    requires j < |ps| && FileLoop(ps[..j]).Err?
    ensures FilePieces(ps) == FileLoop(ps[..j])
  {
    FileLoopPrefixError(ps, j, |ps| - 1);
  }

  /** A failing piece fails every longer run of the loop the same way. */
  lemma {:induction false} FileLoopPrefixError(ps: seq<Piece>, n: nat, m: nat)
    requires n <= m <= |ps| && FileLoop(ps[..n]).Err?
    ensures FileLoop(ps[..m]) == FileLoop(ps[..n])
    decreases m - n
  {
    if n < m {
      assert ps[..n + 1][..n] == ps[..n];
      FileLoopPrefixError(ps, n + 1, m);
    }
  }

  // ---------------------------------------------------------------- properties

  /** A header-free source gives no routine. */
  lemma NoHeaderNoRoutine(content: string)
    requires forall i :: 0 <= i < |SourceLines(content)| ==> !IsHeader(SourceLines(content)[i])
    ensures Routines(content) == Ok([])
  {
    var lines := SourceLines(content);
    NoHeaderLines(lines);
  }

  /** A source of one line, without '*' and without ñ or Ñ, is that line. */
  lemma OneLineSource(s: string)
    requires s != [] && '\n' !in s && '*' !in s && 'ñ' !in s && 'Ñ' !in s
    ensures SourceLines(s) == [s]
  {
    assert Contains(s, "/*") ==> Contains(s, "*") by {
      if Contains(s, "/*") {
        assert "/" + "*" + "" == "/*";
        ContainsPart(s, "/", "*", "");
      }
    }
    assert Contains(s, "*/") ==> Contains(s, "*") by {
      if Contains(s, "*/") {
        assert "" + "*" + "/" == "*/";
        ContainsPart(s, "", "*", "/");
      }
    }
    ContainsChar(s, '*');
    RemoveCommentsIdentity(s);
    ContainsChar(s, '\n');
    assert Split(s, "\n") == [s];
    assert NonEmpty([s]) == [s];
  }

  /** A one-line source whose line is a header with BEGIN is one routine,
      filed under the header's name with the trimmed line as its body. */
  lemma OneLineRoutine(s: string)
    requires s != [] && '\n' !in s && '*' !in s && 'ñ' !in s && 'Ñ' !in s
    requires IsHeader(s) && Contains(s, "BEGIN")
    ensures Routines(s) == Ok([Entry(RoutineName(s), Trim(s))])
  {
    OneLineSource(s);
    hide RoutineName, Trim, CollisionSuffix, IndexOf, SourceLines, Contains;
    var lines := [s];
    assert Headers(lines) == [0] by {
      assert lines[..0] == [];
    }
    var p := PieceOf(lines, 0, 1);
    assert p == Piece(RoutineName(s), CollisionSuffix(s), Trim(s), Contains(s, "BEGIN")) by {
      assert lines[0..1] == [s];
    }
    var ps := Pieces(lines, [0]);
    assert ps == [p];
    var d: seq<Entry<string>> := [];
    assert FileLoop(ps[..0]) == Ok(d) by {
      assert ps[..0] == [];
    }
    assert p.hasBegin && p.name !in Keys(d);
    assert d + [Entry(p.name, p.body)] == [Entry(RoutineName(s), Trim(s))];
  }

  /** A one-line source whose line is not a header gives no routine. */
  lemma OneLineNoRoutine(s: string)
    requires s != [] && '\n' !in s && '*' !in s && 'ñ' !in s && 'Ñ' !in s
    requires !IsHeader(s)
    ensures Routines(s) == Ok([])
  {
    OneLineSource(s);
    NoHeaderNoRoutine(s);
  }

  lemma TrailingSpaceIsHeader()
    ensures IsHeader("x BEGIN FUNCTION ")
  {
    hide IndexOf;
    assert OccursAt("x BEGIN FUNCTION ", "FUNCTION ", 8);
  }

  lemma TrailingSpaceHasBegin()
    ensures Contains("x BEGIN FUNCTION ", "BEGIN")
  {
    hide IndexOf;
    assert OccursAt("x BEGIN FUNCTION ", "BEGIN", 2);
  }

  lemma TrailingSpaceTrim()
    ensures Trim("x BEGIN FUNCTION ") == "x BEGIN FUNCTION"
  {
    var s := "x BEGIN FUNCTION ";
    hide Trim;
    assert IsWhiteSpace(s[16]) && !IsWhiteSpace(s[0]) && !IsWhiteSpace(s[15]);
    TrimSliceUnique(s, 0, 16);
    assert s[0..16] == "x BEGIN FUNCTION";
  }

  /** The source "x BEGIN FUNCTION " is one routine, with the body
      "x BEGIN FUNCTION". */
  lemma TrailingSpaceHeaderRoutine()
    ensures Routines("x BEGIN FUNCTION ") == Ok([Entry(RoutineName("x BEGIN FUNCTION "), "x BEGIN FUNCTION")])
  {
    var s := "x BEGIN FUNCTION ";
    TrailingSpaceIsHeader();
    TrailingSpaceHasBegin();
    TrailingSpaceTrim();
    hide Routines, RoutineName, Trim, IndexOf, IsHeader, Contains;
    assert '\n' !in s && '*' !in s && 'ñ' !in s && 'Ñ' !in s;
    OneLineRoutine(s);
  }

  lemma TrimmedBodyNoFunction()
    ensures !Contains("x BEGIN FUNCTION", "FUNCTION ")
  {
    var s := "x BEGIN FUNCTION";
    hide IndexOf;
    forall j ensures !OccursAt(s, "FUNCTION ", j) {
      if 0 <= j && j + 9 <= |s| {
        assert s[j..j + 9][8] == s[j + 8] != ' ';
      }
    }
  }

  lemma TrimmedBodyNoProcedure()
    ensures !Contains("x BEGIN FUNCTION", "PROCEDURE ")
  {
    var s := "x BEGIN FUNCTION";
    hide IndexOf;
    forall j ensures !OccursAt(s, "PROCEDURE ", j) {
      if 0 <= j && j + 10 <= |s| {
        assert s[j..j + 10][9] == s[j + 9] != ' ';
      }
    }
  }

  /** Segmenting the body "x BEGIN FUNCTION" again gives no routine: trimmed,
      its only line has lost the space after FUNCTION. */
  lemma TrimmedBodyHeaderless()
    ensures Routines("x BEGIN FUNCTION") == Ok([])
  {
    var s := "x BEGIN FUNCTION";
    TrimmedBodyNoFunction();
    TrimmedBodyNoProcedure();
    hide IndexOf, Routines, Contains;
    assert '\n' !in s && '*' !in s && 'ñ' !in s && 'Ñ' !in s;
    OneLineNoRoutine(s);
  }

  /** Segmenting a routine's body again need not give that routine back:
      the source "x BEGIN FUNCTION " has one routine, and its body has none. */
  lemma ResegmentLosesRoutine()
    ensures var r := Routines("x BEGIN FUNCTION ");
      r.Ok? && |r.value| == 1 && Routines(r.value[0].value) == Ok([])
  {
    TrailingSpaceHeaderRoutine();
    TrimmedBodyHeaderless();
  }

  /** What a piece carries when it is filed: a space-free lower-case name and
      suffix, and, when it has BEGIN, a trimmed body that still contains it. */
  predicate GoodPiece(p: Piece) {
    && ' ' !in p.name && IsLowerCased(p.name)
    && ' ' !in p.suffix && IsLowerCased(p.suffix)
    && (p.hasBegin ==> Contains(p.body, "BEGIN") && Trimmed(p.body))
  }

  lemma PieceOfGood(lines: seq<string>, a: nat, b: nat)
    requires a < b <= |lines|
    ensures GoodPiece(PieceOf(lines, a, b))
  {
    var segment := Segment(lines, a, b);
    if Contains(segment, "BEGIN") {
      TrimKeepsContained(segment, "BEGIN");
    }
    TrimTrimmed(segment);
  }

  lemma ConcatLowerSpaceFree(a: string, b: string)
    requires ' ' !in a && IsLowerCased(a) && ' ' !in b && IsLowerCased(b)
    ensures ' ' !in a + b && IsLowerCased(a + b)
  {
    var s := a + b;
    forall j | 0 <= j < |s| ensures s[j] != ' ' && !('A' <= s[j] <= 'Z') {
      if j < |a| {
        assert s[j] == a[j];
      } else {
        assert s[j] == b[j - |a|];
      }
    }
  }

  lemma FilePieceWellFormed(d: seq<Entry<string>>, p: Piece, inLoop: bool)
    requires WellFormed(d) && GoodPiece(p) && FilePiece(d, p, inLoop).Ok?
    ensures WellFormed(FilePiece(d, p, inLoop).value)
  {
    if p.hasBegin {
      ConcatLowerSpaceFree(p.name, p.suffix);
      var key := PieceKey(d, p, inLoop);
      var r := d + [Entry(key, p.body)];
      assert FilePiece(d, p, inLoop).value == r;
      forall i, j | 0 <= i < j < |r| ensures r[i].key != r[j].key {
        if j == |d| {
          assert r[i].key == Keys(d)[i];
        }
      }
    }
  }

  lemma {:induction false} FileLoopWellFormed(ps: seq<Piece>)
    requires forall k :: 0 <= k < |ps| ==> GoodPiece(ps[k])
    requires FileLoop(ps).Ok?
    ensures WellFormed(FileLoop(ps).value)
  {
    if |ps| > 0 {
      var init := ps[..|ps| - 1];
      assert forall k :: 0 <= k < |init| ==> init[k] == ps[k];
      FileLoopWellFormed(init);
      FilePieceWellFormed(FileLoop(init).value, ps[|ps| - 1], true);
    }
  }

  /** The routines of a package have distinct names, each without spaces and
      lower-cased, and trimmed bodies that contain BEGIN. */
  lemma RoutinesWellFormed(content: string)
    requires Routines(content).Ok?
    ensures WellFormed(Routines(content).value)
  {
    var lines := SourceLines(content);
    var idx := Headers(lines);
    var ps := Pieces(lines, idx);
    forall k | 0 <= k < |ps| ensures GoodPiece(ps[k]) {
      PieceOfGood(lines, idx[k], SegmentEnd(lines, idx, k));
    }
    if |ps| > 0 {
      var init := ps[..|ps| - 1];
      assert forall k :: 0 <= k < |init| ==> init[k] == ps[k];
      FileLoopWellFormed(init);
      FilePieceWellFormed(FileLoop(init).value, ps[|ps| - 1], false);
    }
  }

  /** The collision rules of one piece: without BEGIN it is skipped; after the
      loop a present name throws; inside the loop a present name is retried
      once with the suffix and throws only if that is present too. */
  lemma FilePieceCases(d: seq<Entry<string>>, p: Piece, inLoop: bool)
    ensures !p.hasBegin ==> FilePiece(d, p, inLoop) == Ok(d)
    ensures p.hasBegin && !inLoop ==> (FilePiece(d, p, inLoop).Ok? <==> p.name !in Keys(d))
    ensures p.hasBegin && inLoop && p.name in Keys(d) ==>
      (FilePiece(d, p, inLoop).Ok? <==> p.name + p.suffix !in Keys(d))
    ensures p.hasBegin && inLoop && p.name !in Keys(d) ==> FilePiece(d, p, inLoop).Ok?
    ensures FilePiece(d, p, inLoop).Err? ==> FilePiece(d, p, inLoop).error == Argument("Dictionary.Add")
  {
  }

  /** The bodies of the pieces that contain BEGIN, in order. */
  function BeginBodies(ps: seq<Piece>): (bodies: seq<string>)
    ensures |bodies| <= |ps|
  {
    if |ps| == 0 then []
    else BeginBodies(ps[..|ps| - 1]) + (if ps[|ps| - 1].hasBegin then [ps[|ps| - 1].body] else [])
  }

  /** The values of a dictionary, in order. */
  function EntryValues(d: seq<Entry<string>>): (vs: seq<string>)
    ensures |vs| == |d| && forall i :: 0 <= i < |d| ==> vs[i] == d[i].value
  {
    seq(|d|, i requires 0 <= i < |d| => d[i].value)
  }

  lemma FilePieceValues(d: seq<Entry<string>>, p: Piece, inLoop: bool)
    requires FilePiece(d, p, inLoop).Ok?
    ensures EntryValues(FilePiece(d, p, inLoop).value) == EntryValues(d) + (if p.hasBegin then [p.body] else [])
  {
    var r := FilePiece(d, p, inLoop).value;
    if p.hasBegin {
      assert r == d + [Entry(PieceKey(d, p, inLoop), p.body)];
      assert EntryValues(r)[|d|] == p.body;
    }
  }

  lemma {:induction false} FileLoopValues(ps: seq<Piece>)
    requires FileLoop(ps).Ok?
    ensures EntryValues(FileLoop(ps).value) == BeginBodies(ps)
  {
    if |ps| > 0 {
      FileLoopValues(ps[..|ps| - 1]);
      FilePieceValues(FileLoop(ps[..|ps| - 1]).value, ps[|ps| - 1], true);
    }
  }

  /** A successful extraction keeps exactly the segments that contain BEGIN,
      trimmed, in file order: none is lost and none is merged. */
  lemma RoutinesBodies(content: string)
    requires Routines(content).Ok?
    ensures var lines := SourceLines(content);
      EntryValues(Routines(content).value) == BeginBodies(Pieces(lines, Headers(lines)))
  {
    var lines := SourceLines(content);
    var ps := Pieces(lines, Headers(lines));
    if |ps| > 0 {
      FileLoopValues(ps[..|ps| - 1]);
      FilePieceValues(FileLoop(ps[..|ps| - 1]).value, ps[|ps| - 1], false);
    }
  }
}
