/** Utils.cs: the clean-up of comments applied to every input file, and the
    removal of empty lines applied to every stored script. */
module TextUtils {
  import opened Wrappers
  import opened Strings

  predicate IsLineBreak(c: char) {
    c == '\r' || c == '\n'
  }

  /** Index of the first CR or LF of `s`, or -1. */
  function LineBreakIndex(s: string): (r: int)
    ensures -1 <= r < |s|
    ensures r >= 0 ==> IsLineBreak(s[r]) && forall j :: 0 <= j < r ==> !IsLineBreak(s[j])
    ensures r < 0 ==> forall j :: 0 <= j < |s| ==> !IsLineBreak(s[j])
  {
    if |s| == 0 then -1
    else if IsLineBreak(s[0]) then 0
    else
      var k := LineBreakIndex(s[1..]);
      if k < 0 then -1 else k + 1
  }

  // The end of a match of the comment pattern /\*.*?\*.*?(?=\r|\n), with '.'
  // matching every character, that starts at the "/*" found at `p`: the first
  // CR or LF after the first '*' that follows the opening "/*". Both lazy
  // parts take the first position that lets the rest match, and moving the
  // first one further can only move the second one further, so the match,
  // when there is one, is this one.
  function CommentEnd(s: string, p: nat): (r: Option<nat>)
    requires OccursAt(s, "/*", p)
    ensures r.Some? ==> p + 3 <= r.value < |s| && IsLineBreak(s[r.value])
  {
    var q := IndexOf(s[p + 2..], "*");
    if q < 0 then None
    else
      var t := p + 2 + q + 1;
      var n := LineBreakIndex(s[t..]);
      if n < 0 then None else Some(t + n)
  }

  /** Regex.Replace of the comment pattern by "": every match, scanned left
      to right, is deleted and the text after it is scanned again. */
  function StripBlockComments(s: string): string
    decreases |s|
  {
    var p := IndexOf(s, "/*");
    if p < 0 then s
    else
      match CommentEnd(s, p)
      case None => s[..p + 1] + StripBlockComments(s[p + 1..])
      case Some(e) => s[..p] + StripBlockComments(s[e..])
  }

  /** Utils.RemoveComments. */
  function RemoveComments(text: string): string {
    Replace(Replace(Replace(StripBlockComments(text), "*/", ""), "ñ", "n"), "Ñ", "N")
  }

  /** Utils.RemoveEmptyLines: four single left-to-right replacement passes. */
  function RemoveEmptyLines(text: string): string {
    Replace(Replace(Replace(Replace(text, "\r\n\n", "\r\n"), "\n\n", "\n"), "\r\n\r\n", "\r\n"), "\r\n\t\r\n", "\r\n")
  }

  // ---------------------------------------------------------------- properties

  lemma ContainsChar(s: string, c: char)
    ensures Contains(s, [c]) <==> c in s
  {
    if c in s {
      var i :| 0 <= i < |s| && s[i] == c;
      assert OccursAt(s, [c], i);
    }
    if Contains(s, [c]) {
      var i := IndexOf(s, [c]);
      assert s[i..i + 1] == [c];
      assert s[i] == c;
    }
  }

  /** A text that contains a pattern contains every part of it. */
  lemma ContainsPart(s: string, a: string, b: string, c: string)
    requires Contains(s, a + b + c)
    ensures Contains(s, b)
  {
    hide IndexOf;
    var p := a + b + c;
    var i := IndexOf(s, p);
    assert 0 <= i && i + |p| <= |s| && s[i..i + |p|] == p;
    assert forall j :: 0 <= j < |b| ==> s[i + |a| + j] == s[i..i + |p|][|a| + j] == p[|a| + j] == b[j];
    assert s[i + |a|..i + |a| + |b|] == b;
    assert OccursAt(s, b, i + |a|);
  }

  /** RemoveComments leaves no 'ñ' and no 'Ñ'. */
  lemma RemoveCommentsNoEnye(text: string)
    ensures 'ñ' !in RemoveComments(text) && 'Ñ' !in RemoveComments(text)
  {
    var a := Replace(StripBlockComments(text), "*/", "");
    var b := Replace(a, "ñ", "n");
    ReplaceRemovesChar(a, 'ñ', "n");
    ReplaceChars(b, "Ñ", "N", 'ñ');
    ReplaceRemovesChar(b, 'Ñ', "N");
  }

  // A text with no "/*", no "*/", no 'ñ' and no 'Ñ' is returned unchanged.
  lemma RemoveCommentsIdentity(text: string)
    requires !Contains(text, "/*") && !Contains(text, "*/")
    requires 'ñ' !in text && 'Ñ' !in text
    ensures RemoveComments(text) == text
  {
    assert StripBlockComments(text) == text;
    ReplaceAbsent(text, "*/", "");
    ContainsChar(text, 'ñ');
    ReplaceAbsent(text, "ñ", "n");
    ContainsChar(text, 'Ñ');
    ReplaceAbsent(text, "Ñ", "N");
  }

  // The first comment runs from its "/*" through the first '*' after it and
  // on up to, not including, the next CR or LF; the line break is kept and
  // scanning goes on from it.
  lemma {:induction false} StripFirstComment(pre: string, mid: string, tail: string, brk: char, rest: string)
    requires !Contains(pre + "/", "/*")
    requires '*' !in mid
    requires forall j :: 0 <= j < |tail| ==> !IsLineBreak(tail[j])
    requires IsLineBreak(brk)
    ensures StripBlockComments(pre + "/*" + mid + "*" + tail + [brk] + rest)
         == pre + StripBlockComments([brk] + rest)
  {
    var after := mid + "*" + tail + [brk] + rest;
    var s := pre + "/*" + after;
    assert s == pre + "/*" + mid + "*" + tail + [brk] + rest;
    var p := |pre|;
    FirstOpening(pre, after);
    assert s[p + 2..] == after;
    var e := CommentEndAt(s, p, mid, tail, brk, rest);
    StripAt(s, p, e);
    assert s[..p] == pre;
    assert s[e..] == [brk] + rest;
    assert StripBlockComments(s) == pre + StripBlockComments([brk] + rest);
  }

  lemma StripAt(s: string, p: nat, e: nat)
    requires IndexOf(s, "/*") == p && OccursAt(s, "/*", p) && CommentEnd(s, p) == Some(e)
    ensures StripBlockComments(s) == s[..p] + StripBlockComments(s[e..])
  {
  }

  lemma FirstOpening(pre: string, after: string)
    requires !Contains(pre + "/", "/*")
    ensures IndexOf(pre + "/*" + after, "/*") == |pre|
  {
    var s := pre + "/*" + after;
    assert OccursAt(s, "/*", |pre|);
    forall j | 0 <= j < |pre| ensures !OccursAt(s, "/*", j) {
      if OccursAt(s, "/*", j) {
        assert (pre + "/")[j..j + 2] == s[j..j + 2];
        assert OccursAt(pre + "/", "/*", j);
      }
    }
  }

  lemma CommentEndAt(s: string, p: nat, mid: string, tail: string, brk: char, rest: string) returns (e: nat)
    requires OccursAt(s, "/*", p)
    requires s[p + 2..] == mid + "*" + tail + [brk] + rest
    requires '*' !in mid
    requires forall j :: 0 <= j < |tail| ==> !IsLineBreak(tail[j])
    requires IsLineBreak(brk)
    ensures CommentEnd(s, p) == Some(e)
    ensures e == p + 2 + |mid| + 1 + |tail| && s[e..] == [brk] + rest
  {
    FirstStar(s[p + 2..], mid, tail + [brk] + rest);
    var t := p + 2 + |mid| + 1;
    assert s[t..] == tail + [brk] + rest;
    FirstBreak(s[t..], tail, brk, rest);
    e := t + |tail|;
  }

  lemma FirstStar(u: string, mid: string, after: string)
    requires u == mid + "*" + after && '*' !in mid
    ensures IndexOf(u, "*") == |mid|
  {
    assert OccursAt(u, "*", |mid|);
    forall j | 0 <= j < |mid| ensures !OccursAt(u, "*", j) {
      assert u[j] == mid[j];
    }
  }

  lemma FirstBreak(v: string, tail: string, brk: char, rest: string)
    requires v == tail + [brk] + rest && IsLineBreak(brk)
    requires forall j :: 0 <= j < |tail| ==> !IsLineBreak(tail[j])
    ensures LineBreakIndex(v) == |tail|
  {
    assert v[|tail|] == brk;
    forall j | 0 <= j < |tail| ensures !IsLineBreak(v[j]) {
      assert v[j] == tail[j];
    }
  }

  /** RemoveEmptyLines never makes its input longer. */
  lemma RemoveEmptyLinesNotLonger(text: string)
    ensures |RemoveEmptyLines(text)| <= |text|
  {
    var a := Replace(text, "\r\n\n", "\r\n");
    var b := Replace(a, "\n\n", "\n");
    var c := Replace(b, "\r\n\r\n", "\r\n");
    ReplaceNotLonger(text, "\r\n\n", "\r\n");
    ReplaceNotLonger(a, "\n\n", "\n");
    ReplaceNotLonger(b, "\r\n\r\n", "\r\n");
    ReplaceNotLonger(c, "\r\n\t\r\n", "\r\n");
  }

  /** A text with no "\n\n", no "\r\n\r\n" and no "\r\n\t\r\n" is returned unchanged. */
  lemma RemoveEmptyLinesIdentity(text: string)
    requires !Contains(text, "\n\n") && !Contains(text, "\r\n\r\n") && !Contains(text, "\r\n\t\r\n")
    ensures RemoveEmptyLines(text) == text
  {
    if Contains(text, "\r\n\n") {
      assert "\r" + "\n\n" + "" == "\r\n\n";
      ContainsPart(text, "\r", "\n\n", "");
    }
    ReplaceAbsent(text, "\r\n\n", "\r\n");
    ReplaceAbsent(text, "\n\n", "\n");
    ReplaceAbsent(text, "\r\n\r\n", "\r\n");
    ReplaceAbsent(text, "\r\n\t\r\n", "\r\n");
  }

  /** Each replacement is a single pass, so three line feeds become two, and
      a second application changes the result again. */
  lemma RemoveEmptyLinesNotIdempotent()
    ensures RemoveEmptyLines("\n\n\n") == "\n\n"
    ensures RemoveEmptyLines(RemoveEmptyLines("\n\n\n")) == "\n"
  {
    ThreeLineFeeds();
    TwoLineFeeds();
  }

  lemma ThreeLineFeeds()
    ensures RemoveEmptyLines("\n\n\n") == "\n\n"
  {
    assert IndexOf("\n\n\n", "\r\n\n") < 0 by {
      assert !OccursAt("\n\n\n", "\r\n\n", 0);
    }
    ReplaceAbsent("\n\n\n", "\r\n\n", "\r\n");
    assert Replace("\n\n\n", "\n\n", "\n") == "\n\n" by {
      assert StartsWith("\n\n\n", "\n\n");
      assert "\n\n\n"[2..] == "\n";
      assert !StartsWith("\n", "\n\n");
      assert Replace("\n", "\n\n", "\n") == "\n" + Replace("", "\n\n", "\n");
    }
    assert !OccursAt("\n\n", "\r\n\r\n", 0);
    ReplaceAbsent("\n\n", "\r\n\r\n", "\r\n");
    assert !OccursAt("\n\n", "\r\n\t\r\n", 0);
    ReplaceAbsent("\n\n", "\r\n\t\r\n", "\r\n");
  }

  lemma TwoLineFeeds()
    ensures RemoveEmptyLines("\n\n") == "\n"
  {
    assert !OccursAt("\n\n", "\r\n\n", 0) && !OccursAt("\n\n", "\r\n\n", 1);
    ReplaceAbsent("\n\n", "\r\n\n", "\r\n");
    assert Replace("\n\n", "\n\n", "\n") == "\n" by {
      assert StartsWith("\n\n", "\n\n");
      assert "\n\n"[2..] == "";
    }
    assert !OccursAt("\n", "\r\n\r\n", 0);
    ReplaceAbsent("\n", "\r\n\r\n", "\r\n");
    assert !OccursAt("\n", "\r\n\t\r\n", 0);
    ReplaceAbsent("\n", "\r\n\t\r\n", "\r\n");
  }
}
