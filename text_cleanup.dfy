/** The blank-line clean-up applied to every OCR text:
    Regex.Replace(text, "^\s+$[\r\n]*", "", RegexOptions.Multiline).

    The engine tries a match at each position from left to right. A match
    may start only at a line start (the beginning of the text or just after
    a '\n'). It consumes a run of white space that is as long as possible
    while still ending at a line end (the end of the text or just before a
    '\n'), and then every '\r' and '\n' that follows. The matched span is
    deleted and the scan resumes after it; where no match starts the
    character is kept. */
module TextCleanup {
  import opened Common

  predicate AtLineStart(s: string, p: nat)
    requires p <= |s|
  {
    p == 0 || s[p - 1] == '\n'
  }

  predicate AtLineEnd(s: string, q: nat)
    requires q <= |s|
  {
    q == |s| || s[q] == '\n'
  }

  predicate IsCrLf(c: char) { c == '\r' || c == '\n' }

  /** The end of the longest run of white space starting at p. */
  function WhiteRunEnd(s: string, p: nat): (e: nat)
    requires p <= |s|
    ensures p <= e <= |s|
    ensures forall i :: p <= i < e ==> IsWhiteSpace(s[i])
    ensures e == |s| || !IsWhiteSpace(s[e])
    decreases |s| - p
  {
    if p < |s| && IsWhiteSpace(s[p]) then WhiteRunEnd(s, p + 1) else p
  }

  /** The largest q with lo < q <= hi at a line end, if there is one: where
      the greedy \s+ stops after backtracking to satisfy $. */
  function LastLineEnd(s: string, lo: nat, hi: nat): (q: Option<nat>)
    requires lo <= hi <= |s|
    ensures q.Some? ==> lo < q.value <= hi && AtLineEnd(s, q.value)
    ensures q.Some? ==> forall k :: q.value < k <= hi ==> !AtLineEnd(s, k)
    ensures q.None? ==> forall k :: lo < k <= hi ==> !AtLineEnd(s, k)
    decreases hi
  {
    if hi <= lo then None
    else if AtLineEnd(s, hi) then Some(hi)
    else LastLineEnd(s, lo, hi - 1)
  }

  /** The end of the longest run of '\r' and '\n' starting at q. */
  function CrLfRunEnd(s: string, q: nat): (e: nat)
    requires q <= |s|
    ensures q <= e <= |s|
    ensures forall i :: q <= i < e ==> IsCrLf(s[i])
    ensures e == |s| || !IsCrLf(s[e])
    decreases |s| - q
  {
    if q < |s| && IsCrLf(s[q]) then CrLfRunEnd(s, q + 1) else q
  }

  /** The end of the match that starts at p, if one does. */
  function MatchAt(s: string, p: nat): (e: Option<nat>)
    requires p <= |s|
    ensures e.Some? ==> p < e.value <= |s|
    ensures e.Some? ==> forall i :: p <= i < e.value ==> IsWhiteSpace(s[i])
  {
    if !AtLineStart(s, p) then None
    else
      var run := WhiteRunEnd(s, p);
      match LastLineEnd(s, p, run)
      case None => None
      case Some(q) => Some(CrLfRunEnd(s, q))
  }

  /** The replacement result for the text from position p on. */
  function Scan(s: string, p: nat): (r: string)
    requires p <= |s|
    decreases |s| - p
  {
    if p == |s| then []
    else
      match MatchAt(s, p)
      case Some(e) => Scan(s, e)
      case None => [s[p]] + Scan(s, p + 1)
  }

  /** The clean-up at TesseractService.cs:112 and its copies. */
  function RemoveBlankLines(s: string): string {
    Scan(s, 0)
  }

  /** The scan only ever deletes white space: the non-white characters are
      kept, all of them, in order. */
  lemma {:induction false} ScanKeepsNonWhiteSpace(s: string, p: nat)
    requires p <= |s|
    ensures NonWhiteSpace(Scan(s, p)) == NonWhiteSpace(s[p..])
    ensures |Scan(s, p)| <= |s| - p
    decreases |s| - p
  {
    if p < |s| {
      var m := MatchAt(s, p);
      if m.Some? {
        var e := m.value;
        ScanKeepsNonWhiteSpace(s, e);
        SkipMatch(s, p, e);
      } else {
        ScanKeepsNonWhiteSpace(s, p + 1);
        KeepCharacter(s, p);
      }
    }
  }

  /** Where a match deletes s[p..e], the rest of the scan is the scan from e,
      and the deleted span holds nothing but white space. */
  lemma SkipMatch(s: string, p: nat, e: nat)
    requires p < |s| && MatchAt(s, p) == Some(e)
    ensures Scan(s, p) == Scan(s, e)
    ensures NonWhiteSpace(s[p..]) == NonWhiteSpace(s[e..])
  {
    DropBlank(s, p, e);
  }

  /** Dropping a span of white space leaves the non-white characters alone. */
  lemma DropBlank(s: string, p: nat, e: nat)
    requires p <= e <= |s|
    requires forall i :: p <= i < e ==> IsWhiteSpace(s[i])
    ensures NonWhiteSpace(s[p..]) == NonWhiteSpace(s[e..])
  {
    var blank := s[p..e];
    assert s[p..] == blank + s[e..];
    NonWhiteSpaceAppend(blank, s[e..]);
    assert forall i :: 0 <= i < |blank| ==> IsWhiteSpace(blank[i]) by {
      forall i | 0 <= i < |blank| ensures IsWhiteSpace(blank[i]) {
        assert blank[i] == s[p + i];
      }
    }
    NonWhiteSpaceOfBlank(blank);
  }

  /** Where no match starts at p, the character at p is kept. */
  lemma KeepCharacter(s: string, p: nat)
    requires p < |s| && MatchAt(s, p).None?
    ensures Scan(s, p) == [s[p]] + Scan(s, p + 1)
    ensures NonWhiteSpace(Scan(s, p)) == NonWhiteSpace([s[p]]) + NonWhiteSpace(Scan(s, p + 1))
    ensures NonWhiteSpace(s[p..]) == NonWhiteSpace([s[p]]) + NonWhiteSpace(s[p + 1..])
  {
    assert s[p..] == [s[p]] + s[p + 1..];
    NonWhiteSpaceAppend([s[p]], s[p + 1..]);
    NonWhiteSpaceAppend([s[p]], Scan(s, p + 1));
  }

  lemma KeepsNonWhiteSpace(s: string)
    ensures NonWhiteSpace(RemoveBlankLines(s)) == NonWhiteSpace(s)
    ensures |RemoveBlankLines(s)| <= |s|
  {
    ScanKeepsNonWhiteSpace(s, 0);
    assert s[0..] == s;
  }

  /** Text without any white space passes through unchanged. */
  lemma {:induction false} ScanWithoutWhiteSpace(s: string, p: nat)
    requires p <= |s|
    requires forall i :: 0 <= i < |s| ==> !IsWhiteSpace(s[i])
    ensures Scan(s, p) == s[p..]
    decreases |s| - p
  {
    if p < |s| {
      assert WhiteRunEnd(s, p) == p;
      ScanWithoutWhiteSpace(s, p + 1);
      assert s[p..] == [s[p]] + s[p + 1..];
    }
  }

  /** A blank line made of spaces disappears with its line break. */
  lemma SpacesLineRemoved()
    ensures RemoveBlankLines("a\n  \nb") == "a\nb"
  {
    var s := "a\n  \nb";
    assert MatchAt(s, 0) == None;
    assert MatchAt(s, 1) == None;
    assert WhiteRunEnd(s, 2) == 5;
    assert LastLineEnd(s, 2, 5) == Some(4);
    assert CrLfRunEnd(s, 4) == 5;
    assert MatchAt(s, 2) == Some(5);
    assert MatchAt(s, 5) == None;
    assert Scan(s, 5) == "b";
  }

  /** Two empty lines in a row go away. */
  lemma TwoEmptyLinesRemoved()
    ensures RemoveBlankLines("a\n\n\nb") == "a\nb"
  {
    var s := "a\n\n\nb";
    assert MatchAt(s, 0) == None;
    assert MatchAt(s, 1) == None;
    assert WhiteRunEnd(s, 2) == 4;
    assert LastLineEnd(s, 2, 4) == Some(3);
    assert CrLfRunEnd(s, 3) == 4;
    assert MatchAt(s, 2) == Some(4);
    assert MatchAt(s, 4) == None;
    assert Scan(s, 4) == "b";
  }

  /** A single empty line between two lines survives: its '\n' is the only
      white space there and the match would have to end before it. */
  lemma LoneEmptyLineKept()
    ensures RemoveBlankLines("a\n\nb") == "a\n\nb"
  {
    var s := "a\n\nb";
    assert MatchAt(s, 0) == None;
    assert MatchAt(s, 1) == None;
    assert WhiteRunEnd(s, 2) == 3;
    assert LastLineEnd(s, 2, 3) == None;
    assert MatchAt(s, 2) == None;
    assert MatchAt(s, 3) == None;
    assert Scan(s, 3) == "b";
  }
}
