/** Tailing one growing file: an incremental reader that must agree with reading the file. */
module FileTail {
  import opened Options
  import opened StableSort

  // ---- lines ------------------------------------------------------------------

  /** Where `str.splitlines` breaks text that was read with universal newlines. */
  predicate IsBreak(c: char) {
    c in {'\n', '\U{000B}', '\U{000C}', '\U{001C}', '\U{001D}', '\U{001E}', '\U{0085}', '\U{2028}', '\U{2029}'}
  }

  /** Where `readlines` breaks it. */
  predicate IsNewline(c: char) { c == '\n' }

  function Piece(s: string): seq<string> {
    if s == "" then [] else [s]
  }

  /** The finished non-empty lines of a text, and the line it is in the middle of. */
  function Scan(s: string, brk: char -> bool): (seq<string>, string) {
    if s == "" then ([], "") else
      var (done, cur) := Scan(s[..|s| - 1], brk);
      var c := s[|s| - 1];
      if brk(c) then (done + Piece(cur), "") else (done, cur + [c])
  }

  /** The non-empty lines of a text. */
  function Lines(s: string, brk: char -> bool): seq<string> {
    var (done, cur) := Scan(s, brk);
    done + Piece(cur)
  }

  predicate AtLineEnd(s: string, brk: char -> bool) {
    s == "" || brk(s[|s| - 1])
  }

  lemma CutSnoc(a: string, b: string)
    requires b != ""
    ensures (a + b)[..|a + b| - 1] == a + b[..|b| - 1] && (a + b)[|a + b| - 1] == b[|b| - 1]
  {
  }

  /** Scanning on from a line end. */
  lemma {:induction false} ScanFromLineEnd(a: string, b: string, brk: char -> bool)
    requires Scan(a, brk).1 == ""
    ensures Scan(a + b, brk) == (Scan(a, brk).0 + Scan(b, brk).0, Scan(b, brk).1)
  {
    if b == "" {
      assert a + b == a && Scan(a, brk).0 + [] == Scan(a, brk).0;
    } else {
      CutSnoc(a, b);
      ScanFromLineEnd(a, b[..|b| - 1], brk);
      var done := Scan(a, brk).0;
      var (doneB, curB) := Scan(b[..|b| - 1], brk);
      assert done + doneB + Piece(curB) == done + (doneB + Piece(curB));
    }
  }

  ghost predicate NoBreak(s: string, brk: char -> bool) {
    forall j :: 0 <= j < |s| ==> !brk(s[j])
  }

  lemma {:induction false} ScanOpenLine(a: string, b: string, brk: char -> bool)
    requires NoBreak(b, brk)
    ensures Scan(a + b, brk) == (Scan(a, brk).0, Scan(a, brk).1 + b)
  {
    if b == "" {
      assert a + b == a && Scan(a, brk).1 + b == Scan(a, brk).1;
    } else {
      CutSnoc(a, b);
      var front, c := b[..|b| - 1], b[|b| - 1];
      ScanOpenLine(a, front, brk);
      assert b == front + [c];
      ConcatAssociates(Scan(a, brk).1, front, [c]);
    }
  }

  /** The first break of `b` ends the line that `a` left unfinished. */
  lemma ScanFirstBreak(a: string, front: string, c: char, brk: char -> bool)
    requires NoBreak(front, brk) && brk(c) && Scan(a, brk).1 != ""
    ensures Scan(a + (front + [c]), brk) == (Scan(a, brk).0 + [Scan(a, brk).1 + front], "")
    ensures Scan(front + [c], brk) == (Piece(front), "")
  {
    CutSnoc(a, front + [c]);
    assert (front + [c])[..|front|] == front;
    ScanOpenLine(a, front, brk);
    ScanOpenLine("", front, brk);
    assert "" + front == front && [] + Piece(front) == Piece(front);
  }

  /** Scanning on from inside a line, past a break. */
  lemma {:induction false} ScanFromInside(a: string, b: string, brk: char -> bool)
    requires Scan(a, brk).1 != "" && !NoBreak(b, brk)
    ensures Scan(a + b, brk).1 == Scan(b, brk).1
    ensures brk(b[0]) ==> Scan(a + b, brk).0 == Scan(a, brk).0 + [Scan(a, brk).1] + Scan(b, brk).0
    ensures !brk(b[0]) ==> |Scan(a + b, brk).0| == |Scan(a, brk).0| + |Scan(b, brk).0|
  {
    CutSnoc(a, b);
    var front, c := b[..|b| - 1], b[|b| - 1];
    assert b == front + [c];
    if NoBreak(front, brk) {
      ScanFirstBreak(a, front, c, brk);
      if front == "" { assert Scan(a, brk).1 + front == Scan(a, brk).1; } else { assert front[0] == b[0]; }
    } else {
      assert front[0] == b[0];
      ScanFromInside(a, front, brk);
      ConcatAssociates(Scan(a, brk).0 + [Scan(a, brk).1], Scan(front, brk).0, Piece(Scan(front, brk).1));
    }
  }

  lemma UnfinishedLine(s: string, brk: char -> bool)
    ensures AtLineEnd(s, brk) <==> Scan(s, brk).1 == ""
  {
  }

  /** A reader that stops at `a` and resumes with `b` returns the lines of the whole text
      exactly when it did not stop inside a line; otherwise it makes one line into two. */
  lemma CutIsHarmlessIff(a: string, b: string, brk: char -> bool)
    ensures Lines(a + b, brk) == Lines(a, brk) + Lines(b, brk) <==> AtLineEnd(a, brk) || b == "" || brk(b[0])
    ensures !(AtLineEnd(a, brk) || b == "" || brk(b[0])) ==>
              |Lines(a + b, brk)| + 1 == |Lines(a, brk)| + |Lines(b, brk)|
  {
    UnfinishedLine(a, brk);
    var (done, cur) := Scan(a, brk);
    var (doneB, curB) := Scan(b, brk);
    if AtLineEnd(a, brk) {
      ScanFromLineEnd(a, b, brk);
      assert done + doneB + Piece(curB) == done + Piece(cur) + (doneB + Piece(curB));
    } else {
      if NoBreak(b, brk) {
        ScanOpenLine(a, b, brk);
        ScanOpenLine("", b, brk);
        assert "" + b == b;
        if b == "" { assert a + b == a && Lines(b, brk) == []; }
      } else {
        ScanFromInside(a, b, brk);
      }
      if b != "" && brk(b[0]) {
        assert done + [cur] + doneB + Piece(curB) == done + Piece(cur) + (doneB + Piece(curB));
      }
    }
  }

  function Total(lines: seq<string>): nat {
    if lines == [] then 0 else Total(lines[..|lines| - 1]) + |lines[|lines| - 1]|
  }

  lemma TotalSnoc(lines: seq<string>, l: string)
    ensures Total(lines + Piece(l)) == Total(lines) + |l|
  {
    if l == "" { assert lines + Piece(l) == lines; } else { assert (lines + [l])[..|lines|] == lines; }
  }

  function TextCount(s: string, brk: char -> bool): nat {
    if s == "" then 0 else TextCount(s[..|s| - 1], brk) + if brk(s[|s| - 1]) then 0 else 1
  }

  lemma {:induction false} TextCountCut(a: string, b: string, brk: char -> bool)
    ensures TextCount(a + b, brk) == TextCount(a, brk) + TextCount(b, brk)
  {
    if b == "" {
      assert a + b == a;
    } else {
      CutSnoc(a, b);
      TextCountCut(a, b[..|b| - 1], brk);
    }
  }

  lemma {:induction false} NoTextIffAllBreaks(s: string, brk: char -> bool)
    ensures TextCount(s, brk) == 0 <==> forall c :: c in s ==> brk(c)
    ensures TextCount(s, brk) == 0 ==> Scan(s, brk) == ([], "")
  {
    if s != "" {
      NoTextIffAllBreaks(s[..|s| - 1], brk);
      assert s == s[..|s| - 1] + [s[|s| - 1]];
      assert [] + Piece("") == [];
    }
  }

  /** No character is lost or invented: together the lines hold every character that is no break. */
  lemma {:induction false} LinesHoldAllText(s: string, brk: char -> bool)
    ensures Total(Lines(s, brk)) == TextCount(s, brk)
    ensures Total(Scan(s, brk).0) + |Scan(s, brk).1| == TextCount(s, brk)
  {
    if s != "" {
      LinesHoldAllText(s[..|s| - 1], brk);
      var (done, cur) := Scan(s[..|s| - 1], brk);
      TotalSnoc(done, cur);
    }
    TotalSnoc(Scan(s, brk).0, Scan(s, brk).1);
  }

  /** `s[p..q]` is a longest non-empty stretch without a break. */
  ghost predicate IsPiece(s: string, p: nat, q: nat, brk: char -> bool) {
    && p < q <= |s| && NoBreak(s[p..q], brk)
    && (p == 0 || brk(s[p - 1])) && (q == |s| || brk(s[q]))
  }

  /** How many such stretches begin in `s`. */
  function Pieces(s: string, brk: char -> bool): nat {
    if s == "" then 0 else
      var n := |s| - 1;
      Pieces(s[..n], brk) + if !brk(s[n]) && (n == 0 || brk(s[n - 1])) then 1 else 0
  }

  lemma {:induction false} LinesAreCounted(s: string, brk: char -> bool)
    ensures |Lines(s, brk)| == Pieces(s, brk)
  {
    if s != "" {
      var front := s[..|s| - 1];
      LinesAreCounted(front, brk);
      UnfinishedLine(front, brk);
    }
  }

  lemma LineOfPiece(s: string, brk: char -> bool)
    requires s != "" && NoBreak(s, brk)
    ensures Lines(s, brk) == [s]
  {
    ScanOpenLine("", s, brk);
    assert "" + s == s;
  }

  lemma PieceIsLine(a: string, piece: string, rest: string, brk: char -> bool)
    requires AtLineEnd(a, brk) && piece != "" && NoBreak(piece, brk) && (rest == "" || brk(rest[0]))
    ensures Lines(a + (piece + rest), brk) == Lines(a, brk) + ([piece] + Lines(rest, brk))
  {
    hide Lines, NoBreak;
    CutIsHarmlessIff(a, piece + rest, brk);
    CutIsHarmlessIff(piece, rest, brk);
    LineOfPiece(piece, brk);
  }

  lemma CutAround(s: string, p: nat, q: nat)
    requires p < q <= |s|
    ensures s == s[..p] + (s[p..q] + s[q..]) && s[p..q] != ""
    ensures p > 0 ==> s[..p] != "" && s[..p][|s[..p]| - 1] == s[p - 1]
    ensures q < |s| ==> s[q..][0] == s[q]
  {
  }

  /** The lines of a text are exactly its longest stretches without a break, in order and unchanged: the stretch at
      `p` is the line with as many lines before it as stretches begin before `p`, and there are no others. */
  lemma LinesArePieces(s: string, p: nat, q: nat, brk: char -> bool)
    requires IsPiece(s, p, q, brk)
    ensures |Lines(s, brk)| == Pieces(s, brk)
    ensures Pieces(s[..p], brk) < Pieces(s, brk) && Lines(s, brk)[Pieces(s[..p], brk)] == s[p..q]
  {
    CutAround(s, p, q);
    hide Lines, Pieces, NoBreak;
    LinesAreCounted(s, brk);
    LinesAreCounted(s[..p], brk);
    PieceIsLine(s[..p], s[p..q], s[q..], brk);
  }

  /** Lines end where `str.splitlines` and `readlines` end them: line feed, vertical tab, form feed, the file, group
      and record separators, next line, and the line and paragraph separators; and at line feeds only. */
  lemma BreakCharacters(c: char)
    ensures IsBreak(c) <==> c as int in {10, 11, 12, 28, 29, 30, 133, 8232, 8233}
    ensures IsNewline(c) <==> c as int == 10
  {
  }

  // ---- the tailer ---------------------------------------------------------------

  datatype Tail = Tail(pos: nat, buffer: seq<string>)

  function LastLines(file: Option<string>, n: int): seq<string> {
    if n <= 0 || file.None? then [] else
      var lines := Lines(file.value, IsNewline);
      if n < |lines| then lines[|lines| - n..] else lines
  }

  function Created(file: Option<string>, initialTail: int): Tail {
    Tail(if file.Some? then |file.value| else 0, LastLines(file, initialTail))
  }

  /** One poll: the new state and the lines returned. `file` is the text on disk, absent when missing. */
  function Poll(t: Tail, file: Option<string>): (Tail, seq<string>) {
    if t.buffer != [] then (t.(buffer := []), t.buffer)
    else if file.None? then (t, [])
    else
      var from := if |file.value| < t.pos then 0 else t.pos;
      (t.(pos := |file.value|), Lines(file.value[from..], IsBreak))
  }

  /** The class that polls, position and buffer updated in place. */
  class FileTailer {
    var pos: nat
    var initialBuffer: seq<string>

    function View(): Tail
      reads this
    {
      Tail(pos, initialBuffer)
    }

    constructor (file: Option<string>, initialTail: int)
      ensures View() == Created(file, initialTail)
    {
      pos := if file.Some? then |file.value| else 0;
      initialBuffer := if initialTail > 0 then LastLines(file, initialTail) else [];
    }

    method ReadNewLines(file: Option<string>) returns (lines: seq<string>)
      modifies this
      ensures (View(), lines) == Poll(old(View()), file)
    {
      if initialBuffer != [] {
        lines := initialBuffer;
        initialBuffer := [];
        return;
      }
      if file.None? { return []; }
      var currentSize := |file.value|;
      if currentSize < pos { pos := 0; }
      if currentSize == pos {
        assert file.value[pos..] == "" && Lines("", IsBreak) == [];
        return [];
      }
      var raw := file.value[pos..];
      pos := currentSize;
      lines := Lines(raw, IsBreak);
    }
  }

  /** The lines buffered at construction are the last ones of the file, as many as asked for and available. */
  lemma LastLinesAreLast(text: string, n: int)
    ensures var all, last := Lines(text, IsNewline), LastLines(Some(text), n);
            && |last| <= |all| && |last| == (if n <= 0 then 0 else if n <= |all| then n else |all|)
            && forall i :: 0 <= i < |last| ==> last[i] == all[|all| - |last| + i]
  {
  }

  /** A file that is missing at construction is tailed like one that was empty then. */
  lemma MissingIsEmpty(initialTail: int)
    ensures Created(None, initialTail) == Created(Some(""), initialTail) == Tail(0, [])
  {
  }

  // ---- runs of polls ------------------------------------------------------------------

  function After(t: Tail, files: seq<Option<string>>): Tail {
    if files == [] then t else Poll(After(t, files[..|files| - 1]), files[|files| - 1]).0
  }

  function Returned(t: Tail, files: seq<Option<string>>): seq<string> {
    if files == [] then [] else
      var n := |files| - 1;
      Returned(t, files[..n]) + Poll(After(t, files[..n]), files[n]).1
  }

  /** The newest text any poll has read; the poll that hands out the buffer reads nothing. */
  function Seen(start: string, files: seq<Option<string>>, buffered: bool): string {
    var n := |files| - 1;
    if files == [] || (n == 0 && buffered) then start
    else if files[n].Some? then files[n].value
    else Seen(start, files[..n], buffered)
  }

  /** The file only grows: whatever a poll finds extends what was found before. */
  ghost predicate Grows(start: string, files: seq<Option<string>>) {
    && (forall i :: 0 <= i < |files| && files[i].Some? ==> start <= files[i].value)
    && (forall i, j :: 0 <= i < j < |files| && files[i].Some? && files[j].Some? ==> files[i].value <= files[j].value)
  }

  function Rest(s: string, n: nat): string {
    if n <= |s| then s[n..] else ""
  }

  /** Reading `a` and then `b` breaks a line in two. */
  predicate CutsLine(a: string, b: string) {
    !AtLineEnd(a, IsBreak) && b != "" && !IsBreak(b[0])
  }

  /** How many of the reads after the first go on inside a line that the read before had to stop in. */
  function LineCuts(start: string, files: seq<Option<string>>, buffered: bool): nat {
    if files == [] then 0 else
      var front := files[..|files| - 1];
      var before, now := Seen(start, front, buffered), Seen(start, files, buffered);
      LineCuts(start, front, buffered) + if CutsLine(Rest(before, |start|), Rest(now, |before|)) then 1 else 0
  }

  lemma {:induction false} SeenGrows(start: string, files: seq<Option<string>>, buffered: bool)
    requires Grows(start, files)
    ensures var seen := Seen(start, files, buffered);
            start <= seen && (seen == start || exists i :: 0 <= i < |files| && files[i] == Some(seen))
  {
    var n := |files| - 1;
    if !(files == [] || (n == 0 && buffered)) {
      if files[n].None? {
        SeenGrows(start, files[..n], buffered);
        var seen := Seen(start, files[..n], buffered);
        if seen != start { var i :| 0 <= i < n && files[..n][i] == Some(seen); assert files[i] == Some(seen); }
      } else {
        assert files[n] == Some(Seen(start, files, buffered));
      }
    }
  }

  lemma SeenStep(start: string, files: seq<Option<string>>, buffered: bool)
    requires Grows(start, files) && files != []
    ensures var front, last := files[..|files| - 1], files[|files| - 1];
            && Grows(start, front)
            && start <= Seen(start, front, buffered) <= Seen(start, files, buffered)
            && (|files| > 1 ==> Seen(start, files, buffered) ==
                                if last.Some? then last.value else Seen(start, front, buffered))
  {
    var n := |files| - 1;
    var before := Seen(start, files[..n], buffered);
    SeenGrows(start, files, buffered);
    SeenGrows(start, files[..n], buffered);
    if before != start {
      var i :| 0 <= i < n && files[..n][i] == Some(before);
      assert files[i] == Some(before);
    }
  }

  lemma PollReadsNew(t: Tail, file: Option<string>)
    requires t.buffer == [] && (file.Some? ==> t.pos <= |file.value|)
    ensures Poll(t, file) ==
            if file.None? then (t, []) else (Tail(|file.value|, []), Lines(file.value[t.pos..], IsBreak))
  {
  }

  lemma NothingNew(s: string)
    ensures Rest(s, |s|) == "" && Lines("", IsBreak) == []
  {
  }

  lemma FirstPoll(start: string, initialTail: int, file: Option<string>)
    requires file.Some? ==> start <= file.value
    ensures var t := Created(Some(start), initialTail); var seen := Seen(start, [file], t.buffer != []);
            && start <= seen && LineCuts(start, [file], t.buffer != []) == 0
            && Returned(t, [file]) == LastLines(Some(start), initialTail) + Lines(Rest(seen, |start|), IsBreak)
            && After(t, [file]) == Tail(|seen|, [])
  {
    var t := Created(Some(start), initialTail);
    assert [file][..0] == [] && After(t, []) == t && Returned(t, []) == [];
    NothingNew(start);
    assert Returned(t, [file]) == Poll(t, file).1;
  }

  /** What one more read adds to the lines: those of the new text, one too many if it goes on inside a line. */
  lemma LinesOfGrowth(start: string, before: string, now: string)
    requires start <= before <= now
    ensures var a, b, all := Rest(before, |start|), Rest(now, |before|), Rest(now, |start|);
            && (!CutsLine(a, b) ==> Lines(all, IsBreak) == Lines(a, IsBreak) + Lines(b, IsBreak))
            && (CutsLine(a, b) ==> |Lines(all, IsBreak)| + 1 == |Lines(a, IsBreak)| + |Lines(b, IsBreak)|)
  {
    assert now[|start|..] == before[|start|..] + now[|before|..];
    CutIsHarmlessIff(before[|start|..], now[|before|..], IsBreak);
  }

  /** Over any polls of a growing file: the lines returned are the last `initialTail` non-empty lines present
      at construction and then every non-empty line written since, up to the newest text read, exactly
      when no read had to stop inside a line; every read that did gives exactly one line too many. */
  lemma {:induction false} TailingIsExactIff(start: string, initialTail: int, files: seq<Option<string>>)
    requires Grows(start, files) && files != []
    ensures var t := Created(Some(start), initialTail);
            var seen, cuts := Seen(start, files, t.buffer != []), LineCuts(start, files, t.buffer != []);
            var first, later := LastLines(Some(start), initialTail), Lines(Rest(seen, |start|), IsBreak);
            && start <= seen && After(t, files) == Tail(|seen|, [])
            && |Returned(t, files)| == |first| + |later| + cuts
            && (Returned(t, files) == first + later <==> cuts == 0)
  {
    var t, n := Created(Some(start), initialTail), |files| - 1;
    var front, buffered := files[..n], t.buffer != [];
    SeenStep(start, files, buffered);
    if n == 0 {
      assert files == [files[0]];
      FirstPoll(start, initialTail, files[0]);
    } else {
      TailingIsExactIff(start, initialTail, front);
      var before, seen := Seen(start, front, buffered), Seen(start, files, buffered);
      PollReadsNew(After(t, front), files[n]);
      NothingNew(seen);
      LinesOfGrowth(start, before, seen);
      assert Poll(After(t, front), files[n]).1 == Lines(Rest(seen, |before|), IsBreak);
      ConcatAssociates(LastLines(Some(start), initialTail), Lines(Rest(before, |start|), IsBreak),
                       Lines(Rest(seen, |before|), IsBreak));
    }
  }

  /** Every poll that finds the file sees it end at a line end. */
  ghost predicate WholeLines(files: seq<Option<string>>) {
    forall i :: 0 <= i < |files| && files[i].Some? ==> AtLineEnd(files[i].value, IsBreak)
  }

  lemma {:induction false} WholeLinesCutNone(start: string, files: seq<Option<string>>, buffered: bool)
    requires Grows(start, files) && WholeLines(files)
    ensures LineCuts(start, files, buffered) == 0
  {
    if files != [] {
      hide Seen, AtLineEnd;
      var front := files[..|files| - 1];
      SeenStep(start, files, buffered);
      SeenGrows(start, front, buffered);
      WholeLinesCutNone(start, front, buffered);
      var before := Seen(start, front, buffered);
      if before != start {
        var i :| 0 <= i < |front| && front[i] == Some(before);
        assert files[i] == Some(before);
        RestAtLineEnd(start, before);
      }
    }
  }

  lemma RestAtLineEnd(start: string, s: string)
    requires start <= s && AtLineEnd(s, IsBreak)
    ensures AtLineEnd(Rest(s, |start|), IsBreak)
  {
    if |start| < |s| { assert Rest(s, |start|)[|s| - |start| - 1] == s[|s| - 1]; }
  }

  /** Exact tailing: when every poll sees the file at a line end, no line is missed, repeated or broken. */
  lemma TailingIsExact(start: string, initialTail: int, files: seq<Option<string>>)
    requires Grows(start, files) && WholeLines(files) && files != []
    ensures var t := Created(Some(start), initialTail); var seen := Seen(start, files, t.buffer != []);
            Returned(t, files) == LastLines(Some(start), initialTail) + Lines(Rest(seen, |start|), IsBreak)
  {
    TailingIsExactIff(start, initialTail, files);
    WholeLinesCutNone(start, files, Created(Some(start), initialTail).buffer != []);
  }

  /** It happens: a poll that finds "a" before "b\\n" is written returns the line "ab" in two parts. */
  lemma HalfLineIsBroken(files: seq<Option<string>>)
    requires files == [Some("a"), Some("ab\n")]
    ensures LineCuts("", files, false) == 1
    ensures Returned(Created(Some(""), 0), files) != LastLines(Some(""), 0) + Lines(Rest("ab\n", 0), IsBreak)
  {
    var one := files[..1];
    assert one == [Some("a")] && one[..0] == [];
    assert Seen("", one, false) == "a" && Seen("", files, false) == "ab\n";
    assert LineCuts("", one, false) == 0;
    assert Rest("a", 0) == "a" && Rest("ab\n", 1) == "b\n" && "b\n"[0] == 'b' && "a"[0] == 'a';
    assert CutsLine("a", "b\n");
    TailingIsExactIff("", 0, files);
  }

  // ---- rotation -------------------------------------------------------------------------

  /** A file that has shrunk below the position is read from its beginning. */
  lemma ShrunkFileIsReread(t: Tail, file: string)
    requires t.buffer == [] && |file| < t.pos
    ensures Poll(t, Some(file)) == (Tail(|file|, []), Lines(file, IsBreak))
  {
    assert file[0..] == file;
  }

  /** When a new file takes the place of the old one, even after polls that found no file at all, its
      lines are returned in full exactly if it is shorter than the old position or its first
      `pos` characters hold no text. */
  lemma ReplacedFileIsReadInFullIff(t: Tail, missing: seq<Option<string>>, file: string)
    requires t.buffer == [] && forall i :: 0 <= i < |missing| ==> missing[i].None?
    ensures Poll(After(t, missing), Some(file)).1 == Lines(file, IsBreak) <==>
            |file| < t.pos || forall c :: c in file[..t.pos] ==> IsBreak(c)
  {
    MissingChangesNothing(t, missing);
    if |file| < t.pos {
      ShrunkFileIsReread(t, file);
    } else {
      assert file == file[..t.pos] + file[t.pos..];
      LinesOfTailIff(file[..t.pos], file[t.pos..], IsBreak);
    }
  }

  /** So a missing file does not reset the position: a file that was gone for a poll and is back at its
      old length or longer, with text where the old one was, is not read in full. */
  lemma MissingFileKeepsPosition(t: Tail, file: string)
    requires t.buffer == [] && 0 < t.pos <= |file| && !IsBreak(file[0])
    ensures Poll(Poll(t, None).0, Some(file)).1 != Lines(file, IsBreak)
  {
    var missing: seq<Option<string>> := [None];
    assert missing[..0] == [] && file[..t.pos][0] == file[0];
    ReplacedFileIsReadInFullIff(t, missing, file);
  }

  lemma LinesOfTailIff(head: string, rest: string, brk: char -> bool)
    ensures Lines(rest, brk) == Lines(head + rest, brk) <==> forall c :: c in head ==> brk(c)
  {
    hide Lines, Scan, Total, TextCount;
    LinesHoldAllText(head + rest, brk);
    LinesHoldAllText(rest, brk);
    TextCountCut(head, rest, brk);
    NoTextIffAllBreaks(head, brk);
    if forall c :: c in head ==> brk(c) { LinesAfterBreaks(head, rest, brk); }
  }

  lemma LinesAfterBreaks(head: string, rest: string, brk: char -> bool)
    requires Scan(head, brk) == ([], "")
    ensures Lines(head + rest, brk) == Lines(rest, brk)
  {
    ScanFromLineEnd(head, rest, brk);
    assert [] + Scan(rest, brk).0 == Scan(rest, brk).0;
  }

  lemma {:induction false} MissingChangesNothing(t: Tail, missing: seq<Option<string>>)
    requires t.buffer == [] && forall i :: 0 <= i < |missing| ==> missing[i].None?
    ensures After(t, missing) == t && Returned(t, missing) == []
  {
    if missing != [] { MissingChangesNothing(t, missing[..|missing| - 1]); }
  }
}
