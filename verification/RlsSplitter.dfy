/**
  The statement splitter of apply-rls.ts.  The source splits raw SQL text on the pattern
  ";\s*(?:\n|$)" and then drops comment lines from each chunk; it is proved to do what a
  reader expects: group lines into statements, each ended by a line whose last visible
  character is a semicolon.
 */
module RlsSplitter {
  import opened Text

  // ---- the source's way: a pattern over characters ----

  /** How many leading characters are white space. */
  function SpaceRun(s: string): (n: nat)
    ensures n <= |s| && Blank(s[..n]) && (n < |s| ==> !IsSpace(s[n]))
  {
    if s == [] || !IsSpace(s[0]) then 0 else
      var m := SpaceRun(s[1..]);
      assert s[..m + 1] == [s[0]] + s[1..][..m];
      m + 1
  }

  /** One past the last newline, or 0. */
  function AfterLastNewline(s: string): (n: nat)
    ensures n <= |s| && (n > 0 ==> s[n - 1] == '\n') && Free(s[n..], '\n')
  {
    if s == [] then 0 else
      var last := |s| - 1;
      if s[last] == '\n' then |s| else
        var n := AfterLastNewline(s[..last]);
        assert s[n..] == s[..last][n..] + [s[last]];
        n
  }

  /**
    Length of a pattern match at the start of s, or 0.  White space after the semicolon is
    taken greedily; unless it reaches the end of input, it is given back to the last newline.
   */
  function MatchLength(s: string): (n: nat)
    ensures n <= |s|
  {
    if s == [] || s[0] != ';' then 0 else
      var after := s[1..];
      var run := SpaceRun(after);
      if run == |after| then |s|
      else
        var back := AfterLastNewline(after[..run]);
        if back > 0 then 1 + back else 0
  }

  /** `split`: scan for matches from left to right. */
  function Chunks(s: string, current: string): (chunks: seq<string>)
    ensures chunks != []
    decreases |s|
  {
    if s == [] then [current]
    else
      var n := MatchLength(s);
      if n > 0 then [current] + Chunks(s[n..], "") else Chunks(s[1..], current + [s[0]])
  }

  predicate IsComment(line: string) {
    "--" <= Trim(line)
  }

  /** Comment lines exactly: two dashes, after nothing but white space. */
  lemma CommentExactly(line: string)
    ensures IsComment(line) <==> exists blank, rest :: Blank(blank) && line == blank + "--" + rest
  {
    hide IsSpace;
    var i := TrimStartShape(line);
    var k := TrimEndShape(line[i..]);
    assert Trim(line) == line[i..][..k];
    if IsComment(line) {
      assert line[i..] == "--" + line[i + 2..];
      assert line == line[..i] + "--" + line[i + 2..];
    }
    if blank, rest :| Blank(blank) && line == blank + "--" + rest {
      assert blank + "--" + rest == blank + ("--" + rest);
      TrimBlankPrefix(blank, "--" + rest);
      DashedIsComment(rest);
    }
  }

  lemma DashedIsComment(rest: string)
    ensures "--" <= Trim("--" + rest)
  {
    DashesAreVisible();
    hide IsSpace;
    var s := "--" + rest;
    assert s[0] == '-' && s[1] == '-';
    assert TrimStart(s) == s;
    var k := TrimEndShape(s);
    assert forall j :: k <= j < |s| ==> s[j] == s[k..][j - k];
    assert Trim(s) == s[..k];
  }

  function NonComments(lines: seq<string>): seq<string> {
    if lines == [] then [] else
      (if IsComment(lines[0]) then [] else [lines[0]]) + NonComments(lines[1..])
  }

  function Statement(chunk: string): string {
    Trim(Join(NonComments(Split(chunk, '\n')), "\n"))
  }

  function Clean(chunks: seq<string>): seq<string> {
    if chunks == [] then [] else
      (if Statement(chunks[0]) == "" then [] else [Statement(chunks[0])]) + Clean(chunks[1..])
  }

  /** The statements executed for a file, in order. */
  function Statements(raw: string): seq<string> {
    Clean(Chunks(raw, ""))
  }

  // ---- the reader's way: lines ----

  /** The last visible character of the line is a semicolon. */
  predicate EndsStatement(line: string) {
    TrimEnd(line) != "" && TrimEnd(line)[|TrimEnd(line)| - 1] == ';'
  }

  /** The line without its terminating semicolon and what follows it. */
  function Strip(line: string): string {
    if EndsStatement(line) then TrimEnd(line)[..|TrimEnd(line)| - 1] else line
  }

  function Keep(line: string): seq<string> {
    if IsComment(line) then [] else [Strip(line)]
  }

  /** Runs of kept lines, each run closed by a line that ends a statement. */
  function Groups(lines: seq<string>, pending: seq<string>): seq<seq<string>>
    decreases |lines|
  {
    if lines == [] then [pending]
    else if EndsStatement(lines[0]) then [pending + Keep(lines[0])] + Groups(lines[1..], [])
    else Groups(lines[1..], pending + Keep(lines[0]))
  }

  function Flush(group: seq<string>): seq<string> {
    var text := Trim(Join(group, "\n"));
    if text == "" then [] else [text]
  }

  function Executed(groups: seq<seq<string>>): seq<string> {
    if groups == [] then [] else Flush(groups[0]) + Executed(groups[1..])
  }

  // ---- scanning one line ----

  /** Inside a line a semicolon followed by something visible is no separator. */
  lemma {:induction false} ScanTo(head: string, next: string, current: string)
    requires Free(head, '\n') && next != "" && !IsSpace(next[0])
    ensures Chunks(head + next, current) == Chunks(next, current + head)
    decreases |head|
  {
    hide IsSpace;
    if head == [] {
      assert head + next == next && current + head == current;
    } else {
      var s := head + next;
      assert s[1..] == head[1..] + next;
      NoMatch(head, next);
      assert current + head == current + [head[0]] + head[1..];
      ScanTo(head[1..], next, current + [head[0]]);
    }
  }

  lemma NoMatch(head: string, next: string)
    requires head != "" && Free(head, '\n') && next != "" && !IsSpace(next[0])
    ensures MatchLength(head + next) == 0
  {
    hide IsSpace;
    var s := head + next;
    if s[0] == ';' {
      assert s[1..][|head| - 1] == next[0];
      RunStops(s[1..], |head| - 1);
      NoNewlineIn(head, next, SpaceRun(s[1..]));
    }
  }

  lemma NoNewlineIn(head: string, next: string, run: nat)
    requires Free(head, '\n') && run < |head|
    ensures Free((head + next)[1..][..run], '\n')
  {
    assert (head + next)[1..][..run] == head[1..1 + run];
  }

  lemma RunStops(s: string, i: nat)
    requires i < |s| && !IsSpace(s[i])
    ensures SpaceRun(s) <= i
  {
    hide IsSpace;
    var blank := s[..SpaceRun(s)];
    assert forall j :: 0 <= j < |blank| ==> s[j] == blank[j];
  }

  lemma {:induction false} ScanBlank(b: string, tail: string, current: string)
    requires Blank(b)
    ensures Chunks(b + tail, current) == Chunks(tail, current + b)
    decreases |b|
  {
    if b == [] {
      assert b + tail == tail && current + b == current;
    } else {
      assert (b + tail)[1..] == b[1..] + tail;
      assert current + b == current + [b[0]] + b[1..];
      assert b[0] != ';';
      ScanBlank(b[1..], tail, current + [b[0]]);
    }
  }

  /** A line that does not end a statement is passed over whole. */
  lemma ScanLine(line: string, tail: string, current: string)
    requires Free(line, '\n') && !EndsStatement(line)
    ensures Chunks(line + tail, current) == Chunks(tail, current + line)
  {
    hide IsSpace, Chunks;
    var k := TrimEndShape(line);
    var b := line[k..];
    if k == 0 {
      assert line == b;
      ScanBlank(b, tail, current);
    } else {
      var head, c := line[..k - 1], line[k - 1];
      assert TrimEnd(line)[k - 1] == c;
      assert line + tail == head + ([c] + (b + tail));
      ScanTo(head, [c] + (b + tail), current);
      OneMore(c, b + tail, current + head);
      ScanBlank(b, tail, current + head + [c]);
      assert current + head + [c] + b == current + line;
    }
  }

  lemma OneMore(c: char, tail: string, current: string)
    requires c != ';'
    ensures Chunks([c] + tail, current) == Chunks(tail, current + [c])
  {
    assert ([c] + tail)[1..] == tail;
  }

  /** At the end of a statement the chunk closes, and blank text up to a line start is skipped. */
  lemma CloseLine(line: string, tail: string, current: string) returns (skipped: string, rest: string)
    requires Free(line, '\n') && EndsStatement(line)
    requires tail == "" || tail[0] == '\n'
    ensures tail == skipped + rest && Blank(skipped)
    ensures rest == "" || (skipped != "" && skipped[|skipped| - 1] == '\n')
    ensures Chunks(line + tail, current) == [current + Strip(line)] + Chunks(rest, "")
  {
    hide IsSpace, Chunks, MatchLength;
    var k := TrimEndShape(line);
    var head, b := line[..k - 1], line[k..];
    var s := [';'] + (b + tail);
    LineAtSemicolon(line, tail, k);
    SemicolonIsVisible();
    ScanTo(head, s, current);
    var n := CloseMatch(b, tail);
    skipped, rest := tail[..n], tail[n..];
    assert s[1 + |b| + n..] == rest;
    AtMatch(s, current + head);
  }

  lemma LineAtSemicolon(line: string, tail: string, k: nat)
    requires EndsStatement(line) && k <= |line| && TrimEnd(line) == line[..k]
    ensures k > 0 && Strip(line) == line[..k - 1]
    ensures line + tail == line[..k - 1] + ([';'] + (line[k..] + tail))
  {
    hide TrimEnd, IsSpace;
    assert line[..k][..k - 1] == line[..k - 1];
    Regroup(line, k, tail);
  }

  lemma Regroup(line: string, k: nat, tail: string)
    requires 0 < k <= |line|
    ensures line + tail == line[..k - 1] + ([line[k - 1]] + (line[k..] + tail))
  {
    assert line == line[..k - 1] + [line[k - 1]] + line[k..];
  }

  lemma AtMatch(s: string, current: string)
    requires MatchLength(s) > 0
    ensures Chunks(s, current) == [current] + Chunks(s[MatchLength(s)..], "")
  {
  }

  lemma SemicolonIsVisible()
    ensures !IsSpace(';') && IsSpace('\n')
  {
  }

  lemma CloseMatch(b: string, tail: string) returns (n: nat)
    requires Blank(b) && Free(b, '\n') && (tail == "" || tail[0] == '\n')
    ensures n <= |tail| && Blank(tail[..n])
    ensures n == |tail| || (n > 0 && tail[n - 1] == '\n')
    ensures MatchLength([';'] + (b + tail)) == 1 + |b| + n
  {
    hide IsSpace, MatchLength, SpaceRun, AfterLastNewline;
    SemicolonIsVisible();
    var t := b + tail;
    var run := SpaceRun(t);
    MatchOf(t);
    BlankPrefixRun(b, tail, run);
    assert forall i :: 0 <= i < |tail| ==> tail[i] == t[|b| + i];
    if run == |t| {
      n := |tail|;
      assert tail[..n] == tail && t[..run] == t;
    } else {
      var w := t[..run];
      var back := AfterLastNewline(w);
      assert w[|b|] == tail[0];
      assert forall j :: back <= j < |w| ==> w[back..][j - back] == w[j];
      n := back - |b|;
      assert forall i :: 0 <= i < n ==> tail[i] == w[|b| + i];
    }
  }

  lemma MatchOf(t: string)
    ensures MatchLength([';'] + t) ==
            var run := SpaceRun(t);
            var back := AfterLastNewline(t[..run]);
            if run == |t| then 1 + |t| else if back > 0 then 1 + back else 0
  {
    hide SpaceRun, AfterLastNewline, IsSpace;
    assert ([';'] + t)[1..] == t;
  }

  lemma BlankPrefixRun(b: string, tail: string, run: nat)
    requires Blank(b) && run == SpaceRun(b + tail)
    ensures run >= |b|
    ensures tail != "" && IsSpace(tail[0]) ==> run > |b|
  {
    hide IsSpace;
    var s := b + tail;
    assert forall i :: 0 <= i < |b| ==> s[i] == b[i];
    assert tail != "" ==> s[|b|] == tail[0];
  }

  // ---- whole lines ----

  /** Each line followed by a newline. */
  function LinesText(lines: seq<string>): string {
    if lines == [] then [] else lines[0] + ("\n" + LinesText(lines[1..]))
  }

  predicate AllFree(lines: seq<string>) {
    forall i :: 0 <= i < |lines| ==> Free(lines[i], '\n')
  }

  lemma {:induction false} SplitOfText(lines: seq<string>, x: string)
    requires AllFree(lines)
    ensures Split(LinesText(lines) + x, '\n') == lines + Split(x, '\n')
    decreases |lines|
  {
    hide Split;
    if lines == [] {
      assert LinesText(lines) + x == x;
      assert lines + Split(x, '\n') == Split(x, '\n');
    } else {
      var t := LinesText(lines[1..]);
      Reassociate(lines[0], "\n", t, x);
      SplitFirst(lines[0], '\n', t + x);
      SplitOfText(lines[1..], x);
      HeadAndTail(lines, Split(x, '\n'));
    }
  }

  lemma {:induction false} TextOfSnoc(lines: seq<string>, line: string)
    ensures LinesText(lines + [line]) == LinesText(lines) + line + "\n"
    decreases |lines|
  {
    if lines == [] {
      assert lines + [line] == [line] && LinesText([]) == [];
      assert [line][1..] == [];
    } else {
      assert (lines + [line])[1..] == lines[1..] + [line];
      TextOfSnoc(lines[1..], line);
      var t := LinesText(lines[1..]);
      Reassociate(lines[0], "\n", t, line);
      Reassociate(lines[0], "\n", t + line, "\n");
    }
  }

  lemma Reassociate(a: string, b: string, c: string, d: string)
    ensures (a + (b + c)) + d == a + b + (c + d) == a + (b + (c + d))
  {
  }

  lemma HeadAndTail(lines: seq<string>, more: seq<string>)
    requires lines != []
    ensures [lines[0]] + (lines[1..] + more) == lines + more
  {
  }

  lemma {:induction false} NonCommentsOfConcat(a: seq<string>, b: seq<string>)
    ensures NonComments(a + b) == NonComments(a) + NonComments(b)
    decreases |a|
  {
    hide IsComment;
    if a == [] {
      assert a + b == b;
    } else {
      assert (a + b)[1..] == a[1..] + b;
      NonCommentsOfConcat(a[1..], b);
    }
  }

  /** The statement of a chunk made of whole lines and one last piece. */
  lemma StatementOfLines(lines: seq<string>, last: string)
    requires AllFree(lines) && Free(last, '\n')
    ensures Statement(LinesText(lines) + last) ==
            Trim(Join(NonComments(lines) + (if IsComment(last) then [] else [last]), "\n"))
  {
    hide IsComment, Trim;
    SplitOfText(lines, last);
    SplitFirst(last, '\n', "");
    NonCommentsOfConcat(lines, [last]);
    assert [last][1..] == [];
    assert NonComments([last]) == if IsComment(last) then [] else [last];
  }

  // ---- blank lines before a chunk do not matter ----

  lemma {:induction false} ChunksOfPrefix(s: string, prefix: string)
    ensures Chunks(s, prefix) == [prefix + Chunks(s, "")[0]] + Chunks(s, "")[1..]
    decreases |s|
  {
    hide MatchLength;
    if s == [] {
      assert prefix + "" == prefix;
    } else if MatchLength(s) > 0 {
      assert prefix + "" == prefix;
    } else {
      ChunksOfPrefix(s[1..], prefix + [s[0]]);
      ChunksOfPrefix(s[1..], "" + [s[0]]);
      assert prefix + [s[0]] + Chunks(s[1..], "")[0] == prefix + ("" + [s[0]] + Chunks(s[1..], "")[0]);
    }
  }

  lemma {:induction false} JoinOfBlanks(blanks: seq<string>, rest: seq<string>) returns (b: string)
    requires forall i :: 0 <= i < |blanks| ==> Blank(blanks[i])
    ensures Blank(b) && Join(blanks + rest, "\n") == b + Join(rest, "\n")
    decreases |blanks|
  {
    hide IsSpace;
    if blanks == [] {
      assert blanks + rest == rest;
      b := "";
    } else {
      b := JoinOfBlanks(blanks[1..], rest);
      SemicolonIsVisible();
      assert (blanks + rest)[1..] == blanks[1..] + rest;
      if blanks[1..] + rest == [] {
        assert Join(blanks + rest, "\n") == blanks[0];
        assert rest == [] && Join(rest, "\n") == "";
        b := blanks[0];
      } else {
        assert Join(blanks + rest, "\n") == blanks[0] + "\n" + (b + Join(rest, "\n"));
        b := blanks[0] + "\n" + b;
      }
    }
  }

  lemma {:induction false} BlankTextIsLines(b: string) returns (lines: seq<string>)
    requires Blank(b) && (b == "" || b[|b| - 1] == '\n')
    ensures b == LinesText(lines) && AllFree(lines) && forall i :: 0 <= i < |lines| ==> Blank(lines[i])
    ensures NonComments(lines) == lines
    decreases |b|
  {
    hide IsSpace;
    if b == "" {
      lines := [];
    } else {
      var i := FirstNewline(b);
      var line, rest := b[..i], b[i + 1..];
      lines := BlankTextIsLines(rest);
      assert b == line + ("\n" + rest);
      assert ([line] + lines)[1..] == lines;
      BlankIsNoComment(line);
      lines := [line] + lines;
    }
  }

  lemma {:induction false} FirstNewline(s: string) returns (i: nat)
    requires s != "" && s[|s| - 1] == '\n'
    ensures i < |s| && s[i] == '\n' && Free(s[..i], '\n')
    decreases |s|
  {
    if s[0] == '\n' {
      i := 0;
    } else {
      i := FirstNewline(s[1..]);
      assert s[..i + 1] == [s[0]] + s[1..][..i];
      i := i + 1;
    }
  }

  lemma BlankIsNoComment(line: string)
    requires Blank(line)
    ensures !IsComment(line)
  {
    hide IsSpace;
    TrimEndOfBlank(line);
    assert TrimEnd("") == "";
  }

  lemma StatementAfterBlank(b: string, chunk: string)
    requires Blank(b) && (b == "" || b[|b| - 1] == '\n')
    ensures Statement(b + chunk) == Statement(chunk)
  {
    hide IsSpace, IsComment, Trim;
    var lines := BlankTextIsLines(b);
    SplitOfText(lines, chunk);
    var rest := NonComments(Split(chunk, '\n'));
    NonCommentsOfConcat(lines, Split(chunk, '\n'));
    var blank := JoinOfBlanks(lines, rest);
    TrimBlankPrefix(blank, Join(rest, "\n"));
  }

  lemma CleanAfterBlank(b: string, s: string)
    requires Blank(b) && (b == "" || s == "" || b[|b| - 1] == '\n')
    ensures Clean(Chunks(b + s, "")) == Clean(Chunks(s, ""))
  {
    hide IsSpace, Statement, Chunks;
    ScanBlank(b, s, "");
    ChunksOfPrefix(s, "" + b);
    assert "" + b == b;
    var first := Chunks(s, "")[0];
    if b == "" || b[|b| - 1] == '\n' {
      StatementAfterBlank(b, first);
    } else {
      NoChunks();
      BlankStatement(b);
    }
    assert ([b + first] + Chunks(s, "")[1..])[1..] == Chunks(s, "")[1..];
  }

  lemma NoChunks()
    ensures Chunks("", "") == [""] && Statement("") == ""
  {
    assert NonComments([""]) == (if IsComment("") then [] else [""]) + NonComments([]);
  }

  lemma BlankStatement(b: string)
    requires Blank(b)
    ensures Statement(b) == "" && Statement(b + "") == ""
  {
    hide IsSpace, IsComment;
    assert b + "" == b;
    JoinOfSplit(b, '\n');
    BlankPieces(b);
    NonCommentsOfBlank(Split(b, '\n'));
    TrimEndOfBlank(b);
    assert TrimEnd("") == "";
  }

  lemma {:induction false} BlankPieces(b: string)
    requires Blank(b)
    ensures forall i :: 0 <= i < |Split(b, '\n')| ==> Blank(Split(b, '\n')[i])
    decreases |b|
  {
    hide IsSpace;
    if b != "" {
      BlankPieces(b[1..]);
    }
  }

  lemma {:induction false} NonCommentsOfBlank(lines: seq<string>)
    requires forall i :: 0 <= i < |lines| ==> Blank(lines[i])
    ensures NonComments(lines) == lines
    decreases |lines|
  {
    hide IsSpace, IsComment;
    if lines != [] {
      BlankIsNoComment(lines[0]);
      NonCommentsOfBlank(lines[1..]);
    }
  }

  // ---- the two ways agree ----

  lemma StripKeepsComment(line: string)
    ensures IsComment(Strip(line)) == IsComment(line)
    ensures Free(line, '\n') ==> Free(Strip(line), '\n')
  {
    hide IsSpace;
    if EndsStatement(line) {
      var k := TrimEndShape(line);
      var head, b := line[..k - 1], line[k..];
      assert line == head + ";" + b;
      TrimBefore(head, b);
    }
  }

  /** Neither a final semicolon nor white space decides whether a line is a comment. */
  lemma TrimBefore(head: string, b: string)
    requires Blank(b)
    ensures ("--" <= Trim(head + ";" + b)) == ("--" <= Trim(head))
  {
    hide IsSpace;
    SemicolonIsVisible();
    var i := TrimStartShape(head);
    var blank, core := head[..i], head[i..];
    assert head == blank + core;
    assert head + ";" + b == blank + (core + ";" + b);
    TrimBlankPrefix(blank, core + ";" + b);
    TrimBlankPrefix(blank, core);
    StartOfCore(core, b);
  }

  lemma StartOfCore(core: string, b: string)
    requires Blank(b) && (core == "" || !IsSpace(core[0]))
    ensures ("--" <= Trim(core + ";" + b)) == ("--" <= Trim(core))
  {
    hide IsSpace;
    SemicolonIsVisible();
    var s := core + ";";
    assert s[|s| - 1] == ';';
    TrimTrimmed(s);
    TrimBlankSuffix(s, b);
    assert TrimStart(s + b) == s + b;
    assert Trim(s + b) == s;
    var k := TrimEndShape(core);
    assert TrimStart(core) == core && Trim(core) == core[..k];
    DashesAreVisible();
    assert forall i :: k <= i < |core| ==> IsSpace(core[i]) by {
      assert forall i :: k <= i < |core| ==> core[k..][i - k] == core[i];
    }
    StartsWithDashes(s);
    StartsWithDashes(core[..k]);
  }

  lemma DashesAreVisible()
    ensures !IsSpace('-')
  {
  }

  lemma StartsWithDashes(s: string)
    ensures "--" <= s <==> |s| >= 2 && s[0] == '-' && s[1] == '-'
  {
    if |s| >= 2 {
      assert s[..2] == [s[0], s[1]];
    }
  }

  function NewlineAt(s: string): (i: nat)
    ensures i <= |s| && Free(s[..i], '\n') && (i < |s| ==> s[i] == '\n')
  {
    if s == [] || s[0] == '\n' then 0 else
      var i := NewlineAt(s[1..]);
      assert s[..i + 1] == [s[0]] + s[1..][..i];
      i + 1
  }

  lemma ClosedStatement(line: string, lines: seq<string>)
    requires AllFree(lines) && Free(line, '\n')
    ensures var text := Statement(LinesText(lines) + Strip(line));
            (if text == "" then [] else [text]) == Flush(NonComments(lines) + Keep(line))
  {
    hide IsComment, Strip, Trim;
    StripKeepsComment(line);
    StatementOfLines(lines, Strip(line));
  }

  lemma CleanOfCons(first: string, rest: seq<string>)
    ensures Clean([first] + rest) == (if Statement(first) == "" then [] else [Statement(first)]) + Clean(rest)
  {
    hide Statement;
    assert ([first] + rest)[1..] == rest;
  }

  lemma GroupsOfCons(line: string, rest: seq<string>, pending: seq<string>)
    ensures Groups([line] + rest, pending) ==
            if EndsStatement(line) then [pending + Keep(line)] + Groups(rest, [])
            else Groups(rest, pending + Keep(line))
  {
    hide EndsStatement, Keep;
    assert ([line] + rest)[1..] == rest;
  }

  lemma ExecutedOfCons(group: seq<string>, rest: seq<seq<string>>)
    ensures Executed([group] + rest) == Flush(group) + Executed(rest)
  {
    hide Flush;
    assert ([group] + rest)[1..] == rest;
  }

  lemma NothingLeft()
    ensures Clean(Chunks("", "")) == [] && Executed(Groups([], [])) == []
  {
    NoChunks();
    assert TrimEnd("") == "";
    assert Executed([[]]) == Flush([]) + Executed([]);
  }

  lemma {:induction false} LinesMatch(s: string, lines: seq<string>)
    requires AllFree(lines)
    ensures Clean(Chunks(s, LinesText(lines))) == Executed(Groups(Split(s, '\n'), NonComments(lines)))
    decreases |s|
  {
    hide *;
    var i := NewlineAt(s);
    var line, tail := s[..i], s[i..];
    assert s == line + tail;
    if i == |s| {
      LastLine(line, lines);
    } else {
      var rest := s[i + 1..];
      assert tail == "\n" + rest;
      if EndsStatement(line) {
        NoLinesFree();
        LinesMatch(rest, []);
        ClosingLine(line, rest, lines);
      } else {
        AllFreeSnoc(lines, line);
        LinesMatch(rest, lines + [line]);
        PassingLine(line, rest, lines);
      }
    }
  }

  lemma NoLinesFree()
    ensures AllFree([])
  {
  }

  lemma AllFreeSnoc(lines: seq<string>, line: string)
    requires AllFree(lines) && Free(line, '\n')
    ensures AllFree(lines + [line])
  {
  }

  lemma LastLine(line: string, lines: seq<string>)
    requires AllFree(lines) && Free(line, '\n')
    ensures Clean(Chunks(line + "", LinesText(lines))) == Executed(Groups(Split(line + "", '\n'), NonComments(lines)))
  {
    hide Statement, Trim, EndsStatement, Strip, Keep, Clean, Executed, Flush, LinesText, NonComments, Split;
    var current := LinesText(lines);
    var group := NonComments(lines) + Keep(line);
    assert line + "" == line;
    SplitFirst(line, '\n', "");
    GroupsOfCons(line, [], NonComments(lines));
    assert [line] + [] == [line];
    ClosedStatement(line, lines);
    NothingLeft();
    if EndsStatement(line) {
      var skipped, rest := CloseLine(line, "", current);
      CleanOfCons(current + Strip(line), Chunks(rest, ""));
      ExecutedOfCons(group, Groups([], []));
    } else {
      ScanLine(line, "", current);
      PlainStrip(line);
      CleanOfCons(current + line, []);
      var none: seq<seq<string>> := [];
      ExecutedOfCons(group, none);
      EmptyLists(none);
      assert [current + line] + [] == [current + line] && [group] + none == [group];
    }
  }

  lemma PlainStrip(line: string)
    requires !EndsStatement(line)
    ensures Strip(line) == line
  {
  }

  lemma EmptyLists(none: seq<seq<string>>)
    requires none == []
    ensures Clean([]) == [] && Executed(none) == []
  {
  }

  lemma PassingLine(line: string, rest: string, lines: seq<string>)
    requires AllFree(lines) && Free(line, '\n') && !EndsStatement(line)
    requires Clean(Chunks(rest, LinesText(lines + [line])))
             == Executed(Groups(Split(rest, '\n'), NonComments(lines + [line])))
    ensures Clean(Chunks(line + ("\n" + rest), LinesText(lines)))
            == Executed(Groups(Split(line + ("\n" + rest), '\n'), NonComments(lines)))
  {
    hide Statement, EndsStatement, Clean, Executed, IsSpace, Groups, Chunks, Split, LinesText, NonComments, Keep;
    var current := LinesText(lines);
    SemicolonIsVisible();
    ScanLine(line, "\n" + rest, current);
    ScanBlank("\n", rest, current + line);
    TextOfSnoc(lines, line);
    assert line + ("\n" + rest) == line + ['\n'] + rest;
    SplitFirst(line, '\n', rest);
    GroupsOfCons(line, Split(rest, '\n'), NonComments(lines));
    KeptLine(lines, line);
  }

  lemma KeptLine(lines: seq<string>, line: string)
    requires !EndsStatement(line)
    ensures NonComments(lines + [line]) == NonComments(lines) + Keep(line)
  {
    hide IsComment, EndsStatement;
    NonCommentsOfConcat(lines, [line]);
    assert [line][1..] == [];
    assert NonComments([line]) == Keep(line);
  }

  lemma ClosingLine(line: string, rest: string, lines: seq<string>)
    requires AllFree(lines) && Free(line, '\n') && EndsStatement(line)
    requires Clean(Chunks(rest, LinesText([]))) == Executed(Groups(Split(rest, '\n'), NonComments([])))
    ensures Clean(Chunks(line + ("\n" + rest), LinesText(lines)))
            == Executed(Groups(Split(line + ("\n" + rest), '\n'), NonComments(lines)))
  {
    hide *;
    NoLines();
    var current := LinesText(lines);
    var group := NonComments(lines) + Keep(line);
    var skipped, more := CloseLine(line, "\n" + rest, current);
    CleanOfCons(current + Strip(line), Chunks(more, ""));
    ClosedStatement(line, lines);
    assert |"\n" + rest| == |skipped| + |more|;
    AfterSkipped(skipped, more, rest);
    CleanAfterBlank(skipped[1..], more);
    assert line + ("\n" + rest) == line + ['\n'] + rest;
    SplitFirst(line, '\n', rest);
    GroupsOfCons(line, Split(rest, '\n'), NonComments(lines));
    ExecutedOfCons(group, Groups(Split(rest, '\n'), []));
  }

  lemma NoLines()
    ensures LinesText([]) == "" && NonComments([]) == []
  {
  }

  lemma AfterSkipped(skipped: string, more: string, rest: string)
    requires "\n" + rest == skipped + more && Blank(skipped) && skipped != ""
    requires more == "" || skipped[|skipped| - 1] == '\n'
    ensures rest == skipped[1..] + more && Blank(skipped[1..])
    ensures skipped[1..] == "" || more == "" || skipped[1..][|skipped[1..]| - 1] == '\n'
  {
    hide IsSpace;
    assert rest == ("\n" + rest)[1..] == (skipped + more)[1..];
    assert forall i :: 0 <= i < |skipped| - 1 ==> skipped[1..][i] == skipped[i + 1];
  }

  /** The pattern split followed by comment stripping is the line-by-line grouping, for every text. */
  lemma SplitIsByLines(raw: string)
    ensures Statements(raw) == Executed(Groups(Split(raw, '\n'), []))
  {
    hide Split, Chunks, Groups, Clean, Executed;
    LinesMatch(raw, []);
    NoLines();
  }

  // ---- what reaches the database ----

  /** The lines that are no comments, each without its statement terminator. */
  function KeptLines(lines: seq<string>): seq<string> {
    if lines == [] then [] else Keep(lines[0]) + KeptLines(lines[1..])
  }

  function Flatten(groups: seq<seq<string>>): seq<string> {
    if groups == [] then [] else groups[0] + Flatten(groups[1..])
  }

  /** Grouping hands every kept line to exactly one group, in order. */
  lemma {:induction false} GroupsKeepLines(lines: seq<string>, pending: seq<string>)
    ensures Flatten(Groups(lines, pending)) == pending + KeptLines(lines)
    decreases |lines|
  {
    hide EndsStatement, Keep;
    if lines == [] {
      assert Flatten([pending]) == pending + Flatten([]);
    } else if EndsStatement(lines[0]) {
      GroupsKeepLines(lines[1..], []);
      var rest := Groups(lines[1..], []);
      assert ([pending + Keep(lines[0])] + rest)[1..] == rest;
      assert pending + Keep(lines[0]) + KeptLines(lines[1..]) == pending + (Keep(lines[0]) + KeptLines(lines[1..]));
    } else {
      GroupsKeepLines(lines[1..], pending + Keep(lines[0]));
      assert pending + Keep(lines[0]) + KeptLines(lines[1..]) == pending + (Keep(lines[0]) + KeptLines(lines[1..]));
    }
  }

  /** The characters that are not white space, in order. */
  function Visible(s: string): string {
    if s == [] then [] else (if IsSpace(s[0]) then [] else [s[0]]) + Visible(s[1..])
  }

  function VisibleAll(lines: seq<string>): string {
    if lines == [] then [] else Visible(lines[0]) + VisibleAll(lines[1..])
  }

  lemma {:induction false} VisibleOfConcat(a: string, b: string)
    ensures Visible(a + b) == Visible(a) + Visible(b)
    decreases |a|
  {
    hide IsSpace;
    if a == [] {
      assert a + b == b;
    } else {
      assert (a + b)[1..] == a[1..] + b;
      VisibleOfConcat(a[1..], b);
    }
  }

  lemma {:induction false} VisibleOfBlank(b: string)
    requires Blank(b)
    ensures Visible(b) == []
    decreases |b|
  {
    hide IsSpace;
    if b != [] {
      VisibleOfBlank(b[1..]);
    }
  }

  lemma VisibleOfTrim(s: string)
    ensures Visible(Trim(s)) == Visible(s)
  {
    hide IsSpace, Visible;
    var i := TrimStartShape(s);
    var t := s[i..];
    var k := TrimEndShape(t);
    assert s == s[..i] + t && t == t[..k] + t[k..];
    VisibleOfConcat(s[..i], t);
    VisibleOfConcat(t[..k], t[k..]);
    VisibleOfBlank(s[..i]);
    VisibleOfBlank(t[k..]);
  }

  lemma {:induction false} VisibleOfJoin(lines: seq<string>)
    ensures Visible(Join(lines, "\n")) == VisibleAll(lines)
    decreases |lines|
  {
    hide IsSpace, Visible;
    if lines == [] {
      VisibleOfBlank("");
    } else if |lines| == 1 {
      assert VisibleAll(lines[1..]) == [];
    } else {
      VisibleOfJoin(lines[1..]);
      SemicolonIsVisible();
      VisibleOfConcat(lines[0] + "\n", Join(lines[1..], "\n"));
      VisibleOfConcat(lines[0], "\n");
      VisibleOfBlank("\n");
    }
  }

  lemma {:induction false} VisibleAllOfConcat(a: seq<string>, b: seq<string>)
    ensures VisibleAll(a + b) == VisibleAll(a) + VisibleAll(b)
    decreases |a|
  {
    hide Visible;
    if a == [] {
      assert a + b == b;
    } else {
      assert (a + b)[1..] == a[1..] + b;
      VisibleAllOfConcat(a[1..], b);
    }
  }

  lemma VisibleOfFlush(group: seq<string>)
    ensures VisibleAll(Flush(group)) == VisibleAll(group)
  {
    hide Visible, Trim, Join;
    var text := Join(group, "\n");
    VisibleOfJoin(group);
    VisibleOfTrim(text);
    VisibleOfBlank("");
    assert [Trim(text)][1..] == [];
  }

  lemma {:induction false} VisibleOfExecuted(groups: seq<seq<string>>)
    ensures VisibleAll(Executed(groups)) == VisibleAll(Flatten(groups))
    decreases |groups|
  {
    hide Visible, Flush;
    if groups != [] {
      VisibleOfExecuted(groups[1..]);
      VisibleOfFlush(groups[0]);
      VisibleAllOfConcat(Flush(groups[0]), Executed(groups[1..]));
      VisibleAllOfConcat(groups[0], Flatten(groups[1..]));
    }
  }

  /**
    Up to white space, what is executed is the non-comment lines in order, each once, minus
    one terminating semicolon per statement.
   */
  lemma EveryLineIsExecutedOnce(raw: string)
    ensures VisibleAll(Statements(raw)) == VisibleAll(KeptLines(Split(raw, '\n')))
    ensures Flatten(Groups(Split(raw, '\n'), [])) == KeptLines(Split(raw, '\n'))
  {
    hide *;
    SplitIsByLines(raw);
    VisibleOfExecuted(Groups(Split(raw, '\n'), []));
    GroupsKeepLines(Split(raw, '\n'), []);
    assert [] + KeptLines(Split(raw, '\n')) == KeptLines(Split(raw, '\n'));
  }

  // ---- no comment line is executed ----

  predicate HasNoComment(text: string) {
    forall i :: 0 <= i < |Split(text, '\n')| ==> !IsComment(Split(text, '\n')[i])
  }

  lemma SpaceBeforeComment(c: char, line: string)
    requires IsSpace(c)
    ensures IsComment([c] + line) == IsComment(line)
  {
    hide IsSpace, Trim;
    TrimBlankPrefix([c], line);
  }

  lemma {:induction false} TrimStartAddsNoComment(text: string)
    requires HasNoComment(text)
    ensures HasNoComment(TrimStart(text))
    decreases |text|
  {
    hide IsComment;
    if text != "" && IsSpace(text[0]) {
      hide IsSpace;
      var lines, rest := Split(text, '\n'), Split(text[1..], '\n');
      forall i | 0 <= i < |rest| ensures !IsComment(rest[i]) {
        if text[0] == '\n' {
          assert lines[i + 1] == rest[i];
        } else if i == 0 {
          SpaceBeforeComment(text[0], rest[0]);
          assert lines[0] == [text[0]] + rest[0];
        } else {
          assert lines[i] == rest[i];
        }
      }
      TrimStartAddsNoComment(text[1..]);
    }
  }

  lemma SplitStep(s: string)
    ensures s == "" ==> Split(s, '\n') == [""]
    ensures s != "" ==>
              var rest := Split(s[1..], '\n');
              Split(s, '\n') == if s[0] == '\n' then [""] + rest else [[s[0]] + rest[0]] + rest[1..]
  {
  }

  lemma {:induction false} SplitSnoc(s: string, c: char)
    ensures var lines := Split(s, '\n');
            Split(s + [c], '\n') ==
              if c == '\n' then lines + [""] else lines[..|lines| - 1] + [lines[|lines| - 1] + [c]]
    decreases |s|
  {
    hide Split;
    SplitStep(s);
    SplitStep(s + [c]);
    if s == "" {
      assert "" + [c] == [c] && [c][1..] == "";
      SplitStep("");
      assert [c] + "" == "" + [c] && [""][1..] == [] && [""][..0] == [];
    } else {
      assert (s + [c])[1..] == s[1..] + [c];
      SplitSnoc(s[1..], c);
      SnocOfParts(s[0], Split(s[1..], '\n'), c);
    }
  }

  lemma SnocOfParts(a: char, rest: seq<string>, c: char)
    requires rest != []
    ensures var n := |rest| - 1;
            var longer := rest[..n] + [rest[n] + [c]];
            var lines := [[a] + rest[0]] + rest[1..];
            && [""] + longer == ([""] + rest)[..n + 1] + [rest[n] + [c]]
            && [""] + (rest + [""]) == ([""] + rest) + [""]
            && [[a] + (rest + [""])[0]] + (rest + [""])[1..] == lines + [""]
            && [[a] + longer[0]] + longer[1..] == lines[..n] + [lines[n] + [c]]
  {
    assert [a] + (rest[0] + [c]) == [a] + rest[0] + [c];
  }

  lemma SpaceAfterComment(line: string, c: char)
    requires IsSpace(c)
    ensures IsComment(line + [c]) == IsComment(line)
  {
    hide IsSpace;
    var i := TrimStartShape(line);
    var blank, core := line[..i], line[i..];
    assert line == blank + core && line + [c] == blank + (core + [c]);
    TrimBlankPrefix(blank, core + [c]);
    TrimBlankPrefix(blank, core);
    if core == "" {
      assert core + [c] == [c];
      TrimEndOfBlank([c]);
      assert TrimEnd("") == "";
    } else {
      assert TrimStart(core + [c]) == core + [c] && TrimStart(core) == core;
      TrimBlankSuffix(core, [c]);
    }
  }

  lemma {:induction false} TrimEndAddsNoComment(text: string)
    requires HasNoComment(text)
    ensures HasNoComment(TrimEnd(text))
    decreases |text|
  {
    hide IsComment, Split;
    if text != "" && IsSpace(text[|text| - 1]) {
      hide IsSpace;
      var t, c := text[..|text| - 1], text[|text| - 1];
      assert text == t + [c];
      SplitSnoc(t, c);
      var lines, longer := Split(t, '\n'), Split(text, '\n');
      forall i | 0 <= i < |lines| ensures !IsComment(lines[i]) {
        if c == '\n' || i < |lines| - 1 {
          assert longer[i] == lines[i];
        } else {
          SpaceAfterComment(lines[i], c);
          assert longer[i] == lines[i] + [c];
        }
      }
      TrimEndAddsNoComment(t);
    }
  }

  predicate PlainLines(group: seq<string>) {
    forall i :: 0 <= i < |group| ==> Free(group[i], '\n') && !IsComment(group[i])
  }

  lemma JoinHead(group: seq<string>)
    requires group != []
    ensures Join(group, "\n") == if |group| == 1 then group[0] else group[0] + "\n" + Join(group[1..], "\n")
  {
  }

  lemma {:induction false} SplitOfJoin(group: seq<string>)
    requires AllFree(group) && group != []
    ensures Split(Join(group, "\n"), '\n') == group
    decreases |group|
  {
    hide Split, Join, Free;
    JoinHead(group);
    if |group| == 1 {
      SplitFirst(group[0], '\n', "");
    } else {
      SplitOfJoin(group[1..]);
      assert group == [group[0]] + group[1..];
      SplitFirst(group[0], '\n', Join(group[1..], "\n"));
    }
  }

  lemma FlushHasNoComment(group: seq<string>)
    requires PlainLines(group)
    ensures forall t :: t in Flush(group) ==> HasNoComment(t)
  {
    hide IsComment;
    if group != [] {
      SplitOfJoin(group);
      TrimStartAddsNoComment(Join(group, "\n"));
      TrimEndAddsNoComment(TrimStart(Join(group, "\n")));
    } else {
      assert Trim("") == "";
    }
  }

  lemma {:induction false} GroupsArePlain(lines: seq<string>, pending: seq<string>)
    requires AllFree(lines) && PlainLines(pending)
    ensures forall i :: 0 <= i < |Groups(lines, pending)| ==> PlainLines(Groups(lines, pending)[i])
    decreases |lines|
  {
    hide IsComment, EndsStatement, Strip;
    if lines != [] {
      StripKeepsComment(lines[0]);
      assert PlainLines(pending + Keep(lines[0]));
      if EndsStatement(lines[0]) {
        GroupsArePlain(lines[1..], []);
      } else {
        GroupsArePlain(lines[1..], pending + Keep(lines[0]));
      }
    }
  }

  lemma {:induction false} ExecutedHasNoComment(groups: seq<seq<string>>)
    requires forall i :: 0 <= i < |groups| ==> PlainLines(groups[i])
    ensures forall t :: t in Executed(groups) ==> HasNoComment(t)
    decreases |groups|
  {
    hide PlainLines, HasNoComment, Flush;
    if groups != [] {
      FlushHasNoComment(groups[0]);
      ExecutedHasNoComment(groups[1..]);
    }
  }

  /** No line of any executed statement is a comment line. */
  lemma NoCommentIsExecuted(raw: string)
    ensures forall t :: t in Statements(raw) ==> HasNoComment(t)
  {
    hide HasNoComment, Statements, Groups, Executed, Split, PlainLines;
    SplitIsByLines(raw);
    JoinOfSplit(raw, '\n');
    NoPending();
    GroupsArePlain(Split(raw, '\n'), []);
    ExecutedHasNoComment(Groups(Split(raw, '\n'), []));
  }

  lemma NoPending()
    ensures PlainLines([])
  {
  }

  // ---- writing a file and splitting it back ----

  datatype Item = CommentLine(text: string) | SqlStatement(text: string)

  function Render(items: seq<Item>): string {
    if items == [] then [] else
      (match items[0]
       case CommentLine(text) => text + "\n"
       case SqlStatement(text) => text + ";\n")
      + Render(items[1..])
  }

  function StatementTexts(items: seq<Item>): seq<string> {
    if items == [] then [] else
      (if items[0].SqlStatement? then [items[0].text] else []) + StatementTexts(items[1..])
  }

  /** A trimmed statement without comment lines, none of whose inner lines ends in a semicolon. */
  predicate PlainStatement(text: string) {
    && text != "" && Trimmed(text) && HasNoComment(text)
    && forall i :: 0 <= i < |Split(text, '\n')| - 1 ==> !EndsStatement(Split(text, '\n')[i])
  }

  predicate WellWritten(item: Item) {
    match item
    case CommentLine(text) => Free(text, '\n') && IsComment(text) && !EndsStatement(text)
    case SqlStatement(text) => PlainStatement(text)
  }

  lemma {:induction false} GroupsOfPlain(inner: seq<string>, rest: seq<string>, pending: seq<string>)
    requires forall i :: 0 <= i < |inner| ==> !IsComment(inner[i]) && !EndsStatement(inner[i])
    ensures Groups(inner + rest, pending) == Groups(rest, pending + inner)
    decreases |inner|
  {
    hide IsComment, EndsStatement;
    if inner == [] {
      assert inner + rest == rest && pending + inner == pending;
    } else {
      assert inner + rest == [inner[0]] + (inner[1..] + rest);
      GroupsOfCons(inner[0], inner[1..] + rest, pending);
      GroupsOfPlain(inner[1..], rest, pending + [inner[0]]);
      assert pending + [inner[0]] + inner[1..] == pending + inner;
    }
  }

  lemma LastWithSemicolon(line: string)
    ensures EndsStatement(line + ";") && Strip(line + ";") == line
    ensures IsComment(line + ";") == IsComment(line)
  {
    hide IsSpace;
    SemicolonIsVisible();
    var l := line + ";";
    assert l[|l| - 1] == ';';
    assert TrimEnd(l) == l && l[..|l| - 1] == line;
    StripKeepsComment(l);
  }

  lemma SplitOfRendered(text: string, rest: string)
    ensures var lines := Split(text, '\n');
            Split(text + ";\n" + rest, '\n') ==
              lines[..|lines| - 1] + [lines[|lines| - 1] + ";"] + Split(rest, '\n')
  {
    hide Split;
    var lines := Split(text, '\n');
    SplitSnoc(text, ';');
    JoinOfSplit(text + ";", '\n');
    SplitOfText(Split(text + ";", '\n'), rest);
    TextOfSplit(text + ";");
    assert text + ";\n" + rest == text + ";" + "\n" + rest;
  }

  lemma {:induction false} TextOfSplit(s: string)
    ensures LinesText(Split(s, '\n')) == s + "\n"
    decreases |s|
  {
    hide Split, LinesText;
    SplitStep(s);
    if s == "" {
      TextOfCons("", []);
      TextOfNone();
      assert [""] + [] == [""] && "" + ("\n" + "") == "" + "\n";
    } else {
      TextOfSplit(s[1..]);
      var rest := Split(s[1..], '\n');
      assert s == [s[0]] + s[1..];
      if s[0] == '\n' {
        TextOfCons("", rest);
        assert "" + ("\n" + (s[1..] + "\n")) == "\n" + s[1..] + "\n";
      } else {
        TextOfCons([s[0]] + rest[0], rest[1..]);
        TextOfCons(rest[0], rest[1..]);
        assert rest == [rest[0]] + rest[1..];
        var tail := "\n" + LinesText(rest[1..]);
        assert [s[0]] + rest[0] + tail == [s[0]] + (rest[0] + tail) == [s[0]] + s[1..] + "\n";
      }
    }
  }

  lemma TextOfNone()
    ensures LinesText([]) == ""
  {
  }

  lemma TextOfCons(line: string, rest: seq<string>)
    ensures LinesText([line] + rest) == line + ("\n" + LinesText(rest))
  {
    assert ([line] + rest)[1..] == rest;
  }

  /** One written statement closes exactly one group, holding its own lines. */
  lemma GroupOfStatement(text: string, rest: string)
    requires PlainStatement(text)
    ensures Groups(Split(text + ";\n" + rest, '\n'), []) == [Split(text, '\n')] + Groups(Split(rest, '\n'), [])
    ensures Flush(Split(text, '\n')) == [text]
  {
    hide IsComment, EndsStatement, IsSpace, Split, Groups, Trimmed, Trim, Strip;
    var lines := Split(text, '\n');
    var inner, last := lines[..|lines| - 1], lines[|lines| - 1];
    SplitOfRendered(text, rest);
    assert inner + [last + ";"] + Split(rest, '\n') == inner + ([last + ";"] + Split(rest, '\n'));
    GroupsOfPlain(inner, [last + ";"] + Split(rest, '\n'), []);
    GroupsOfCons(last + ";", Split(rest, '\n'), [] + inner);
    LastWithSemicolon(last);
    assert [] + inner + [last] == lines;
    JoinOfSplit(text, '\n');
    TrimTrimmed(text);
  }

  lemma GroupsOfComment(text: string, rest: string)
    requires Free(text, '\n') && IsComment(text) && !EndsStatement(text)
    ensures Groups(Split(text + "\n" + rest, '\n'), []) == Groups(Split(rest, '\n'), [])
  {
    hide IsComment, EndsStatement, Split, Groups;
    SplitFirst(text, '\n', rest);
    GroupsOfCons(text, Split(rest, '\n'), []);
    assert Keep(text) == [] && [] + Keep(text) == [];
  }

  /** A file written as statements and comment lines splits back to exactly its statements. */
  lemma {:induction false} SplitOfRender(items: seq<Item>)
    requires forall i :: 0 <= i < |items| ==> WellWritten(items[i])
    ensures Executed(Groups(Split(Render(items), '\n'), [])) == StatementTexts(items)
    ensures Statements(Render(items)) == StatementTexts(items)
    decreases |items|
  {
    hide Groups, Split, PlainStatement, Statements, IsComment, EndsStatement, Flush;
    SplitIsByLines(Render(items));
    if items == [] {
      EmptyFile();
    } else {
      var rest := Render(items[1..]);
      SplitOfRender(items[1..]);
      assert WellWritten(items[0]);
      match items[0] {
        case CommentLine(text) => GroupsOfComment(text, rest);
        case SqlStatement(text) =>
          GroupOfStatement(text, rest);
          ExecutedOfCons(Split(text, '\n'), Groups(Split(rest, '\n'), []));
      }
    }
  }

  lemma EmptyFile()
    ensures Executed(Groups(Split("", '\n'), [])) == []
  {
    SplitIsByLines("");
    NoChunks();
  }

  // ---- applying the files ----

  /** The database connection: every call runs one statement, or throws. */
  class Connection {
    var executed: seq<string>
    ghost var failures: nat

    constructor ()
      ensures executed == [] && failures == 0
    {
      executed, failures := [], 0;
    }

    method ExecuteRaw(statement: string) returns (ok: bool)
      modifies this
      ensures executed == if ok then old(executed) + [statement] else old(executed)
      ensures failures == if ok then old(failures) else old(failures) + 1
    {
      ok := *;
      if ok {
        executed := executed + [statement];
      } else {
        failures := failures + 1;
      }
    }
  }

  function AllStatements(files: seq<string>): seq<string> {
    if files == [] then [] else Statements(files[0]) + AllStatements(files[1..])
  }

  lemma {:induction false} AllStatementsAround(files: seq<string>, i: nat)
    requires i < |files|
    ensures AllStatements(files) == AllStatements(files[..i]) + Statements(files[i]) + AllStatements(files[i + 1..])
    decreases i
  {
    hide Statements;
    if i == 0 {
      assert files[..0] == [] && AllStatements(files[..0]) == [];
    } else {
      AllStatementsAround(files[1..], i - 1);
      assert files[..i][1..] == files[1..][..i - 1] && files[1..][i..] == files[i + 1..];
    }
  }

  /** Runs every statement of every file in order, and stops at the first that fails. */
  method ApplyFiles(files: seq<string>, connection: Connection) returns (ok: bool)
    modifies connection
    ensures ok ==> connection.executed == old(connection.executed) + AllStatements(files)
    ensures connection.failures == if ok then old(connection.failures) else old(connection.failures) + 1
    ensures !ok ==> exists k :: 0 <= k < |AllStatements(files)|
                                && connection.executed == old(connection.executed) + AllStatements(files)[..k]
  {
    hide Statements, AllStatements;
    ghost var was, all := connection.executed, AllStatements(files);
    assert AllStatements([]) == [] by { NoStatements(); }
    assert files[..0] == [];
    for i := 0 to |files|
      invariant connection.executed == was + AllStatements(files[..i])
      invariant connection.failures == old(connection.failures)
    {
      var statements := Statements(files[i]);
      AllStatementsAround(files, i);
      ghost var before := AllStatements(files[..i]);
      for j := 0 to |statements|
        invariant connection.executed == was + before + statements[..j]
        invariant connection.failures == old(connection.failures)
      {
        ok := connection.ExecuteRaw(statements[j]);
        if !ok {
          assert all[..|before| + j] == before + statements[..j];
          return;
        }
      }
      AllStatementsAround(files[..i + 1], i);
      NoStatements();
      assert files[..i + 1][..i] == files[..i] && files[..i + 1][i + 1..] == [];
    }
    assert files[..|files|] == files;
    return true;
  }

  lemma NoStatements()
    ensures AllStatements([]) == []
  {
  }
}
