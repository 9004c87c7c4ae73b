/** Cutting a line of a delimited file into cells, and putting such a line together again. */
module Cells {
  import opened Base
  import opened Sorting

  /** The characters with the Unicode property `White_Space`, which is what trimming removes. */
  predicate IsSpace(c: char)
  {
    || '\U{0009}' <= c <= '\U{000D}'
    || c in ['\U{0020}', '\U{0085}', '\U{00A0}', '\U{1680}', '\U{2028}', '\U{2029}', '\U{202F}', '\U{205F}', '\U{3000}']
    || '\U{2000}' <= c <= '\U{200A}'
  }

  function TrimStart(s: string): string
  {
    if s != "" && IsSpace(s[0]) then TrimStart(s[1..]) else s
  }

  function TrimEnd(s: string): string
  {
    if s != "" && IsSpace(s[|s| - 1]) then TrimEnd(s[..|s| - 1]) else s
  }

  function Trim(s: string): string { TrimEnd(TrimStart(s)) }

  /** The cutter part way through a line: finished cells, the one being read, and whether inside quotes. */
  datatype Cutting = Cutting(cells: seq<string>, current: string, quoted: bool)
  {
    function Done(): seq<string> { cells + [Trim(current)] }
  }

  const START: Cutting := Cutting([], "", false)

  /** One character. A quote only toggles; a delimiter outside quotes ends the cell. */
  function Next(t: Cutting, c: char, delimiter: char): Cutting
  {
    if c == '"' then t.(quoted := !t.quoted)
    else if c == delimiter && !t.quoted then Cutting(t.cells + [Trim(t.current)], "", false)
    else t.(current := t.current + [c])
  }

  function Cut(t: Cutting, line: string, delimiter: char): Cutting
    decreases |line|
  {
    if line == "" then t else Cut(Next(t, line[0], delimiter), line[1..], delimiter)
  }

  // ---------- where a line is cut ----------

  predicate NotQuote(c: char) { c != '"' }

  function QuotesIn(s: string): nat
  {
    if s == "" then 0 else QuotesIn(s[..|s| - 1]) + if s[|s| - 1] == '"' then 1 else 0
  }

  predicate InQuotes(line: string, i: nat)
    requires i <= |line|
  {
    QuotesIn(line[..i]) % 2 == 1
  }

  /** A delimiter with an even number of quotes before it. */
  predicate IsBreak(line: string, delimiter: char, i: nat)
    requires i < |line|
  {
    line[i] == delimiter && line[i] != '"' && !InQuotes(line, i)
  }

  /** The text between two places, without its quotes and trimmed. */
  function CellBetween(line: string, from: int, to: int): string
    requires -1 <= from < to <= |line|
  {
    Trim(Where(NotQuote, line[from + 1..to]))
  }

  predicate Ascend(bounds: seq<int>) { forall j, k :: 0 <= j < k < |bounds| ==> bounds[j] < bounds[k] }

  /** The cells up to place `to`, cut at every break before it and nowhere else. */
  ghost predicate CutUpTo(line: string, delimiter: char, to: nat, bounds: seq<int>, cells: seq<string>)
    requires to <= |line|
  {
    && |bounds| == |cells| + 1 && bounds[0] == -1 && Ascend(bounds)
    && (forall k :: 0 <= k < |bounds| ==> -1 <= bounds[k] < to)
    && (forall i :: 0 <= i < to ==> (i in bounds <==> IsBreak(line, delimiter, i)))
    && (forall k :: 0 <= k < |cells| ==> cells[k] == CellBetween(line, bounds[k], bounds[k + 1]))
  }

  /** A line cut into cells: at every delimiter outside quotes and nowhere else, quotes dropped, each cell trimmed. */
  ghost predicate IsSplit(line: string, delimiter: char, cells: seq<string>)
  {
    exists bounds :: CutThroughout(line, delimiter, bounds, cells)
  }

  ghost predicate CutThroughout(line: string, delimiter: char, bounds: seq<int>, cells: seq<string>)
  {
    && |bounds| == |cells| > 0
    && CutUpTo(line, delimiter, |line|, bounds, cells[..|cells| - 1])
    && cells[|cells| - 1] == CellBetween(line, bounds[|bounds| - 1], |line|)
  }

  lemma NextQuotes(line: string, i: nat)
    requires i < |line|
    ensures InQuotes(line, i + 1) <==> InQuotes(line, i) != (line[i] == '"')
  {
    assert line[..i + 1][..i] == line[..i];
  }

  /** One character more belongs to the cell being read. */
  lemma NextCharacter(line: string, from: int, i: nat)
    requires -1 <= from < i < |line|
    ensures Where(NotQuote, line[from + 1..i + 1])
         == Where(NotQuote, line[from + 1..i]) + if NotQuote(line[i]) then [line[i]] else []
  {
    assert line[from + 1..i + 1] == line[from + 1..i] + [line[i]];
    WhereOne(NotQuote, line[from + 1..i], line[i]);
  }

  lemma NoCut(line: string, delimiter: char, i: nat, bounds: seq<int>, cells: seq<string>)
    requires i < |line| && CutUpTo(line, delimiter, i, bounds, cells) && !IsBreak(line, delimiter, i)
    ensures CutUpTo(line, delimiter, i + 1, bounds, cells)
  {
  }

  lemma OneMoreCut(line: string, delimiter: char, i: nat, bounds: seq<int>, cells: seq<string>)
    requires i < |line| && CutUpTo(line, delimiter, i, bounds, cells) && IsBreak(line, delimiter, i)
    ensures CutUpTo(line, delimiter, i + 1, bounds + [i], cells + [CellBetween(line, bounds[|cells|], i)])
  {
    var more := bounds + [i];
    forall m | 0 <= m < i + 1 ensures m in more <==> IsBreak(line, delimiter, m) {
      assert m in more <==> m in bounds || m == i;
    }
  }

  /** The cutter after `i` characters: cut up to there, and how the cell being read stands. */
  ghost predicate ReadUpTo(line: string, delimiter: char, i: nat, bounds: seq<int>, t: Cutting)
    requires i <= |line|
  {
    && CutUpTo(line, delimiter, i, bounds, t.cells)
    && (t.quoted <==> InQuotes(line, i))
    && t.current == Where(NotQuote, line[bounds[|t.cells|] + 1..i])
  }

  lemma ReadNothing(line: string, delimiter: char)
    ensures ReadUpTo(line, delimiter, 0, [-1], START)
  {
    assert line[0..0] == "" && line[..0] == "";
  }

  lemma ReadOneMore(line: string, delimiter: char, i: nat, bounds: seq<int>, t: Cutting)
    returns (more: seq<int>)
    requires i < |line| && ReadUpTo(line, delimiter, i, bounds, t)
    ensures ReadUpTo(line, delimiter, i + 1, more, Next(t, line[i], delimiter))
  {
    more := bounds;
    NextQuotes(line, i);
    NextCharacter(line, bounds[|t.cells|], i);
    if IsBreak(line, delimiter, i) {
      OneMoreCut(line, delimiter, i, bounds, t.cells);
      more := bounds + [i];
    } else {
      NoCut(line, delimiter, i, bounds, t.cells);
    }
  }

  lemma ReadToTheEnd(line: string, delimiter: char, bounds: seq<int>, t: Cutting)
    requires ReadUpTo(line, delimiter, |line|, bounds, t)
    ensures IsSplit(line, delimiter, t.Done())
  {
    assert t.Done()[..|t.cells|] == t.cells;
    assert CutThroughout(line, delimiter, bounds, t.Done());
  }

  /** The cutting loop. */
  method Split(line: string, delimiter: char) returns (cells: seq<string>)
    ensures IsSplit(line, delimiter, cells)
    ensures cells == Cut(START, line, delimiter).Done()
  {
    cells := [];
    var current: string, quoted := "", false;
    ghost var bounds: seq<int>, t := [-1], START;
    ReadNothing(line, delimiter);
    var i := 0;
    while i < |line|
      invariant 0 <= i <= |line|
      invariant t == Cutting(cells, current, quoted)
      invariant ReadUpTo(line, delimiter, i, bounds, t)
      invariant Cut(START, line, delimiter) == Cut(t, line[i..], delimiter)
    {
      var c := line[i];
      assert line[i..][1..] == line[i + 1..];
      bounds := ReadOneMore(line, delimiter, i, bounds, t);
      t := Next(t, c, delimiter);
      if c == '"' {
        quoted := !quoted;
      } else if c == delimiter && !quoted {
        cells := cells + [Trim(current)];
        current := "";
      } else {
        current := current + [c];
      }
      i := i + 1;
    }
    ReadToTheEnd(line, delimiter, bounds, t);
    cells := cells + [Trim(current)];
  }

  lemma {:induction false} AscendingUnique(a: seq<int>, b: seq<int>)
    requires Ascend(a) && Ascend(b) && forall x :: x in a <==> x in b
    ensures a == b
  {
    assert a != [] ==> a[0] in a && a[|a| - 1] in a;
    assert b != [] ==> b[0] in b && b[|b| - 1] in b;
    if a != [] {
      var m, n := |a| - 1, |b| - 1;
      assert a[m] in b && b[n] in a;
      assert a[m] == b[n];
      forall x ensures x in a[..m] <==> x in b[..n] {
        assert x in a[..m] <==> x in a && x != a[m];
        assert x in b[..n] <==> x in b && x != b[n];
      }
      AscendingUnique(a[..m], b[..n]);
      assert a == a[..m] + [a[m]] && b == b[..n] + [b[n]];
    }
  }

  lemma BoundsAgree(
    line: string, delimiter: char, x: seq<int>, a: seq<string>, y: seq<int>, b: seq<string>)
    requires CutThroughout(line, delimiter, x, a) && CutThroughout(line, delimiter, y, b)
    ensures x == y
  {
    assert x[0] in x && y[0] in y;
    forall m ensures m in x <==> m in y {
      if 0 <= m < |line| {
        assert m in x <==> IsBreak(line, delimiter, m);
        assert m in y <==> IsBreak(line, delimiter, m);
      }
    }
    AscendingUnique(x, y);
  }

  lemma CellsAgree(line: string, delimiter: char, x: seq<int>, a: seq<string>, b: seq<string>)
    requires CutThroughout(line, delimiter, x, a) && CutThroughout(line, delimiter, x, b)
    ensures a == b
  {
    var n := |a| - 1;
    forall k | 0 <= k < n ensures a[..n][k] == b[..n][k] {
      assert a[..n][k] == CellBetween(line, x[k], x[k + 1]);
      assert b[..n][k] == CellBetween(line, x[k], x[k + 1]);
    }
    assert a[..n] == b[..n];
    assert a == a[..n] + [a[n]] && b == b[..n] + [b[n]];
  }

  /** A line is cut in one way only. */
  lemma SplitIsUnique(line: string, delimiter: char, a: seq<string>, b: seq<string>)
    requires IsSplit(line, delimiter, a) && IsSplit(line, delimiter, b)
    ensures a == b
  {
    var x :| CutThroughout(line, delimiter, x, a);
    var y :| CutThroughout(line, delimiter, y, b);
    BoundsAgree(line, delimiter, x, a, y, b);
    CellsAgree(line, delimiter, x, a, b);
  }

  // ---------- trimming ----------

  predicate AllSpaces(s: string) { forall i :: 0 <= i < |s| ==> IsSpace(s[i]) }

  lemma {:induction false} StartIsTrimmed(s: string) returns (i: nat)
    ensures i <= |s| && TrimStart(s) == s[i..] && AllSpaces(s[..i])
    ensures i < |s| ==> !IsSpace(s[i])
  {
    i := 0;
    if s != "" && IsSpace(s[0]) {
      var rest := StartIsTrimmed(s[1..]);
      i := rest + 1;
      assert s[1..][rest..] == s[i..];
      assert forall k :: 0 < k < i ==> s[k] == s[1..][..rest][k - 1];
    }
  }

  lemma {:induction false} EndIsTrimmed(s: string) returns (j: nat)
    ensures j <= |s| && TrimEnd(s) == s[..j] && AllSpaces(s[j..])
    ensures j > 0 ==> !IsSpace(s[j - 1])
  {
    j := |s|;
    if s != "" && IsSpace(s[|s| - 1]) {
      j := EndIsTrimmed(s[..|s| - 1]);
      assert s[..|s| - 1][..j] == s[..j];
      assert forall k :: 0 <= k < |s| - j - 1 ==> s[j..][k] == s[..|s| - 1][j..][k];
    }
  }

  /** Trimming takes the spaces at both ends and nothing else. */
  lemma TrimMeans(s: string) returns (i: nat, j: nat)
    ensures i <= j <= |s| && Trim(s) == s[i..j] && AllSpaces(s[..i]) && AllSpaces(s[j..])
    ensures i < j ==> !IsSpace(s[i]) && !IsSpace(s[j - 1])
  {
    i := StartIsTrimmed(s);
    var kept := EndIsTrimmed(s[i..]);
    j := i + kept;
    assert s[i..][..kept] == s[i..j] && s[i..][kept..] == s[j..];
    assert kept > 0 ==> s[i..][kept - 1] == s[j - 1];
  }

  // ---------- round trip ----------

  const QUOTE: string := "\""

  predicate HasNoQuote(s: string) { forall i :: 0 <= i < |s| ==> s[i] != '"' }

  function Quoted(cell: string): string { QUOTE + cell + QUOTE }

  /** A cell as it stands in a line: in quotes, or plain. */
  datatype Written = Enclosed(cell: string) | Plain(cell: string)
  {
    function Text(): string { if Enclosed? then Quoted(cell) else cell }

    /** A plain cell has no delimiter in it, and neither has a quote. */
    predicate IsReadable(delimiter: char)
    {
      HasNoQuote(cell) && (Plain? ==> forall i :: 0 <= i < |cell| ==> cell[i] != delimiter)
    }
  }

  /** The cells of a line, with the delimiter between. */
  function Joined(cells: seq<Written>, delimiter: char): string
  {
    if cells == [] then ""
    else if |cells| == 1 then cells[0].Text()
    else cells[0].Text() + [delimiter] + Joined(cells[1..], delimiter)
  }

  function Trimmed(cells: seq<Written>): (r: seq<string>)
    ensures |r| == |cells| && forall i :: 0 <= i < |cells| ==> r[i] == Trim(cells[i].cell)
  {
    seq(|cells|, i requires 0 <= i < |cells| => Trim(cells[i].cell))
  }

  lemma {:induction false} CutInTwo(t: Cutting, a: string, b: string, delimiter: char)
    ensures Cut(t, a + b, delimiter) == Cut(Cut(t, a, delimiter), b, delimiter)
    decreases |a|
  {
    if a == "" {
      assert a + b == b;
    } else {
      assert (a + b)[1..] == a[1..] + b;
      CutInTwo(Next(t, a[0], delimiter), a[1..], b, delimiter);
    }
  }

  /** Inside quotes every character belongs to the cell, the delimiter too. */
  lemma {:induction false} InsideQuotes(t: Cutting, s: string, delimiter: char)
    requires t.quoted && HasNoQuote(s)
    ensures Cut(t, s, delimiter) == t.(current := t.current + s)
    decreases |s|
  {
    if s == "" {
      assert t.current + s == t.current;
    } else {
      var rest := s[1..];
      assert forall i :: 0 <= i < |rest| ==> rest[i] == s[i + 1];
      InsideQuotes(Next(t, s[0], delimiter), rest, delimiter);
      assert t.current + [s[0]] + rest == t.current + s;
    }
  }

  lemma QuotedIsOneCell(done: seq<string>, cell: string, delimiter: char)
    requires HasNoQuote(cell)
    ensures Cut(Cutting(done, "", false), Quoted(cell), delimiter) == Cutting(done, cell, false)
  {
    var start, open := Cutting(done, "", false), Cutting(done, "", true);
    CutInTwo(start, QUOTE + cell, QUOTE, delimiter);
    CutInTwo(start, QUOTE, cell, delimiter);
    assert QUOTE[1..] == "";
    assert Cut(start, QUOTE, delimiter) == open;
    InsideQuotes(open, cell, delimiter);
    assert "" + cell == cell;
    assert Cut(Cutting(done, cell, true), QUOTE, delimiter) == Cutting(done, cell, false);
  }

  /** A plain cell is read as it stands. */
  lemma {:induction false} PlainIsOneCell(t: Cutting, cell: string, delimiter: char)
    requires !t.quoted && Plain(cell).IsReadable(delimiter)
    ensures Cut(t, cell, delimiter) == t.(current := t.current + cell)
    decreases |cell|
  {
    if cell == "" {
      assert t.current + cell == t.current;
    } else {
      var rest := cell[1..];
      assert forall i :: 0 <= i < |rest| ==> rest[i] == cell[i + 1];
      PlainIsOneCell(Next(t, cell[0], delimiter), rest, delimiter);
      assert t.current + [cell[0]] + rest == t.current + cell;
    }
  }

  lemma WrittenIsOneCell(done: seq<string>, w: Written, delimiter: char)
    requires w.IsReadable(delimiter)
    ensures Cut(Cutting(done, "", false), w.Text(), delimiter) == Cutting(done, w.cell, false)
  {
    if w.Enclosed? {
      QuotedIsOneCell(done, w.cell, delimiter);
    } else {
      PlainIsOneCell(Cutting(done, "", false), w.cell, delimiter);
      assert "" + w.cell == w.cell;
    }
  }

  lemma CellThenRest(done: seq<string>, w: Written, rest: string, delimiter: char)
    requires w.IsReadable(delimiter) && delimiter != '"'
    ensures Cut(Cutting(done, "", false), w.Text() + [delimiter] + rest, delimiter)
         == Cut(Cutting(done + [Trim(w.cell)], "", false), rest, delimiter)
  {
    var start := Cutting(done, "", false);
    CutInTwo(start, w.Text() + [delimiter], rest, delimiter);
    CutInTwo(start, w.Text(), [delimiter], delimiter);
    WrittenIsOneCell(done, w, delimiter);
    assert [delimiter][1..] == "";
  }

  lemma {:induction false} JoinedIsCutBack(done: seq<string>, cells: seq<Written>, delimiter: char)
    requires cells != [] && delimiter != '"'
    requires forall i :: 0 <= i < |cells| ==> cells[i].IsReadable(delimiter)
    ensures Cut(Cutting(done, "", false), Joined(cells, delimiter), delimiter).Done() == done + Trimmed(cells)
    decreases |cells|
  {
    if |cells| == 1 {
      WrittenIsOneCell(done, cells[0], delimiter);
      assert Trimmed(cells) == [Trim(cells[0].cell)];
    } else {
      var next := done + [Trim(cells[0].cell)];
      CellThenRest(done, cells[0], Joined(cells[1..], delimiter), delimiter);
      JoinedIsCutBack(next, cells[1..], delimiter);
      assert next + Trimmed(cells[1..]) == done + Trimmed(cells);
    }
  }

  /**
   A line of cells, plain and quoted in any mixture, is cut back into those cells, trimmed: a delimiter inside
   quotes never moves the cells after it.
   */
  lemma SplitReadsBack(cells: seq<Written>, delimiter: char)
    requires cells != [] && delimiter != '"'
    requires forall i :: 0 <= i < |cells| ==> cells[i].IsReadable(delimiter)
    ensures Cut(START, Joined(cells, delimiter), delimiter).Done() == Trimmed(cells)
  {
    JoinedIsCutBack([], cells, delimiter);
    assert [] + Trimmed(cells) == Trimmed(cells);
  }
}
