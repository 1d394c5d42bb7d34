/**
 The status menu's line breaker: words laid on lines of a fixed number of columns, a word that
 does not fit a line split into pieces that do.
 */
module MenuWrap {
  import opened Text

  const WRAP_COLUMNS: nat := 56

  // ---- Columns and words ------------------------------------------------------------

  /** How wide the menu takes a character to be: the ranges below are the double-width ones. */
  function CharColumns(c: char): (w: nat)
    ensures 1 <= w <= 2
  {
    if Between(c, '\U{1100}', '\U{115F}')
       || Between(c, '\U{2E80}', '\U{A4CF}')
       || Between(c, '\U{AC00}', '\U{D7A3}')
       || Between(c, '\U{F900}', '\U{FAFF}')
       || Between(c, '\U{FE30}', '\U{FE6F}')
       || Between(c, '\U{FF00}', '\U{FF60}')
       || Between(c, '\U{FFE0}', '\U{FFE6}')
       || Between(c, '\U{20000}', '\U{3FFFD}')
    then 2 else 1
  }

  /** The double-width ranges, by code point. */
  const WIDE: seq<(int, int)> :=
    [(4352, 4447), (11904, 42191), (44032, 55203), (63744, 64255), (65072, 65135), (65280, 65376),
     (65504, 65510), (131072, 262141)]

  lemma ColumnsByCodePoint(c: char)
    ensures CharColumns(c) == 2 <==> exists i :: 0 <= i < |WIDE| && WIDE[i].0 <= c as int <= WIDE[i].1
  {
    if CharColumns(c) == 2 {
      assert WIDE[0].0 <= c as int <= WIDE[0].1 || WIDE[1].0 <= c as int <= WIDE[1].1
             || WIDE[2].0 <= c as int <= WIDE[2].1 || WIDE[3].0 <= c as int <= WIDE[3].1
             || WIDE[4].0 <= c as int <= WIDE[4].1 || WIDE[5].0 <= c as int <= WIDE[5].1
             || WIDE[6].0 <= c as int <= WIDE[6].1 || WIDE[7].0 <= c as int <= WIDE[7].1;
    }
  }

  function Columns(s: string): nat {
    if s == "" then 0 else Columns(s[..|s| - 1]) + CharColumns(s[|s| - 1])
  }

  /** How many characters before the first white space. */
  function Run(t: string): (k: nat)
    ensures k <= |t|
    ensures forall i :: 0 <= i < k ==> !Space(t[i])
    ensures k < |t| ==> Space(t[k])
  {
    if t == "" || Space(t[0]) then 0 else 1 + Run(t[1..])
  }

  predicate Word(s: string) {
    s != "" && forall i :: 0 <= i < |s| ==> !Space(s[i])
  }

  predicate AllWords(ws: seq<string>) {
    forall i :: 0 <= i < |ws| ==> Word(ws[i])
  }

  /** `split_whitespace`. */
  function Words(t: string): (ws: seq<string>)
    ensures AllWords(ws)
  {
    if t == "" then []
    else if Run(t) == 0 then Words(t[1..])
    else [t[..Run(t)]] + Words(t[Run(t)..])
  }

  // ---- Splitting a word -------------------------------------------------------------

  /** The pieces of `rest`, after `chunk` has been collected and is `width` columns wide. */
  function PiecesFrom(chunk: string, width: nat, rest: string): seq<string>
    decreases |rest|
  {
    if rest == "" then (if chunk == "" then [] else [chunk])
    else
      var w := CharColumns(rest[0]);
      if width + w > WRAP_COLUMNS then [chunk] + PiecesFrom([rest[0]], w, rest[1..])
      else PiecesFrom(chunk + [rest[0]], width + w, rest[1..])
  }

  /** The pieces a word is laid out in: itself, unless it is wider than a line. */
  function Chunks(word: string): seq<string> {
    if Columns(word) <= WRAP_COLUMNS then [word] else PiecesFrom("", 0, word)
  }

  method SplitWord(word: string) returns (out: seq<string>)
    ensures out == Chunks(word)
  {
    if Columns(word) <= WRAP_COLUMNS {
      return [word];
    }
    out := [];
    var chunk: string, width: nat := "", 0;
    for i := 0 to |word|
      invariant PiecesFrom("", 0, word) == out + PiecesFrom(chunk, width, word[i..])
    {
      var c := word[i];
      var w := CharColumns(c);
      assert word[i..][1..] == word[i + 1..];
      if width + w > WRAP_COLUMNS {
        assert out + ([chunk] + PiecesFrom([c], w, word[i + 1..])) == out + [chunk] + PiecesFrom([c], w, word[i + 1..]);
        out := out + [chunk];
        chunk, width := "", 0;
        assert chunk + [c] == [c];
      }
      chunk := chunk + [c];
      width := width + w;
    }
    if chunk != "" {
      out := out + [chunk];
    }
  }

  // ---- Laying pieces on lines ---------------------------------------------------------

  /** The columns of `cs` on one line, a space between neighbours. */
  function LineWidth(cs: seq<string>): nat {
    if cs == [] then 0
    else if |cs| == 1 then Columns(cs[0])
    else LineWidth(cs[..|cs| - 1]) + 1 + Columns(cs[|cs| - 1])
  }

  /** Lines of pieces: `line` is started, `cs` is still to be placed. */
  function Greedy(line: seq<string>, cs: seq<string>): seq<seq<string>>
    decreases |cs|
  {
    if cs == [] then (if line == [] then [] else [line])
    else if line != [] && LineWidth(line) + 1 + Columns(cs[0]) > WRAP_COLUMNS then [line] + Greedy([cs[0]], cs[1..])
    else Greedy(line + [cs[0]], cs[1..])
  }

  function AllChunks(ws: seq<string>): seq<string> {
    if ws == [] then [] else Chunks(ws[0]) + AllChunks(ws[1..])
  }

  function Rendered(layout: seq<seq<string>>): (lines: seq<string>)
    ensures |lines| == |layout|
    ensures forall i :: 0 <= i < |layout| ==> lines[i] == Join(layout[i], ' ')
  {
    seq(|layout|, i requires 0 <= i < |layout| => Join(layout[i], ' '))
  }

  /** Which pieces of the text share a line. */
  function Layout(t: string): seq<seq<string>> {
    Greedy([], AllChunks(Words(t)))
  }

  function Wrapped(t: string): string {
    Join(Rendered(Layout(t)), '\n')
  }

  method Wrap(text: string) returns (r: string)
    ensures r == Wrapped(text)
  {
    hide Ready, Chunks, Columns;
    var lines: seq<string> := [];
    var line: string, width: nat := "", 0;
    var words := Words(text);
    ghost var done: seq<seq<string>>, started: seq<string> := [], [];
    ghost var all := AllChunks(words);
    ReadyToStart(all);
    assert words[0..] == words;
    for i := 0 to |words|
      invariant Ready(all, done, started, AllChunks(words[i..]), lines, line, width)
    {
      var chunks := SplitWord(words[i]);
      ChunksArePieces(words[i]);
      ghost var after := AllChunks(words[i + 1..]);
      assert words[i..][1..] == words[i + 1..];
      assert chunks[0..] + after == chunks + after;
      for j := 0 to |chunks|
        invariant Ready(all, done, started, chunks[j..] + after, lines, line, width)
      {
        var chunk := chunks[j];
        var w := Columns(chunk);
        assert (chunks[j..] + after)[1..] == chunks[j + 1..] + after;
        PlaceOne(all, done, started, chunks[j..] + after, lines, line, width);
        if width > 0 && width + 1 + w > WRAP_COLUMNS {
          lines := lines + [line];
          line := "";
          width := 0;
          done := done + [started];
          started := [];
        }
        if width > 0 {
          line := line + " ";
          width := width + 1;
        }
        line := line + chunk;
        width := width + w;
        started := started + [chunk];
        assert [] + [chunk] == [chunk] && "" + chunk == chunk;
      }
      assert chunks[|chunks|..] + after == after;
    }
    assert words[|words|..] == [];
    ReadyToEnd(all, done, started, lines, line, width);
    if line != "" {
      lines := lines + [line];
    }
    return Join(lines, '\n');
  }

  /**
   The loop's state: the lines finished and the line started are what greedy placement makes of `all`
   up to the pieces `rest`, and `width` is the width of the line started.
   */
  ghost predicate Ready(all: seq<string>, done: seq<seq<string>>, started: seq<string>, rest: seq<string>,
                        lines: seq<string>, line: string, width: nat)
  {
    && Greedy([], all) == done + Greedy(started, rest)
    && lines == Rendered(done) && line == Join(started, ' ')
    && AllPieces(started) && width == LineWidth(started)
  }

  lemma ReadyToStart(all: seq<string>)
    ensures Ready(all, [], [], all, [], "", 0)
  {
    assert [] + Greedy([], all) == Greedy([], all);
  }

  lemma PlaceOne(all: seq<string>, done: seq<seq<string>>, started: seq<string>, rest: seq<string>,
                 lines: seq<string>, line: string, width: nat)
    requires Ready(all, done, started, rest, lines, line, width) && rest != [] && Piece(rest[0])
    ensures var c, w := rest[0], Columns(rest[0]);
            && (width > 0 && width + 1 + w > WRAP_COLUMNS ==>
                  Ready(all, done + [started], [c], rest[1..], lines + [line], c, w))
            && (width > 0 && width + 1 + w <= WRAP_COLUMNS ==>
                  Ready(all, done, started + [c], rest[1..], lines, line + " " + c, width + 1 + w))
            && (width == 0 ==> Ready(all, done, started + [c], rest[1..], lines, line + c, w))
  {
    PieceWidth(started);
    if width > 0 && width + 1 + Columns(rest[0]) > WRAP_COLUMNS {
      BreakLine(all, done, started, rest, lines, line, width);
    } else {
      ExtendLine(all, done, started, rest, lines, line, width);
    }
  }

  lemma BreakLine(all: seq<string>, done: seq<seq<string>>, started: seq<string>, rest: seq<string>,
                  lines: seq<string>, line: string, width: nat)
    requires Ready(all, done, started, rest, lines, line, width) && rest != [] && Piece(rest[0])
    requires started != [] && width + 1 + Columns(rest[0]) > WRAP_COLUMNS
    ensures Ready(all, done + [started], [rest[0]], rest[1..], lines + [line], rest[0], Columns(rest[0]))
  {
    hide Columns, Piece;
    var more := Greedy([rest[0]], rest[1..]);
    assert done + ([started] + more) == done + [started] + more;
    assert Rendered(done + [started]) == Rendered(done) + [Join(started, ' ')];
  }

  lemma ExtendLine(all: seq<string>, done: seq<seq<string>>, started: seq<string>, rest: seq<string>,
                   lines: seq<string>, line: string, width: nat)
    requires Ready(all, done, started, rest, lines, line, width) && rest != [] && Piece(rest[0])
    requires started == [] || width + 1 + Columns(rest[0]) <= WRAP_COLUMNS
    ensures var c, w := rest[0], Columns(rest[0]);
            if started == [] then Ready(all, done, started + [c], rest[1..], lines, line + c, w)
            else Ready(all, done, started + [c], rest[1..], lines, line + " " + c, width + 1 + w)
  {
    hide Columns, Piece, Rendered;
    var c := rest[0];
    assert (started + [c])[..|started|] == started;
    assert "" + c == c;
    if started != [] {
      JoinSnoc(started, c, ' ');
    }
  }

  lemma ReadyToEnd(all: seq<string>, done: seq<seq<string>>, started: seq<string>,
                   lines: seq<string>, line: string, width: nat)
    requires Ready(all, done, started, [], lines, line, width)
    ensures Rendered(Greedy([], all)) == if line == "" then lines else lines + [line]
  {
    JoinedNonEmpty(started);
    assert Rendered(done + [started]) == Rendered(done) + [Join(started, ' ')];
    assert done + [] == done;
  }

  // ---- Pieces ---------------------------------------------------------------------------

  /** A piece fits a line, is not empty and holds no white space. */
  predicate Piece(s: string) {
    Word(s) && Columns(s) <= WRAP_COLUMNS
  }

  predicate AllPieces(cs: seq<string>) {
    forall i :: 0 <= i < |cs| ==> Piece(cs[i])
  }

  lemma {:induction false} ColumnsAppend(s: string, t: string)
    ensures Columns(s + t) == Columns(s) + Columns(t)
  {
    if t == "" {
      assert s + t == s;
    } else {
      ColumnsAppend(s, t[..|t| - 1]);
      assert (s + t)[..|s + t| - 1] == s + t[..|t| - 1];
    }
  }

  lemma ColumnsPositive(s: string)
    requires s != ""
    ensures Columns(s) >= 1
  {
  }

  lemma {:induction false} PieceWidth(cs: seq<string>)
    requires AllPieces(cs)
    ensures LineWidth(cs) == 0 <==> cs == []
  {
    if cs != [] {
      ColumnsPositive(cs[|cs| - 1]);
    }
  }

  lemma JoinedNonEmpty(cs: seq<string>)
    requires AllPieces(cs)
    ensures Join(cs, ' ') == "" <==> cs == []
  {
  }

  /** What splitting does: nothing is lost, every piece fits, and only the last one may have room left. */
  ghost predicate SplitsInto(word: string, pieces: seq<string>) {
    && AllPieces(pieces) && Concat(pieces) == word
    && forall i :: 0 <= i < |pieces| - 1 ==> Columns(pieces[i]) >= WRAP_COLUMNS - 1
  }

  lemma {:induction false} PiecesSplit(chunk: string, rest: string)
    requires Word(chunk + rest) && Columns(chunk) <= WRAP_COLUMNS
    ensures SplitsInto(chunk + rest, PiecesFrom(chunk, Columns(chunk), rest))
    decreases |rest|
  {
    var width := Columns(chunk);
    if rest == "" {
      assert chunk + rest == chunk;
      assert [chunk][1..] == [];
      assert Concat([chunk]) == chunk + Concat([]);
    } else {
      var c, w, tail := rest[0], CharColumns(rest[0]), rest[1..];
      var whole := chunk + rest;
      OneColumn(c);
      if width + w > WRAP_COLUMNS {
        assert whole[|chunk|..] == [c] + tail;
        SubWord(whole, 0, |chunk|);
        SubWord(whole, |chunk|, |whole|);
        PiecesSplit([c], tail);
        var more := PiecesFrom([c], w, tail);
        assert ([chunk] + more)[1..] == more;
        assert whole == chunk + ([c] + tail);
      } else {
        ColumnsAppend(chunk, [c]);
        assert chunk + [c] + tail == whole;
        PiecesSplit(chunk + [c], tail);
      }
    }
  }

  lemma OneColumn(c: char)
    ensures Columns([c]) == CharColumns(c)
  {
    assert [c][..0] == "";
    assert Columns([c]) == Columns("") + CharColumns(c);
  }

  lemma SubWord(s: string, i: nat, j: nat)
    requires Word(s) && i < j <= |s|
    ensures Word(s[i..j])
  {
    assert forall k :: 0 <= k < j - i ==> s[i..j][k] == s[i + k];
  }

  lemma ChunksArePieces(word: string)
    requires Word(word)
    ensures SplitsInto(word, Chunks(word))
  {
    if Columns(word) <= WRAP_COLUMNS {
      assert [word][1..] == [];
      assert Concat([word]) == word + Concat([]);
    } else {
      assert "" + word == word;
      PiecesSplit("", word);
    }
  }

  lemma {:induction false} AllChunksArePieces(ws: seq<string>)
    requires AllWords(ws)
    ensures AllPieces(AllChunks(ws))
    ensures Concat(AllChunks(ws)) == Concat(ws)
  {
    if ws != [] {
      ChunksArePieces(ws[0]);
      AllChunksArePieces(ws[1..]);
      ConcatAppend(Chunks(ws[0]), AllChunks(ws[1..]));
    }
  }

  /** A word that fits a line is never split. */
  lemma {:induction false} FittingWordsStay(ws: seq<string>)
    requires AllPieces(ws)
    ensures AllChunks(ws) == ws
  {
    if ws != [] {
      FittingWordsStay(ws[1..]);
      assert ws == [ws[0]] + ws[1..];
    }
  }

  // ---- Greedy placement is a layout, and no layout has fewer lines --------------------------

  /** One way to lay the pieces `cs` on lines within the budget. */
  ghost predicate Lays(layout: seq<seq<string>>, cs: seq<string>) {
    && Concat(layout) == cs
    && forall i :: 0 <= i < |layout| ==> layout[i] != [] && LineWidth(layout[i]) <= 56
  }

  lemma LaysNothing()
    ensures Lays([], [])
  {
  }

  lemma LaysCons(line: seq<string>, more: seq<seq<string>>, cs: seq<string>)
    requires line != [] && LineWidth(line) <= WRAP_COLUMNS && Lays(more, cs)
    ensures Lays([line] + more, line + cs)
  {
    assert ([line] + more)[1..] == more;
  }

  lemma {:induction false} GreedyLays(line: seq<string>, cs: seq<string>)
    requires AllPieces(line) && AllPieces(cs) && LineWidth(line) <= WRAP_COLUMNS
    ensures Lays(Greedy(line, cs), line + cs)
    decreases |cs|
  {
    hide Lays;
    if cs == [] {
      assert line + cs == line;
      LaysNothing();
      if line != [] {
        LaysCons(line, [], []);
        assert [line] + [] == [line];
      }
    } else if line != [] && LineWidth(line) + 1 + Columns(cs[0]) > WRAP_COLUMNS {
      GreedyLays([cs[0]], cs[1..]);
      assert [cs[0]] + cs[1..] == cs;
      LaysCons(line, Greedy([cs[0]], cs[1..]), cs);
    } else {
      assert (line + [cs[0]])[..|line|] == line;
      GreedyLays(line + [cs[0]], cs[1..]);
      assert line + [cs[0]] + cs[1..] == line + cs;
    }
  }

  /** How many pieces greedy placement puts on the first line. */
  ghost function Fill(line: seq<string>, cs: seq<string>): (k: nat)
    ensures |line| <= k <= |line| + |cs|
    decreases |cs|
  {
    if cs == [] || (line != [] && LineWidth(line) + 1 + Columns(cs[0]) > WRAP_COLUMNS) then |line|
    else Fill(line + [cs[0]], cs[1..])
  }

  lemma {:induction false} GreedyFirstLine(line: seq<string>, cs: seq<string>)
    requires line + cs != []
    ensures var k := Fill(line, cs);
            k > 0 && Greedy(line, cs) == [(line + cs)[..k]] + Greedy([], (line + cs)[k..])
    decreases |cs|
  {
    var all, k := line + cs, Fill(line, cs);
    if cs == [] {
      assert all == line && all[..k] == line && all[k..] == [];
      assert [line] + [] == [line];
    } else if line != [] && LineWidth(line) + 1 + Columns(cs[0]) > WRAP_COLUMNS {
      assert all[..k] == line && all[k..] == cs;
      assert [] + [cs[0]] == [cs[0]];
    } else {
      GreedyFirstLine(line + [cs[0]], cs[1..]);
      assert line + [cs[0]] + cs[1..] == all;
    }
  }

  lemma {:induction false} WiderWithMore(cs: seq<string>, j: nat)
    requires j <= |cs|
    ensures LineWidth(cs[..j]) <= LineWidth(cs)
    decreases |cs|
  {
    if j < |cs| {
      WiderWithMore(cs[..|cs| - 1], j);
      assert cs[..|cs| - 1][..j] == cs[..j];
    } else {
      assert cs[..j] == cs;
    }
  }

  lemma {:induction false} NarrowerFromLater(cs: seq<string>, i: nat)
    requires i <= |cs|
    ensures LineWidth(cs[i..]) <= LineWidth(cs)
    decreases |cs|
  {
    if i < |cs| && |cs| > 1 {
      NarrowerFromLater(cs[..|cs| - 1], if i < |cs| then i else 0);
      if i < |cs| - 1 {
        assert cs[i..][..|cs[i..]| - 1] == cs[..|cs| - 1][i..];
      } else {
        assert cs[i..] == [cs[i]];
      }
    } else if i == 0 {
      assert cs[0..] == cs;
    }
  }

  /** The first line takes every prefix that fits. */
  lemma {:induction false} FillIsMaximal(line: seq<string>, cs: seq<string>, j: nat)
    requires j <= |line| + |cs| && LineWidth((line + cs)[..j]) <= WRAP_COLUMNS
    ensures j <= Fill(line, cs)
    decreases |cs|
  {
    if j > |line| {
      var all := line + cs;
      WiderWithMore(all[..j], |line| + 1);
      assert all[..j][..|line| + 1] == line + [cs[0]];
      assert (line + [cs[0]])[..|line|] == line;
      assert line + [cs[0]] + cs[1..] == all;
      FillIsMaximal(line + [cs[0]], cs[1..], j);
    }
  }

  lemma GreedyNothing()
    ensures Greedy([], []) == []
  {
  }

  /**
   Greedy placement of what is left after the first `i` pieces needs no more lines than any layout
   of them all.
   */
  lemma {:induction false} GreedyStaysAhead(cs: seq<string>, i: nat, layout: seq<seq<string>>)
    requires i <= |cs| && Lays(layout, cs)
    ensures |Greedy([], cs[i..])| <= |layout|
    decreases |layout|
  {
    hide Greedy, Fill, LineWidth;
    var mine := cs[i..];
    if mine == [] {
      GreedyNothing();
    } else {
      assert layout != [];
      var first, others := layout[0], layout[1..];
      assert cs == first + Concat(others);
      var theirs := cs[|first|..];
      assert theirs == Concat(others);
      assert Lays(others, theirs);
      GreedyFirstLine([], mine);
      var k := Fill([], mine);
      assert [] + mine == mine;
      if i < |first| {
        var j := |first| - i;
        NarrowerFromLater(first, i);
        assert mine[..j] == first[i..];
        FillIsMaximal([], mine, j);
      }
      assert i + k >= |first|;
      assert mine[k..] == theirs[i + k - |first|..];
      GreedyStaysAhead(theirs, i + k - |first|, others);
    }
  }

  /** The wrapped text is a layout of its pieces on lines of at most 56 columns, and none has fewer lines. */
  lemma LayoutIsMinimal(t: string, layout: seq<seq<string>>)
    ensures Lays(Layout(t), AllChunks(Words(t)))
    ensures Lays(layout, AllChunks(Words(t))) ==> |Layout(t)| <= |layout|
  {
    var cs := AllChunks(Words(t));
    AllChunksArePieces(Words(t));
    GreedyLays([], cs);
    assert [] + cs == cs;
    if Lays(layout, cs) {
      GreedyStaysAhead(cs, 0, layout);
      assert cs[0..] == cs;
    }
  }

  // ---- Reading the wrapped text again ----------------------------------------------------

  lemma {:induction false} RunOf(a: string, s: char, b: string)
    requires Space(s)
    ensures Run(a + [s] + b) == Run(a)
  {
    var t := a + [s] + b;
    if a == "" {
      assert t[0] == s;
    } else {
      assert t[0] == a[0] && t[1..] == a[1..] + [s] + b;
      RunOf(a[1..], s, b);
    }
  }

  /** White space separates words wherever it stands. */
  lemma {:induction false} WordsSplit(a: string, s: char, b: string)
    requires Space(s)
    ensures Words(a + [s] + b) == Words(a) + Words(b)
    decreases |a|
  {
    var t := a + [s] + b;
    RunOf(a, s, b);
    var k := Run(a);
    if a == "" {
      assert t[1..] == b;
      assert Words(a) + Words(b) == Words(b);
    } else if k == 0 {
      assert t[1..] == a[1..] + [s] + b;
      WordsSplit(a[1..], s, b);
    } else {
      assert t[..k] == a[..k] && t[k..] == a[k..] + [s] + b;
      WordsSplit(a[k..], s, b);
      assert [a[..k]] + (Words(a[k..]) + Words(b)) == [a[..k]] + Words(a[k..]) + Words(b);
    }
  }

  lemma WordIsItself(w: string)
    requires Word(w)
    ensures Words(w) == [w]
  {
    var k := Run(w);
    assert k == |w|;
    assert w[..k] == w && w[k..] == "";
    assert [w] + [] == [w];
  }

  /** The words of joined texts are the words of each, whatever white space joins them. */
  lemma {:induction false} WordsOfJoined(ss: seq<string>, sep: char)
    requires Space(sep)
    ensures Words(Join(ss, sep)) == Concat(WordsOfEach(ss))
  {
    hide Words;
    if ss == [] {
      assert Words("") == [] by { NoWords(); }
    } else if |ss| == 1 {
      ConcatSnoc([], Words(ss[0]));
      assert WordsOfEach(ss) == [] + [Words(ss[0])];
    } else {
      var init, last := ss[..|ss| - 1], ss[|ss| - 1];
      WordsOfJoined(init, sep);
      WordsSplit(Join(init, sep), sep, last);
      JoinSnoc(init, last, sep);
      assert ss == init + [last];
      assert WordsOfEach(ss) == WordsOfEach(init) + [Words(last)];
      ConcatSnoc(WordsOfEach(init), Words(last));
    }
  }

  lemma NoWords()
    ensures Words("") == []
  {
  }

  ghost function WordsOfEach(ss: seq<string>): (r: seq<seq<string>>)
    ensures |r| == |ss|
    ensures forall i :: 0 <= i < |ss| ==> r[i] == Words(ss[i])
  {
    seq(|ss|, i requires 0 <= i < |ss| => Words(ss[i]))
  }

  lemma {:induction false} ConcatOfSingles(ws: seq<string>)
    requires AllWords(ws)
    ensures Concat(WordsOfEach(ws)) == ws
  {
    if ws != [] {
      WordIsItself(ws[0]);
      ConcatOfSingles(ws[1..]);
      assert WordsOfEach(ws)[1..] == WordsOfEach(ws[1..]);
      assert ws == [ws[0]] + ws[1..];
    }
  }

  lemma LineWords(line: seq<string>)
    requires AllWords(line)
    ensures Words(Join(line, ' ')) == line
  {
    WordsOfJoined(line, ' ');
    ConcatOfSingles(line);
  }

  lemma {:induction false} LinesHoldPieces(layout: seq<seq<string>>, i: nat)
    requires AllPieces(Concat(layout)) && i < |layout|
    ensures AllPieces(layout[i])
  {
    var whole := layout[0] + Concat(layout[1..]);
    if i == 0 {
      assert forall k :: 0 <= k < |layout[0]| ==> layout[0][k] == whole[k];
    } else {
      assert forall k :: 0 <= k < |Concat(layout[1..])| ==> Concat(layout[1..])[k] == whole[|layout[0]| + k];
      LinesHoldPieces(layout[1..], i - 1);
    }
  }

  /** The words of the wrapped text are exactly the pieces that were laid out, in order. */
  lemma WordsOfWrapped(t: string)
    ensures Words(Wrapped(t)) == AllChunks(Words(t))
  {
    var layout := Layout(t);
    LayoutIsMinimal(t, layout);
    AllChunksArePieces(Words(t));
    WordsOfJoined(Rendered(layout), '\n');
    forall i | 0 <= i < |layout| ensures Words(Rendered(layout)[i]) == layout[i] {
      LinesHoldPieces(layout, i);
      LineWords(layout[i]);
    }
    assert WordsOfEach(Rendered(layout)) == layout;
  }

  /** Wrapping wrapped text changes nothing. */
  lemma WrapIsIdempotent(t: string)
    ensures Wrapped(Wrapped(t)) == Wrapped(t)
  {
    hide Wrapped;
    WordsOfWrapped(t);
    AllChunksArePieces(Words(t));
    FittingWordsStay(AllChunks(Words(t)));
    WrappedByPieces(t, Wrapped(t));
  }

  lemma WrappedByPieces(t: string, t': string)
    requires AllChunks(Words(t)) == AllChunks(Words(t'))
    ensures Wrapped(t) == Wrapped(t')
  {
  }

  // ---- What the reader of the menu sees ----------------------------------------------------

  /** The lines of a text, as `str::lines` breaks it at line feeds. */
  function Lines(t: string): seq<string> {
    if t == "" then [] else Split(t, '\n')
  }

  lemma {:induction false} RenderedLine(line: seq<string>)
    requires AllPieces(line)
    ensures Columns(Join(line, ' ')) == LineWidth(line)
    ensures forall k :: 0 <= k < |Join(line, ' ')| ==> Join(line, ' ')[k] != '\n'
  {
    if |line| > 1 {
      var init, last := line[..|line| - 1], line[|line| - 1];
      RenderedLine(init);
      OneColumn(' ');
      JoinSnoc(init, last, ' ');
      assert line == init + [last];
      ColumnsAppend(Join(init, ' '), " ");
      ColumnsAppend(Join(init, ' ') + " ", last);
    }
  }

  /** Every line shown is one line of the layout and has at most 56 columns. */
  lemma LinesFit(t: string)
    ensures Lines(Wrapped(t)) == Rendered(Layout(t))
    ensures forall i :: 0 <= i < |Lines(Wrapped(t))| ==> Columns(Lines(Wrapped(t))[i]) <= 56
  {
    var layout := Layout(t);
    LayoutIsMinimal(t, layout);
    AllChunksArePieces(Words(t));
    forall i | 0 <= i < |layout|
      ensures Columns(Rendered(layout)[i]) == LineWidth(layout[i])
      ensures Rendered(layout)[i] != ""
      ensures forall k :: 0 <= k < |Rendered(layout)[i]| ==> Rendered(layout)[i][k] != '\n'
    {
      LinesHoldPieces(layout, i);
      RenderedLine(layout[i]);
      JoinedNonEmpty(layout[i]);
    }
    if layout != [] {
      SplitJoin(Rendered(layout), '\n');
      assert Wrapped(t) != "";
    }
  }

  /** The characters that are not white space, in order. */
  function Visible(t: string): string {
    if t == "" then "" else (if Space(t[0]) then "" else [t[0]]) + Visible(t[1..])
  }

  lemma {:induction false} VisibleWord(a: string, b: string)
    requires forall i :: 0 <= i < |a| ==> !Space(a[i])
    ensures Visible(a + b) == a + Visible(b)
  {
    if a == "" {
      assert a + b == b;
    } else {
      VisibleWord(a[1..], b);
      assert (a + b)[1..] == a[1..] + b && (a + b)[0] == a[0];
      assert [a[0]] + (a[1..] + Visible(b)) == a + Visible(b);
    }
  }

  lemma {:induction false} VisibleIsWords(t: string)
    ensures Visible(t) == Concat(Words(t))
    decreases |t|
  {
    hide Space, Run;
    if t != "" {
      var k := Run(t);
      if k == 0 {
        VisibleIsWords(t[1..]);
        assert Visible(t) == "" + Visible(t[1..]);
      } else {
        var word, rest := t[..k], t[k..];
        VisibleIsWords(rest);
        VisibleWord(word, rest);
        assert t == word + rest;
        ConcatCons(word, Words(rest));
      }
    }
  }

  /** Every visible character comes out, in order, and nothing else visible does. */
  lemma VisibleIsKept(t: string)
    ensures Visible(Wrapped(t)) == Visible(t)
  {
    VisibleIsWords(t);
    VisibleIsWords(Wrapped(t));
    WordsOfWrapped(t);
    AllChunksArePieces(Words(t));
  }

  lemma NeighbourTakesRoom(line: seq<string>, k: nat)
    requires AllPieces(line) && k < |line| && |line| > 1
    ensures LineWidth(line) >= Columns(line[k]) + 2
  {
    var i := if k == 0 then 0 else k - 1;
    NarrowerFromLater(line, i);
    WiderWithMore(line[i..], 2);
    var two := line[i..][..2];
    assert two == [line[i], line[i + 1]];
    assert two[..1] == [line[i]];
    ColumnsPositive(line[i]);
    ColumnsPositive(line[i + 1]);
  }

  /**
   A piece of a split word that is not its last stands alone on its line, so what separates it from
   the next piece of the word is a line break and never a space.
   */
  lemma SplitPiecesStandAlone(t: string, w: nat, p: nat, i: nat, k: nat)
    requires w < |Words(t)| && p + 1 < |Chunks(Words(t)[w])|
    requires i < |Layout(t)| && k < |Layout(t)[i]| && Layout(t)[i][k] == Chunks(Words(t)[w])[p]
    ensures Layout(t)[i] == [Chunks(Words(t)[w])[p]]
  {
    LayoutIsMinimal(t, Layout(t));
    AllChunksArePieces(Words(t));
    LinesHoldPieces(Layout(t), i);
    ChunksArePieces(Words(t)[w]);
    if |Layout(t)[i]| > 1 {
      NeighbourTakesRoom(Layout(t)[i], k);
    }
  }
}
