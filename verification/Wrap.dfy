// The word wrapper of print_context_box (coping_ai.c): greedy filling of lines of 66 columns.
module Wrap {

  const COLS := 66
  const LINE_SIZE := 256
  const NUL := '\0'

  // ---------- Words ----------

  predicate Separator(c: char) {
    c == ' ' || c == '\n'
  }

  predicate IsWord(w: string) {
    w != "" && forall c | c in w :: !Separator(c)
  }

  /** Length of the word at the front. */
  function WordLength(t: string): (n: nat)
    ensures n <= |t| && (forall c | c in t[..n] :: !Separator(c)) && (n < |t| ==> Separator(t[n]))
  {
    if |t| == 0 || Separator(t[0]) then 0
    else
      assert forall c | c in t[..1 + WordLength(t[1..])] :: c == t[0] || c in t[1..][..WordLength(t[1..])];
      1 + WordLength(t[1..])
  }

  /** The words of a text, separated by any number of spaces and newlines. */
  function Words(t: string): seq<string> {
    if |t| == 0 then []
    else if Separator(t[0]) then Words(t[1..])
    else [t[..WordLength(t)]] + Words(t[WordLength(t)..])
  }

  lemma {:induction false} WordLengthIs(w: string, t: string)
    requires (forall c | c in w :: !Separator(c)) && (t == "" || Separator(t[0]))
    ensures WordLength(w + t) == |w|
  {
    if |w| == 0 {
      assert w + t == t;
    } else {
      assert w[0] in w && (w + t)[1..] == w[1..] + t;
      WordLengthIs(w[1..], t);
    }
  }

  lemma WordFront(w: string, t: string)
    requires IsWord(w) && (t == "" || Separator(t[0]))
    ensures Words(w + t) == [w] + Words(t)
  {
    WordLengthIs(w, t);
    assert w[0] in w;
    assert (w + t)[..|w|] == w && (w + t)[|w|..] == t;
  }

  lemma {:induction false} WordsSnoc(t: string, w: string)
    requires IsWord(w)
    ensures Words(t + " " + w) == Words(t) + [w]
    decreases |t|
  {
    var u := t + " " + w;
    if |t| == 0 {
      assert u[1..] == w;
      WordFront(w, "");
      assert w + "" == w;
    } else if Separator(t[0]) {
      assert u[1..] == t[1..] + " " + w;
      WordsSnoc(t[1..], w);
    } else {
      var n := WordLength(t);
      var rest := t[n..] + " " + w;
      assert u == t[..n] + rest;
      WordFront(t[..n], rest);
      WordsSnoc(t[n..], w);
    }
  }

  lemma {:induction false} WordsAreWords(t: string)
    ensures forall w | w in Words(t) :: IsWord(w) && forall c | c in w :: c in t
    decreases |t|
  {
    if |t| > 0 {
      var n := if Separator(t[0]) then 1 else WordLength(t);
      WordsAreWords(t[n..]);
      assert forall c | c in t[n..] || c in t[..n] :: c in t;
    }
  }

  // ---------- Lines ----------

  type Line = seq<string>

  /** Columns a line of words takes, with single spaces between them. */
  function Width(g: Line): nat {
    if |g| == 0 then 0
    else if |g| == 1 then |g[0]|
    else Width(g[..|g| - 1]) + 1 + |g[|g| - 1]|
  }

  function Text(g: Line): (t: string)
    ensures |t| == Width(g)
  {
    if |g| == 0 then ""
    else if |g| == 1 then g[0]
    else Text(g[..|g| - 1]) + " " + g[|g| - 1]
  }

  /** What the line buffer can show: its last byte is always the terminator. */
  function Shown(g: Line): string {
    if |Text(g)| < LINE_SIZE then Text(g) else Text(g)[..LINE_SIZE - 1]
  }

  function Concat(gs: seq<Line>): seq<string> {
    if |gs| == 0 then [] else Concat(gs[..|gs| - 1]) + gs[|gs| - 1]
  }

  /** A line holds at least one word, and more than one only within the columns. */
  predicate Fitting(g: Line) {
    |g| > 0 && (|g| > 1 ==> Width(g) <= COLS)
  }

  /** A wrapping of words: all of them, in order, in fitting lines. */
  predicate Wrapping(gs: seq<Line>, ws: seq<string>) {
    Concat(gs) == ws && forall g | g in gs :: Fitting(g)
  }

  predicate RoomFor(g: Line, w: string) {
    Width(g) + 1 + |w| <= COLS
  }

  /** The next word goes on the last line when there is room, else on a new one. */
  function Place(gs: seq<Line>, w: string): seq<Line> {
    var n := |gs| - 1;
    if |gs| > 0 && RoomFor(gs[n], w) then gs[..n] + [gs[n] + [w]] else gs + [[w]]
  }

  function Fill(ws: seq<string>): seq<Line> {
    if |ws| == 0 then [] else Place(Fill(ws[..|ws| - 1]), ws[|ws| - 1])
  }

  lemma FillSnoc(ws: seq<string>, w: string)
    ensures Fill(ws + [w]) == Place(Fill(ws), w)
  {
    assert (ws + [w])[..|ws|] == ws;
  }

  lemma NoFill()
    ensures Fill([]) == [] && Wrapping(Fill([]), [])
  {
  }

  lemma NoText()
    ensures Width([]) == 0 && Text([]) == ""
  {
  }

  lemma TextOfOne(w: string)
    ensures Width([w]) == |w| && Text([w]) == w
  {
  }

  lemma PlaceNew(gs: seq<Line>, w: string)
    requires gs == [] || !RoomFor(gs[|gs| - 1], w)
    ensures Place(gs, w) == gs + [[w]]
  {
  }

  lemma PlaceBehind(gs: seq<Line>, g: Line, w: string)
    requires RoomFor(g, w)
    ensures Place(gs + [g], w) == gs + [g + [w]]
  {
    assert (gs + [g])[..|gs|] == gs;
  }

  lemma ConcatSnoc(gs: seq<Line>, g: Line)
    ensures Concat(gs + [g]) == Concat(gs) + g
  {
    assert (gs + [g])[..|gs|] == gs;
  }

  lemma WidthSnoc(g: Line, w: string)
    requires |g| > 0
    ensures Width(g + [w]) == Width(g) + 1 + |w| && Text(g + [w]) == Text(g) + " " + w
  {
    assert (g + [w])[..|g|] == g;
  }

  /** Greedy filling is a wrapping. */
  lemma {:induction false} FillWraps(ws: seq<string>)
    ensures Wrapping(Fill(ws), ws)
  {
    hide Fill, Place, Wrapping;
    NoFill();
    if |ws| > 0 {
      var before, w := ws[..|ws| - 1], ws[|ws| - 1];
      FillWraps(before);
      FillSnoc(before, w);
      PlaceWraps(Fill(before), before, w);
      assert before + [w] == ws;
    }
  }

  lemma PlaceWraps(gs: seq<Line>, ws: seq<string>, w: string)
    requires Wrapping(gs, ws)
    ensures Wrapping(Place(gs, w), ws + [w])
  {
    hide Width, Concat;
    var n := |gs| - 1;
    if |gs| > 0 && RoomFor(gs[n], w) {
      assert gs[n] in gs && gs[..n] + [gs[n]] == gs;
      WidthSnoc(gs[n], w);
      ConcatSnoc(gs[..n], gs[n]);
      ConcatSnoc(gs[..n], gs[n] + [w]);
      assert Concat(gs[..n]) + (gs[n] + [w]) == ws + [w];
    } else {
      OneWord(w);
      ConcatSnoc(gs, [w]);
    }
  }

  lemma OneWord(w: string)
    ensures Fitting([w])
  {
  }

  // ---------- No wrapping has fewer lines ----------

  lemma {:induction false} SuffixNarrower(g: Line, k: nat)
    requires k < |g|
    ensures Width(g[k..]) <= Width(g)
  {
    if k > 0 && |g| > 1 {
      var n := |g| - 1;
      if k < n {
        SuffixNarrower(g[..n], k);
        assert g[k..][..|g[k..]| - 1] == g[..n][k..];
      } else {
        assert g[k..] == [g[n]];
      }
    } else {
      assert g[k..] == g;
    }
  }

  /** The last line of a wrapping is the end of the text. */
  lemma LastLine(gs: seq<Line>, ws: seq<string>)
    requires Wrapping(gs, ws) && |gs| > 0
    ensures var g := gs[|gs| - 1];
            0 < |g| <= |ws| && ws[|ws| - |g|..] == g && Fitting(g) && Wrapping(gs[..|gs| - 1], ws[..|ws| - |g|])
  {
    var g := gs[|gs| - 1];
    assert g in gs;
    assert ws == Concat(gs[..|gs| - 1]) + g;
  }

  /** No wrapping is shorter than the greedy one, nor as short with a shorter last line. */
  lemma {:induction false} GreedyStaysAhead(ws: seq<string>, gs: seq<Line>)
    requires Wrapping(gs, ws)
    ensures |Fill(ws)| <= |gs|
    ensures |Fill(ws)| == |gs| > 0 ==> |Fill(ws)[|gs| - 1]| <= |gs[|gs| - 1]|
    decreases |ws|
  {
    hide Fill, Wrapping, Width, Concat;
    NoFill();
    if |ws| > 0 {
      var before, w := ws[..|ws| - 1], ws[|ws| - 1];
      assert before + [w] == ws;
      WrapsSome(gs, ws);
      LastLine(gs, ws);
      var n := |gs| - 1;
      var g := gs[n];
      FillSnoc(before, w);
      FillWraps(before);
      if |g| == 1 {
        assert ws[..|ws| - |g|] == before;
        GreedyStaysAhead(before, gs[..n]);
      } else {
        Shortened(gs, ws);
        GreedyStaysAhead(before, gs[..n] + [g[..|g| - 1]]);
        if |Fill(before)| == |gs| {
          LastFits(before, w, Fill(before), g);
        }
      }
    }
  }

  lemma WrapsSome(gs: seq<Line>, ws: seq<string>)
    requires Wrapping(gs, ws) && |ws| > 0
    ensures |gs| > 0
  {
  }

  lemma Shortened(gs: seq<Line>, ws: seq<string>)
    requires Wrapping(gs, ws) && |gs| > 0 && |gs[|gs| - 1]| > 1
    ensures var n := |gs| - 1;
            Wrapping(gs[..n] + [gs[n][..|gs[n]| - 1]], ws[..|ws| - 1])
  {
    var n := |gs| - 1;
    var g := gs[n];
    var h := g[..|g| - 1];
    assert g in gs && h + [g[|g| - 1]] == g;
    WidthSnoc(h, g[|g| - 1]);
    ConcatSnoc(gs[..n], h);
    assert ws == Concat(gs[..n]) + g;
    assert ws[..|ws| - 1] == Concat(gs[..n]) + h;
  }

  /** Where another wrapping has room for w after a line that contains the greedy one, so has greedy. */
  lemma LastFits(before: seq<string>, w: string, fb: seq<Line>, g: Line)
    requires Wrapping(fb, before) && |fb| > 0 && |g| > 1 && Fitting(g)
    requires |g| <= |before| + 1 && g == (before + [w])[|before| + 1 - |g|..]
    requires |fb[|fb| - 1]| <= |g| - 1
    ensures RoomFor(fb[|fb| - 1], w)
  {
    LastLine(fb, before);
    var last := fb[|fb| - 1];
    var k := |g| - 1 - |last|;
    assert g[k..] == last + [w];
    SuffixNarrower(g, k);
    WidthSnoc(last, w);
  }

  /** Greedy filling uses the fewest possible lines. */
  lemma FewestLines(ws: seq<string>, gs: seq<Line>)
    requires Wrapping(gs, ws)
    ensures |Fill(ws)| <= |gs|
  {
    GreedyStaysAhead(ws, gs);
  }

  // ---------- What the reader sees ----------

  function ShownLines(gs: seq<Line>): seq<string> {
    seq(|gs|, i requires 0 <= i < |gs| => Shown(gs[i]))
  }

  function AllWords(lines: seq<string>): seq<string> {
    if |lines| == 0 then [] else AllWords(lines[..|lines| - 1]) + Words(lines[|lines| - 1])
  }

  lemma {:induction false} WordsOfText(g: Line)
    requires forall w | w in g :: IsWord(w)
    ensures Words(Text(g)) == g
  {
    if |g| == 1 {
      WordFront(g[0], "");
      assert g[0] + "" == g[0];
    } else if |g| > 1 {
      var n := |g| - 1;
      WordsOfText(g[..n]);
      WordsSnoc(Text(g[..n]), g[n]);
      assert g[..n] + [g[n]] == g;
    }
  }

  /** What the line buffer leaves of a word. */
  function Cut(w: string): string {
    if |w| < LINE_SIZE then w else w[..LINE_SIZE - 1]
  }

  function CutWords(ws: seq<string>): seq<string> {
    seq(|ws|, i requires 0 <= i < |ws| => Cut(ws[i]))
  }

  lemma {:induction false} WordsWithinWidth(g: Line)
    ensures forall w | w in g :: |w| <= Width(g)
  {
    if |g| > 1 {
      WordsWithinWidth(g[..|g| - 1]);
    }
  }

  lemma WordsShown(g: Line)
    requires Fitting(g) && forall w | w in g :: IsWord(w)
    ensures Words(Shown(g)) == CutWords(g)
  {
    WordsWithinWidth(g);
    if Width(g) < LINE_SIZE {
      WordsOfText(g);
      assert CutWords(g) == g;
    } else {
      var w := g[0];
      assert g == [w] && w in g && Shown(g) == Cut(w);
      assert forall c | c in Cut(w) :: c in w;
      WordFront(Cut(w), "");
      assert Cut(w) + "" == Cut(w);
    }
  }

  lemma CutConcat(v: seq<string>, w: seq<string>)
    ensures CutWords(v + w) == CutWords(v) + CutWords(w)
  {
  }

  lemma LastShown(gs: seq<Line>)
    requires |gs| > 0
    ensures var n := |gs| - 1;
            AllWords(ShownLines(gs)) == AllWords(ShownLines(gs[..n])) + Words(Shown(gs[n]))
  {
    assert ShownLines(gs)[..|gs| - 1] == ShownLines(gs[..|gs| - 1]);
  }

  lemma {:induction false} WordsOfLines(gs: seq<Line>)
    requires forall g | g in gs :: Fitting(g) && forall w | w in g :: IsWord(w)
    ensures AllWords(ShownLines(gs)) == CutWords(Concat(gs))
  {
    if |gs| > 0 {
      hide Fitting, IsWord, Words, Shown, Cut, CutWords, ShownLines, AllWords;
      var n := |gs| - 1;
      assert forall g | g in gs[..n] :: g in gs;
      WordsOfLines(gs[..n]);
      LastShown(gs);
      assert gs[n] in gs;
      WordsShown(gs[n]);
      CutConcat(Concat(gs[..n]), gs[n]);
    }
  }

  lemma {:induction false} ConcatContains(gs: seq<Line>, g: Line)
    requires g in gs
    ensures forall w | w in g :: w in Concat(gs)
  {
    var n := |gs| - 1;
    if g != gs[n] {
      assert g in gs[..n];
      ConcatContains(gs[..n], g);
    }
  }

  /** What is on a greedily filled line: words of the text. */
  lemma FilledLine(text: string, g: Line)
    requires g in Fill(Words(text))
    ensures Fitting(g) && forall w | w in g :: IsWord(w) && w in Words(text)
  {
    hide Fill, Words, Fitting, IsWord;
    FillWraps(Words(text));
    WordsAreWords(text);
    ConcatContains(Fill(Words(text)), g);
  }

  /** For every text the lines carry its words in order; only words over 255 bytes are cut. */
  lemma LinesCarryTheWords(text: string)
    ensures AllWords(ShownLines(Fill(Words(text)))) == CutWords(Words(text))
    ensures AllWords(ShownLines(Fill(Words(text)))) == Words(text) <==> forall w | w in Words(text) :: |w| < LINE_SIZE
  {
    hide Fill, Words, Fitting, IsWord, Wrapping, AllWords, ShownLines, CutWords, Concat;
    var gs := Fill(Words(text));
    forall g | g in gs
      ensures Fitting(g) && forall w | w in g :: IsWord(w)
    {
      FilledLine(text, g);
    }
    WordsOfLines(gs);
    FillHolds(Words(text));
    Uncut(Words(text));
  }

  lemma FillHolds(ws: seq<string>)
    ensures Concat(Fill(ws)) == ws
  {
    hide Fill, Concat, Fitting;
    FillWraps(ws);
  }

  lemma Uncut(ws: seq<string>)
    ensures CutWords(ws) == ws <==> forall w | w in ws :: |w| < LINE_SIZE
  {
    assert forall i | 0 <= i < |ws| :: ws[i] in ws && (CutWords(ws)[i] == ws[i] <==> |ws[i]| < LINE_SIZE);
  }

  /** The lines stay within the columns exactly when the words do, and no line is empty. */
  lemma LinesFitTheBox(text: string)
    ensures (forall l | l in ShownLines(Fill(Words(text))) :: |l| <= COLS)
            <==> forall w | w in Words(text) :: |w| <= COLS
    ensures forall l | l in ShownLines(Fill(Words(text))) :: 0 < |l|
  {
    hide Fill, Words, Fitting, IsWord, Shown, Concat;
    var gs := Fill(Words(text));
    FillHolds(Words(text));
    forall l | l in ShownLines(gs)
      ensures 0 < |l| && ((forall w | w in Words(text) :: |w| <= COLS) ==> |l| <= COLS)
    {
      var i :| 0 <= i < |gs| && ShownLines(gs)[i] == l;
      FilledLine(text, gs[i]);
      ShownFits(gs[i]);
    }
    forall w | w in Words(text) && |w| > COLS
      ensures exists l :: l in ShownLines(gs) && |l| > COLS
    {
      var i := LineOf(gs, w);
      WideLine(gs[i], w);
      assert ShownLines(gs)[i] == Shown(gs[i]);
    }
  }

  lemma ShownFits(g: Line)
    requires Fitting(g) && forall w | w in g :: IsWord(w)
    ensures 0 < |Shown(g)| && ((forall w | w in g :: |w| <= COLS) ==> |Shown(g)| <= COLS)
  {
    WordsWithinWidth(g);
    assert g[|g| - 1] in g && g[0] in g;
  }

  /** Even what the buffer leaves of a word that is too wide is too wide. */
  lemma WideLine(g: Line, w: string)
    requires w in g && |w| > COLS
    ensures |Shown(g)| > COLS
  {
    WordsWithinWidth(g);
  }

  lemma {:induction false} LineOf(gs: seq<Line>, w: string) returns (i: nat)
    requires w in Concat(gs)
    ensures i < |gs| && w in gs[i]
  {
    i := |gs| - 1;
    if w !in gs[i] {
      i := LineOf(gs[..i], w);
    }
  }

  // ---------- The loop ----------

  /** A C string in a buffer: what precedes the first NUL. */
  function CText(s: string): string {
    if |s| == 0 || s[0] == NUL then "" else [s[0]] + CText(s[1..])
  }

  function Nuls(n: nat): (s: string)
    ensures |s| == n
  {
    seq(n, _ => NUL)
  }

  lemma {:induction false} CTextOf(t: string, n: nat)
    requires NUL !in t && n > 0
    ensures CText(t + Nuls(n)) == t
  {
    if |t| > 0 {
      assert (t + Nuls(n))[1..] == t[1..] + Nuls(n);
      CTextOf(t[1..], n);
    } else {
      assert t + Nuls(n) == Nuls(n);
    }
  }

  /** The state of print_context_box: the line under construction and what went out. */
  class LineBuffer {
    const line: array<char>
    var lpos: nat
    ghost var words: Line      // the words on the line
    var printed: seq<string>   // lines that went out
    ghost var flushed: seq<Line>

    ghost predicate Valid()
      reads this, line
    {
      && line.Length == LINE_SIZE
      && lpos == Width(words) && (lpos == 0 <==> words == [])
      && NUL !in Text(words)
      && (forall i | 0 <= i < LINE_SIZE :: line[i] == if i < |Shown(words)| then Shown(words)[i] else NUL)
      && printed == ShownLines(flushed)
    }

    constructor ()
      ensures Valid() && words == [] && flushed == [] && fresh(line)
    {
      line := new char[LINE_SIZE](_ => NUL);
      lpos, words, printed, flushed := 0, [], [], [];
      new;
      assert Shown([]) == "";
    }

    method Flush()
      requires Valid()
      modifies this, line
      ensures Valid() && words == [] && flushed == old(flushed) + [old(words)]
    {
      assert line[..] == Shown(words) + Nuls(LINE_SIZE - |Shown(words)|);
      CTextOf(Shown(words), LINE_SIZE - |Shown(words)|);
      printed := printed + [CText(line[..])];
      assert printed == ShownLines(flushed + [words]);
      flushed := flushed + [words];
      forall i | 0 <= i < LINE_SIZE {
        line[i] := NUL;
      }
      lpos, words := 0, [];
      assert Shown([]) == "";
    }

    /** Appends a word; memcpy is cut so that the last byte of the buffer stays NUL. */
    method Add(w: string)
      requires Valid() && w != "" && NUL !in w && (words == [] || RoomFor(words, w))
      modifies this, line
      ensures Valid() && words == old(words) + [w] && flushed == old(flushed)
    {
      hide Width, Text;
      ghost var before := Text(words);
      NoText();
      TextOfOne(w);
      if lpos > 0 {
        WidthSnoc(words, w);
        line[lpos] := ' ';
        lpos := lpos + 1;
      }
      var n := if |w| > LINE_SIZE - lpos - 1 then LINE_SIZE - lpos - 1 else |w|;
      forall i | 0 <= i < n {
        line[lpos + i] := w[i];
      }
      lpos := lpos + |w|;
      assert words == [] ==> words + [w] == [w];
      words := words + [w];
      assert Text(words) == if before == "" then w else before + " " + w;
    }

    /** All lines so far, the unfinished one included. */
    ghost function Lines(): seq<Line>
      reads this
    {
      flushed + if words == [] then [] else [words]
    }

    /** The lines are the greedy ones, and a line flushed early had no room for another word. */
    ghost predicate Greedy(done: seq<string>)
      reads this
    {
      Fill(done) == Lines() && (words == [] && flushed != [] ==> Width(flushed[|flushed| - 1]) >= COLS)
    }

    /** Flushes the line when a word of this length (0 at a newline) does not fit behind it. */
    method MakeRoom(wlen: nat)
      requires Valid()
      modifies this, line
      ensures Valid() && Lines() == old(Lines())
      ensures words == [] || Width(words) + 1 + wlen <= COLS
      ensures || (words == old(words) && flushed == old(flushed))
              || (words == [] && |flushed| > 0 && flushed[|flushed| - 1] == old(words)
                  && Width(old(words)) + 1 + wlen > COLS)
    {
      if lpos > 0 && lpos + 1 + wlen > COLS {
        Flush();
      }
    }

    /** One turn of the loop at a word. */
    method PlaceWord(word: string, ghost done: seq<string>)
      requires Valid() && Greedy(done) && word != "" && NUL !in word
      modifies this, line
      ensures Valid() && Greedy(done + [word])
    {
      FillSnoc(done, word);
      hide Fill, Place, Width, Text, Shown;
      MakeRoom(|word|);
      if words == [] {
        assert Lines() == flushed;
        PlaceNew(flushed, word);
        assert words + [word] == [word];
      } else {
        PlaceBehind(flushed, words, word);
      }
      Add(word);
    }

    /** One turn of the loop at a newline. */
    method NewLine(ghost done: seq<string>)
      requires Valid() && Greedy(done)
      modifies this, line
      ensures Valid() && Greedy(done)
    {
      hide Fill, Width, Text, Shown;
      MakeRoom(0);
    }

    /** The wrapping loop of print_context_box. */
    method WrapText(text: string)
      requires Valid() && words == [] && flushed == [] && NUL !in text
      modifies this, line
      ensures Valid() && printed == ShownLines(Fill(Words(text)))
    {
      hide Shown, Width, Text, Fill, Words;
      var w := 0;
      ghost var done: seq<string> := [];
      assert text[0..] == text;
      NoWords();
      while w < |text|
        invariant Valid() && 0 <= w <= |text| && Greedy(done)
        invariant Words(text) == done + Words(text[w..])
        decreases |text| - w
      {
        w := SkipSpaces(text, w);
        if w == |text| {
          break;
        }
        var wend := WordEnd(text, w);
        var wlen := wend - w;
        ghost var rest := text[w..];
        if text[w] == '\n' {
          w := w + 1;
          wlen := 0;
          assert rest[1..] == text[w..];
          NewlineSkipped(rest);
        }
        if wlen > 0 {
          var word := text[w..wend];
          assert rest == word + text[wend..];
          WordFront(word, text[wend..]);
          PlaceWord(word, done);
          done := done + [word];
          w := wend;
        } else {
          NewLine(done);
        }
      }
      assert text[w..] == "";
      assert Words(text) == done;
      if lpos > 0 {
        Flush();
      }
    }
  }

  lemma NewlineSkipped(t: string)
    requires t != "" && Separator(t[0])
    ensures Words(t) == Words(t[1..])
  {
  }

  lemma NoWords()
    ensures Words("") == [] && Fill([]) == []
  {
  }

  method SkipSpaces(text: string, from: nat) returns (w: nat)
    requires from <= |text|
    ensures from <= w <= |text| && Words(text[w..]) == Words(text[from..]) && (w < |text| ==> text[w] != ' ')
  {
    w := from;
    while w < |text| && text[w] == ' '
      invariant from <= w <= |text| && Words(text[w..]) == Words(text[from..])
    {
      assert text[w..][1..] == text[w + 1..];
      w := w + 1;
    }
  }

  method WordEnd(text: string, w: nat) returns (wend: nat)
    requires w <= |text|
    ensures w <= wend <= |text| && (forall c | c in text[w..wend] :: !Separator(c))
    ensures wend < |text| ==> Separator(text[wend])
  {
    wend := w;
    while wend < |text| && text[wend] != ' ' && text[wend] != '\n'
      invariant w <= wend <= |text| && forall i | w <= i < wend :: !Separator(text[i])
    {
      wend := wend + 1;
    }
  }
}
