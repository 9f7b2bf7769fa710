/** The printing half of `display_leaderboard`: one line per ranked entry,
    `f'{str(index + 1) + '.':<5}{package:<50}{num_assoc_files}'`, each
    followed by a newline. Printing is modelled as returning the lines. */
module Report {
  import opened Text
  import opened Leaderboards
  import opened Ranking

  function Max(a: int, b: int): int
  {
    if a >= b then a else b
  }

  /** The rank column, e.g. `"1."`. */
  function RankLabel(rank: nat): string
  {
    NatToString(rank) + "."
  }

  /** One output line: the rank label left-justified to 5 characters, the
      name left-justified to 50, then the count. Padding never truncates, so
      a wide label or name pushes the later columns right. */
  function FormatLine(rank: nat, name: string, count: int): string
  {
    LJust(RankLabel(rank), 5) + LJust(name, 50) + IntToString(count)
  }

  /** The columns start at 0, at 5 or after a wider rank label, and 50
      characters or a wider name later; the line holds the rank label, blanks
      (U+0020) up to the name, the name, blanks up to the count, and the
      count. */
  lemma FormatLineLayout(rank: nat, name: string, count: int)
    ensures var line := FormatLine(rank, name, count);
      var nameAt := Max(|RankLabel(rank)|, 5);
      var countAt := nameAt + Max(|name|, 50);
      && |line| == countAt + |IntToString(count)|
      && line[..|RankLabel(rank)|] == RankLabel(rank)
      && (forall i :: |RankLabel(rank)| <= i < nameAt ==> line[i] == ' ')
      && line[nameAt..nameAt + |name|] == name
      && (forall i :: nameAt + |name| <= i < countAt ==> line[i] == ' ')
      && line[countAt..] == IntToString(count)
  {
    var a := LJust(RankLabel(rank), 5);
    var b := LJust(name, 50);
    var c := IntToString(count);
    var line := a + b + c;
    assert line[..|a|] == a && line[|a|..|a| + |b|] == b && line[|a| + |b|..] == c;
  }

  /** The lines printed for a ranking: entry `i` gets rank `i + 1`. */
  function Formatted(ranked: seq<Entry>): (lines: seq<string>)
    ensures |lines| == |ranked|
    ensures forall i :: 0 <= i < |ranked| ==> lines[i] == FormatLine(i + 1, ranked[i].0, ranked[i].1)
  {
    seq(|ranked|, i requires 0 <= i < |ranked| => FormatLine(i + 1, ranked[i].0, ranked[i].1))
  }

  /** The `for index, (package, count) in enumerate(...)` print loop. */
  method Render(ranked: seq<Entry>) returns (lines: seq<string>)
    ensures lines == Formatted(ranked)
  {
    lines := [];
    for i := 0 to |ranked|
      invariant |lines| == i
      invariant forall j :: 0 <= j < i ==> lines[j] == FormatLine(j + 1, ranked[j].0, ranked[j].1)
    {
      lines := lines + [FormatLine(i + 1, ranked[i].0, ranked[i].1)];
    }
  }

  /** `display_leaderboard(leaderboard, top_n)` of the package module: one
      line per entry of `most_common(top_n)`, so `min(max(top_n, 0), number
      of keys)` lines. */
  method DisplayLeaderboard(leaderboard: Dict, topN: int) returns (lines: seq<string>)
    requires WellFormed(leaderboard)
    ensures lines == Formatted(MostCommon(leaderboard, topN))
    ensures |lines| == if topN <= 0 then 0 else if topN < |leaderboard.counts| then topN else |leaderboard.counts|
  {
    MostCommonLength(leaderboard, topN);
    lines := Render(MostCommon(leaderboard, topN));
  }

  /** `display_leaderboard` of the older script, which prints the items of
      `dict(most_common(top_n))`: the same lines. */
  method DisplayLeaderboardRoot(leaderboard: Dict, topN: int) returns (lines: seq<string>)
    requires WellFormed(leaderboard)
    ensures lines == Formatted(MostCommon(leaderboard, topN))
    ensures |lines| == if topN <= 0 then 0 else if topN < |leaderboard.counts| then topN else |leaderboard.counts|
  {
    MostCommonLength(leaderboard, topN);
    RankingsAgree(leaderboard, topN);
    lines := Render(MostCommonRoot(leaderboard, topN));
  }

  // ---------------------------------------------------------------------
  // What the printed text splits into
  // ---------------------------------------------------------------------

  /** What `print` writes for the lines: each followed by a newline. */
  function Printed(lines: seq<string>): string
  {
    if lines == [] then []
    else Printed(lines[..|lines| - 1]) + lines[|lines| - 1] + "\n"
  }

  /** The whitespace tokens of every line, one line after the other. */
  function TokensOfLines(lines: seq<string>): seq<string>
  {
    if lines == [] then []
    else TokensOfLines(lines[..|lines| - 1]) + Tokens(lines[|lines| - 1])
  }

  /** Splitting the printed text on whitespace splits each line. */
  lemma {:induction false} PrintedTokens(lines: seq<string>)
    ensures Tokens(Printed(lines)) == TokensOfLines(lines)
  {
    if lines != [] {
      var init := lines[..|lines| - 1];
      var last := lines[|lines| - 1];
      PrintedTokens(init);
      var before := Printed(init);
      assert before == [] || IsSpace(before[|before| - 1]);
      TokensAppend(before, last + "\n");
      TokensAppend(last, "\n");
      TokensEmptyIffAllSpace("\n");
      assert before + last + "\n" == before + (last + "\n");
    }
  }

  /** A word padded on the right to more than its length is one token. */
  lemma PaddedWordTokens(w: string, width: int)
    requires w != [] && NoSpace(w) && |w| < width
    ensures Tokens(LJust(w, width)) == [w]
    ensures IsSpace(LJust(w, width)[|LJust(w, width)| - 1])
  {
    var r := LJust(w, width);
    var pad := r[|w|..];
    assert r == w + pad;
    TokensAppend(w, pad);
    TokensOfWord(w);
    TokensEmptyIffAllSpace(pad);
  }

  /** The tokens a name contributes to a line: none for the empty name. */
  function NameColumn(name: string): seq<string>
  {
    if name == [] then [] else [name]
  }

  /** A name without whitespace padded to more than its length gives its
      name column, and the padding ends in a space. */
  lemma PaddedNameTokens(name: string, width: int)
    requires NoSpace(name) && |name| < width
    ensures Tokens(LJust(name, width)) == NameColumn(name)
    ensures IsSpace(LJust(name, width)[|LJust(name, width)| - 1])
  {
    if name == [] {
      TokensEmptyIffAllSpace(LJust(name, width));
    } else {
      PaddedWordTokens(name, width);
    }
  }

  lemma RankLabelWord(rank: nat)
    ensures RankLabel(rank) != [] && NoSpace(RankLabel(rank))
    ensures |RankLabel(rank)| == |NatToString(rank)| + 1
  {
  }

  /** A line splits into its columns when the rank has at most three digits
      and the name is shorter than 50 characters and has no whitespace: rank
      label, name and count, or only rank label and count when the name is
      empty. */
  lemma {:induction false} FormatLineTokens(rank: nat, name: string, count: int)
    requires rank < 1000
    requires NoSpace(name) && |name| < 50
    ensures Tokens(FormatLine(rank, name, count)) == [RankLabel(rank)] + NameColumn(name) + [IntToString(count)]
  {
    var a := LJust(RankLabel(rank), 5);
    var b := LJust(name, 50);
    var c := IntToString(count);
    NatToStringWidth(rank, 3);
    RankLabelWord(rank);
    PaddedWordTokens(RankLabel(rank), 5);
    PaddedNameTokens(name, 50);
    TokensOfWord(c);
    TokensAppend(b, c);
    TokensAppend(a, b + c);
    assert a + b + c == a + (b + c);
  }

  /** The empty package name, which `pkg1,` contributes, prints as a rank
      and a count with only blanks between them. */
  lemma EmptyNameLine()
    ensures Tokens(FormatLine(1, "", 3)) == ["1.", "3"]
  {
    FormatLineTokens(1, "", 3);
    assert RankLabel(1) == "1." && IntToString(3) == "3";
  }

  /** A name of 50 characters or more gets no padding and runs into the
      count: the line then splits into two tokens, not three. */
  lemma {:induction false} LongNameRunsIntoCount(rank: nat, name: string, count: int)
    requires rank < 1000
    requires name != [] && NoSpace(name) && |name| >= 50
    ensures Tokens(FormatLine(rank, name, count)) == [RankLabel(rank), name + IntToString(count)]
  {
    var a := LJust(RankLabel(rank), 5);
    var c := IntToString(count);
    NatToStringWidth(rank, 3);
    RankLabelWord(rank);
    PaddedWordTokens(RankLabel(rank), 5);
    assert LJust(name, 50) == name;
    TokensOfWord(name + c);
    TokensAppend(a, name + c);
    assert a + name + c == a + (name + c);
  }

  /** The columns of a ranking, one entry after the other:
      rank label, name (none when it is empty), count. */
  function Columns(ranked: seq<Entry>): seq<string>
  {
    if ranked == [] then []
    else
      var last := ranked[|ranked| - 1];
      Columns(ranked[..|ranked| - 1]) + [RankLabel(|ranked|)] + NameColumn(last.0) + [IntToString(last.1)]
  }

  /** Names under 50 characters and fewer than 1000 entries: splitting the
      printed output on whitespace gives rank, name and count of every entry
      in turn, with nothing for an empty name. */
  lemma {:induction false} DisplayedColumns(ranked: seq<Entry>)
    requires |ranked| < 1000
    requires forall i :: 0 <= i < |ranked| ==> NoSpace(ranked[i].0) && |ranked[i].0| < 50
    ensures Tokens(Printed(Formatted(ranked))) == Columns(ranked)
  {
    PrintedTokens(Formatted(ranked));
    ColumnsOfLines(ranked);
  }

  lemma {:induction false} ColumnsOfLines(ranked: seq<Entry>)
    requires |ranked| < 1000
    requires forall i :: 0 <= i < |ranked| ==> NoSpace(ranked[i].0) && |ranked[i].0| < 50
    ensures TokensOfLines(Formatted(ranked)) == Columns(ranked)
  {
    if ranked != [] {
      var init := ranked[..|ranked| - 1];
      var last := ranked[|ranked| - 1];
      ColumnsOfLines(init);
      assert Formatted(ranked)[..|ranked| - 1] == Formatted(init);
      FormatLineTokens(|ranked|, last.0, last.1);
    }
  }

  /** The leaderboard {small_pkg: 5, big_pkg: 20}, in that insertion
      order. */
  function ExampleBoard(): (d: Dict)
    ensures WellFormed(d)
  {
    Dict(map["small_pkg" := 5, "big_pkg" := 20], ["small_pkg", "big_pkg"])
  }

  lemma ExampleRanking()
    ensures MostCommon(ExampleBoard(), 5) == [("big_pkg", 20), ("small_pkg", 5)]
  {
    var items := Items(ExampleBoard());
    assert items == [("small_pkg", 5), ("big_pkg", 20)];
    assert items[1..] == [("big_pkg", 20)];
    assert SortByCount(items[1..]) == [("big_pkg", 20)];
  }

  lemma ExampleColumns(ranked: seq<Entry>)
    requires ranked == [("big_pkg", 20), ("small_pkg", 5)]
    ensures Tokens(Printed(Formatted(ranked))) == ["1.", "big_pkg", "20", "2.", "small_pkg", "5"]
  {
    DisplayedColumns(ranked);
    assert ranked[..1] == [("big_pkg", 20)];
    assert RankLabel(1) == "1." && RankLabel(2) == "2.";
    assert IntToString(20) == "20" && IntToString(5) == "5";
    assert |ranked[..1][..0]| == 0;
    assert Columns(ranked[..1]) == ["1.", "big_pkg", "20"];
  }

  /** The leaderboard {small_pkg: 5, big_pkg: 20} shown with top 5: the
      output splits into `1. big_pkg 20 2. small_pkg 5`. */
  lemma TwoPackageExample()
    ensures MostCommon(ExampleBoard(), 5) == [("big_pkg", 20), ("small_pkg", 5)]
    ensures Tokens(Printed(Formatted(MostCommon(ExampleBoard(), 5))))
         == ["1.", "big_pkg", "20", "2.", "small_pkg", "5"]
  {
    ExampleRanking();
    ExampleColumns(MostCommon(ExampleBoard(), 5));
  }
}
