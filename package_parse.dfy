/** `parse_contents_file` of the package module
    (package_statistics/package_statistics.py): every line of the
    decompressed Contents file is split on whitespace; a line with at least
    two tokens contributes the comma-separated pieces of its last token, each
    of which is incremented in the leaderboard.

    A line that is not valid UTF-8 is logged and then NOT skipped: the code
    after the warning still runs with `split_line` left over from the
    previous iteration, so that line is counted again, and when no earlier
    line was decoded `split_line` is unbound and the parse raises
    UnboundLocalError. The model keeps `split_line` as state carried from one
    line to the next and reproduces this. */
module ContentsParse {
  import opened Base
  import opened Text
  import opened Leaderboards

  /** One line of the decompressed stream: its UTF-8 text, or a line whose
      bytes are not valid UTF-8. */
  datatype Line = Decoded(text: string) | Undecodable

  /** The exception the parse can end with. */
  datatype ParseError = UnboundLocalError

  /** What the loop carries from one line to the next: the package names
      counted so far, in counting order, and the variable `split_line`
      (None while it has never been assigned). */
  datatype Scan = Scan(pieces: seq<string>, splitLine: Option<seq<string>>)

  /** The package names an accepted line lists: its last whitespace token,
      split on commas. */
  function PackagesOf(tokens: seq<string>): seq<string>
    requires |tokens| >= 1
  {
    SplitComma(tokens[|tokens| - 1])
  }

  /** One iteration of the loop over lines. `line.strip().split()` is
      written `Tokens(text)` here, which `Text.TokensOfStrip` shows to be the
      same. */
  function Step(s: Scan, line: Line): Result<Scan, ParseError>
  {
    var splitLine := match line
      case Decoded(text) => Some(Tokens(text))
      case Undecodable => s.splitLine;
    if splitLine.None? then Failure(UnboundLocalError)
    else if |splitLine.value| < 2 then Success(Scan(s.pieces, splitLine))
    else Success(Scan(s.pieces + PackagesOf(splitLine.value), splitLine))
  }

  /** One iteration, unless an earlier one raised. */
  function StepAfter(acc: Result<Scan, ParseError>, line: Line): Result<Scan, ParseError>
  {
    match acc
    case Failure(e) => Failure(e)
    case Success(s) => Step(s, line)
  }

  /** The loop over all lines, up to the first exception. */
  function ScanLines(lines: seq<Line>): Result<Scan, ParseError>
  {
    if lines == [] then Success(Scan([], None))
    else StepAfter(ScanLines(lines[..|lines| - 1]), lines[|lines| - 1])
  }

  /** What `parse_contents_file` returns, or the exception it raises. */
  function ParseContents(lines: seq<Line>): Result<Dict, ParseError>
  {
    match ScanLines(lines)
    case Failure(e) => Failure(e)
    case Success(s) => Success(Tally(s.pieces))
  }

  /** The loop over `p + [x]` is the loop over `p` followed by one more
      iteration, unless the loop over `p` raised. */
  lemma ScanSnoc(p: seq<Line>, x: Line)
    ensures ScanLines(p + [x]) == StepAfter(ScanLines(p), x)
  {
    assert (p + [x])[..|p|] == p;
  }

  /** Once the loop has raised, later lines change nothing. */
  lemma {:induction false} ScanFailurePersists(lines: seq<Line>, i: nat)
    requires i <= |lines| && ScanLines(lines[..i]).Failure?
    ensures ScanLines(lines) == ScanLines(lines[..i])
    decreases |lines| - i
  {
    if i < |lines| {
      assert lines[..i + 1] == lines[..i] + [lines[i]];
      ScanSnoc(lines[..i], lines[i]);
      ScanFailurePersists(lines, i + 1);
    } else {
      assert lines[..i] == lines;
    }
  }

  /** `parse_contents_file`: builds the leaderboard in place, line by line
      and piece by piece. */
  method ParseContentsFile(lines: seq<Line>) returns (r: Result<Leaderboard, ParseError>)
    ensures r.Failure? ==> ParseContents(lines) == Failure(r.error)
    ensures r.Success? ==> fresh(r.value) && r.value.Valid()
    ensures r.Success? ==> ParseContents(lines) == Success(r.value.Snapshot())
  {
    var board := new Leaderboard();
    var splitLine: Option<seq<string>> := None;
    ghost var pieces: seq<string> := [];
    for i := 0 to |lines|
      invariant ScanLines(lines[..i]) == Success(Scan(pieces, splitLine))
      invariant board.Snapshot() == Tally(pieces) && board.Valid()
    {
      assert lines[..i + 1] == lines[..i] + [lines[i]];
      ScanSnoc(lines[..i], lines[i]);
      ghost var before := Scan(pieces, splitLine);
      match lines[i] {
        case Decoded(text) =>
          TokensOfStrip(text);
          splitLine := Some(Tokens(Strip(text)));
        case Undecodable =>
          // a warning is logged and the loop body goes on with the
          // previous split_line
      }
      assert Step(before, lines[i]) == ScanLines(lines[..i + 1]);
      if splitLine.None? {
        ScanFailurePersists(lines, i + 1);
        return Failure(UnboundLocalError);
      }
      if |splitLine.value| < 2 {
        // malformed line: logged and skipped
        continue;
      }
      var packages := PackagesOf(splitLine.value);
      AddAllAppend(Empty, pieces, packages);
      board.IncrementAll(packages);
      pieces := pieces + packages;
    }
    assert lines[..|lines|] == lines;
    return Success(board);
  }

  // ---------------------------------------------------------------------
  // Properties of the parse
  // ---------------------------------------------------------------------

  lemma {:induction false} ScanBinding(lines: seq<Line>)
    ensures ScanLines(lines).Failure? <==> |lines| > 0 && lines[0].Undecodable?
    ensures ScanLines(lines).Success? ==> (ScanLines(lines).value.splitLine.Some? <==> |lines| > 0)
  {
    if |lines| > 0 {
      var init := lines[..|lines| - 1];
      ScanBinding(init);
      if |init| > 0 {
        assert init[0] == lines[0];
      }
    }
  }

  /** The parse raises exactly when the very first line cannot be decoded;
      an undecodable line anywhere later never makes it fail. */
  lemma ParseFailsIffFirstUndecodable(lines: seq<Line>)
    ensures ParseContents(lines).Failure? <==> |lines| > 0 && lines[0] == Undecodable
    ensures ParseContents(lines).Failure? ==> ParseContents(lines).error == UnboundLocalError
  {
    ScanBinding(lines);
  }

  /** An undecodable line is counted again with the tokens of the line
      before it, exactly as if that line had appeared twice. */
  lemma UndecodableRepeatsPrevious(lines: seq<Line>, text: string)
    ensures ParseContents(lines + [Decoded(text), Undecodable])
         == ParseContents(lines + [Decoded(text), Decoded(text)])
  {
    var p := lines + [Decoded(text)];
    assert lines + [Decoded(text), Undecodable] == p + [Undecodable];
    assert lines + [Decoded(text), Decoded(text)] == p + [Decoded(text)];
    ScanSnoc(lines, Decoded(text));
    ScanSnoc(p, Undecodable);
    ScanSnoc(p, Decoded(text));
  }

  /** `k` undecodable lines. */
  function UndecodableRun(k: nat): (run: seq<Line>)
    ensures |run| == k && forall i :: 0 <= i < k ==> run[i] == Undecodable
  {
    seq(k, _ => Undecodable)
  }

  /** Every undecodable line of a run reuses `split_line` of the last decoded
      line before it: one more undecodable line counts exactly as one more
      copy of that decoded line. */
  lemma UndecodableRunRepeats(lines: seq<Line>, text: string, k: nat)
    ensures var p := lines + [Decoded(text)] + UndecodableRun(k);
      ParseContents(p + [Undecodable]) == ParseContents(p + [Decoded(text)])
  {
    var p := lines + [Decoded(text)] + UndecodableRun(k);
    RunKeepsSplitLine(lines, text, k);
    ScanSnoc(p, Undecodable);
    ScanSnoc(p, Decoded(text));
  }

  /** After a decoded line and a run of undecodable ones, `split_line` still
      holds the tokens of the decoded line. */
  lemma {:induction false} RunKeepsSplitLine(lines: seq<Line>, text: string, k: nat)
    ensures var r := ScanLines(lines + [Decoded(text)] + UndecodableRun(k));
      r.Success? ==> r.value.splitLine == Some(Tokens(text))
  {
    if k == 0 {
      assert lines + [Decoded(text)] + UndecodableRun(0) == lines + [Decoded(text)];
      ScanSnoc(lines, Decoded(text));
    } else {
      var q := lines + [Decoded(text)] + UndecodableRun(k - 1);
      assert lines + [Decoded(text)] + UndecodableRun(k) == q + [Undecodable];
      RunKeepsSplitLine(lines, text, k - 1);
      ScanSnoc(q, Undecodable);
    }
  }

  /** A line with fewer than two whitespace-separated tokens (in particular
      an empty or whitespace-only line) leaves the result unchanged. */
  lemma MalformedLineSkipped(lines: seq<Line>, text: string)
    requires |Tokens(text)| < 2
    ensures ParseContents(lines + [Decoded(text)]) == ParseContents(lines)
  {
    ScanSnoc(lines, Decoded(text));
  }

  /** Lines that are all decoded and all malformed give an empty
      leaderboard: the empty stream, or a stream of one single-token line. */
  lemma {:induction false} NoAcceptedLines(lines: seq<Line>)
    requires forall i :: 0 <= i < |lines| ==> lines[i].Decoded? && |Tokens(lines[i].text)| < 2
    ensures ParseContents(lines) == Success(Empty)
  {
    if lines != [] {
      var init := lines[..|lines| - 1];
      NoAcceptedLines(init);
      MalformedLineSkipped(init, lines[|lines| - 1].text);
      assert init + [lines[|lines| - 1]] == lines;
    }
  }

  /** The last whitespace token of a line. */
  function LastToken(text: string): string
    requires |Tokens(text)| >= 1
  {
    Tokens(text)[|Tokens(text)| - 1]
  }

  /** An accepted line adds one to each comma piece of its last token per
      occurrence (empty pieces and repeats included), leaves every other
      count alone, and raises the total by the number of commas plus one. */
  lemma AcceptedLineCounts(lines: seq<Line>, text: string, d: Dict)
    requires ParseContents(lines) == Success(d)
    requires |Tokens(text)| >= 2
    ensures ParseContents(lines + [Decoded(text)]).Success?
    ensures var d' := ParseContents(lines + [Decoded(text)]).value;
      && WellFormed(d) && WellFormed(d')
      && (forall k :: Get(d', k) == Get(d, k) + multiset(SplitComma(LastToken(text)))[k])
      && (forall k :: k in d'.counts <==> k in d.counts || k in SplitComma(LastToken(text)))
      && Total(d') == Total(d) + multiset(LastToken(text))[','] + 1
  {
    var pieces := ScanLines(lines).value.pieces;
    AcceptedLinePieces(lines, text);
    TallyAppend(pieces, SplitComma(LastToken(text)));
    SplitCommaCount(LastToken(text));
  }

  /** An accepted line appends the comma pieces of its last token to the
      names counted so far. */
  lemma AcceptedLinePieces(lines: seq<Line>, text: string)
    requires ScanLines(lines).Success?
    requires |Tokens(text)| >= 2
    ensures ScanLines(lines + [Decoded(text)]).Success?
    ensures ScanLines(lines + [Decoded(text)]).value.pieces
         == ScanLines(lines).value.pieces + SplitComma(LastToken(text))
  {
    ScanSnoc(lines, Decoded(text));
  }

  /** Every key of the leaderboard is a comma piece some line contributed,
      every contributed piece is a key, and each count is the number of times
      the piece was contributed, hence at least 1. */
  lemma ParseCounts(lines: seq<Line>)
    requires ParseContents(lines).Success?
    ensures var d := ParseContents(lines).value;
      var pieces := ScanLines(lines).value.pieces;
      && WellFormed(d) && Positive(d)
      && (forall k :: k in d.counts <==> k in pieces)
      && (forall k :: Get(d, k) == multiset(pieces)[k])
  {
    TallyCounts(ScanLines(lines).value.pieces);
  }

  // ---------------------------------------------------------------------
  // The decode-error branch as its log message describes it
  // ---------------------------------------------------------------------

  /** As written, an undecodable first line makes the parse raise, where
      the warning says the line is skipped. */
  lemma FirstLineUndecodableRaises()
    ensures ParseContents([Undecodable]) == Failure(UnboundLocalError)
    ensures ParseContentsSkipping([Undecodable]) == Empty
  {
    assert [Undecodable][..0] == [];
  }

  /** One iteration with the decode error skipped: an undecodable line
      contributes nothing and does not touch `split_line`. */
  function StepSkipping(pieces: seq<string>, line: Line): seq<string>
  {
    match line
    case Undecodable => pieces
    case Decoded(text) =>
      var tokens := Tokens(text);
      if |tokens| < 2 then pieces else pieces + PackagesOf(tokens)
  }

  /** The package names counted when undecodable lines are skipped. */
  function PiecesSkipping(lines: seq<Line>): seq<string>
  {
    if lines == [] then []
    else StepSkipping(PiecesSkipping(lines[..|lines| - 1]), lines[|lines| - 1])
  }

  /** The leaderboard when undecodable lines are skipped; it never raises. */
  function ParseContentsSkipping(lines: seq<Line>): Dict
  {
    Tally(PiecesSkipping(lines))
  }

  /** The lines that decode, in order. */
  function DecodedLines(lines: seq<Line>): seq<Line>
  {
    if lines == [] then []
    else
      var rest := DecodedLines(lines[..|lines| - 1]);
      if lines[|lines| - 1].Decoded? then rest + [lines[|lines| - 1]] else rest
  }

  /** With the decode error skipped, undecodable lines make no difference
      at all: the result is that of the decodable lines alone. */
  lemma {:induction false} SkippingIgnoresUndecodable(lines: seq<Line>)
    ensures ParseContentsSkipping(lines) == ParseContentsSkipping(DecodedLines(lines))
  {
    PiecesOfDecodedLines(lines);
  }

  lemma {:induction false} PiecesOfDecodedLines(lines: seq<Line>)
    ensures PiecesSkipping(lines) == PiecesSkipping(DecodedLines(lines))
  {
    if lines != [] {
      var init := lines[..|lines| - 1];
      var last := lines[|lines| - 1];
      PiecesOfDecodedLines(init);
      if last.Decoded? {
        var d := DecodedLines(init);
        assert (d + [last])[..|d|] == d;
      }
    }
  }

  /** On input in which every line decodes, the code as written and the
      skipping parse agree. */
  lemma {:induction false} SkippingAgreesOnDecodableInput(lines: seq<Line>)
    requires forall i :: 0 <= i < |lines| ==> lines[i].Decoded?
    ensures ScanLines(lines).Success? && ScanLines(lines).value.pieces == PiecesSkipping(lines)
    ensures ParseContents(lines) == Success(ParseContentsSkipping(lines))
  {
    if lines != [] {
      var init := lines[..|lines| - 1];
      var last := lines[|lines| - 1];
      SkippingAgreesOnDecodableInput(init);
      assert init + [last] == lines;
      DecodedStepAgrees(init, last.text);
    }
  }

  /** A decoded line adds the same names in both parses. */
  lemma DecodedStepAgrees(lines: seq<Line>, text: string)
    requires ScanLines(lines).Success?
    ensures ScanLines(lines + [Decoded(text)]).Success?
    ensures ScanLines(lines + [Decoded(text)]).value.pieces
         == StepSkipping(ScanLines(lines).value.pieces, Decoded(text))
  {
    ScanSnoc(lines, Decoded(text));
  }
}
