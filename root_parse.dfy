/** `parse_contents_file` of the older top-level script (package_statistics.py).
    Every line is decoded and split on whitespace with no guard: the last
    token is split on commas and every piece incremented. A line that is not
    valid UTF-8 raises UnicodeDecodeError, and an empty or whitespace-only
    line has no last token and raises IndexError; either aborts the whole
    parse. A single-token line is counted, where the package module skips
    it. */
module RootContentsParse {
  import opened Base
  import opened Text
  import opened Leaderboards
  import opened ContentsParse

  /** The exceptions this parse can end with. */
  datatype RootError = UnicodeDecodeError | IndexError

  /** `line.decode('utf-8').split()[-1].split(',')`. */
  function LinePackages(line: Line): Result<seq<string>, RootError>
  {
    match line
    case Undecodable => Failure(UnicodeDecodeError)
    case Decoded(text) =>
      var tokens := Tokens(text);
      if tokens == [] then Failure(IndexError)
      else Success(SplitComma(tokens[|tokens| - 1]))
  }

  /** One iteration of the loop over lines: the names counted so far and the
      names of one more line, or the exception that ends the loop. */
  function RootStep(acc: Result<seq<string>, RootError>, line: Line): Result<seq<string>, RootError>
  {
    match acc
    case Failure(e) => Failure(e)
    case Success(ps) =>
      match LinePackages(line)
      case Failure(e) => Failure(e)
      case Success(q) => Success(ps + q)
  }

  /** The package names of all lines, in counting order, or the exception
      of the first line that raises. */
  function RootPieces(lines: seq<Line>): Result<seq<string>, RootError>
  {
    if lines == [] then Success([])
    else RootStep(RootPieces(lines[..|lines| - 1]), lines[|lines| - 1])
  }

  /** What this `parse_contents_file` returns, or the exception it raises. */
  function ParseContentsRoot(lines: seq<Line>): Result<Dict, RootError>
  {
    match RootPieces(lines)
    case Failure(e) => Failure(e)
    case Success(ps) => Success(Tally(ps))
  }

  lemma RootPiecesSnoc(p: seq<Line>, x: Line)
    ensures RootPieces(p + [x]) == RootStep(RootPieces(p), x)
  {
    assert (p + [x])[..|p|] == p;
  }

  lemma {:induction false} RootFailurePersists(lines: seq<Line>, i: nat)
    requires i <= |lines| && RootPieces(lines[..i]).Failure?
    ensures RootPieces(lines) == RootPieces(lines[..i])
    decreases |lines| - i
  {
    if i < |lines| {
      assert lines[..i + 1] == lines[..i] + [lines[i]];
      RootPiecesSnoc(lines[..i], lines[i]);
      RootFailurePersists(lines, i + 1);
    } else {
      assert lines[..i] == lines;
    }
  }

  /** A line that raises ends the parse with its exception. */
  lemma RootFailsAt(lines: seq<Line>, i: nat)
    requires i < |lines| && RootPieces(lines[..i]).Success?
    requires LinePackages(lines[i]).Failure?
    ensures RootPieces(lines) == Failure(LinePackages(lines[i]).error)
  {
    assert lines[..i + 1] == lines[..i] + [lines[i]];
    RootPiecesSnoc(lines[..i], lines[i]);
    RootFailurePersists(lines, i + 1);
  }

  /** A line that does not raise adds its package names. */
  lemma RootStepAt(lines: seq<Line>, i: nat)
    requires i < |lines| && RootPieces(lines[..i]).Success?
    requires LinePackages(lines[i]).Success?
    ensures RootPieces(lines[..i + 1]) == Success(RootPieces(lines[..i]).value + LinePackages(lines[i]).value)
  {
    assert lines[..i + 1] == lines[..i] + [lines[i]];
    RootPiecesSnoc(lines[..i], lines[i]);
  }

  /** `parse_contents_file` of the script: builds the leaderboard in place;
      the first bad line ends it with an exception. */
  method ParseContentsFileRoot(lines: seq<Line>) returns (r: Result<Leaderboard, RootError>)
    ensures r.Failure? ==> ParseContentsRoot(lines) == Failure(r.error)
    ensures r.Success? ==> fresh(r.value) && r.value.Valid()
    ensures r.Success? ==> ParseContentsRoot(lines) == Success(r.value.Snapshot())
  {
    var board := new Leaderboard();
    ghost var pieces: seq<string> := [];
    for i := 0 to |lines|
      invariant RootPieces(lines[..i]) == Success(pieces)
      invariant board.Snapshot() == Tally(pieces) && board.Valid()
    {
      var packages;
      match lines[i] {
        case Undecodable =>
          RootFailsAt(lines, i);
          return Failure(UnicodeDecodeError);
        case Decoded(text) =>
          var tokens := Tokens(text);
          if tokens == [] {
            RootFailsAt(lines, i);
            return Failure(IndexError);
          }
          packages := SplitComma(tokens[|tokens| - 1]);
      }
      RootStepAt(lines, i);
      AddAllAppend(Empty, pieces, packages);
      board.IncrementAll(packages);
      pieces := pieces + packages;
    }
    assert lines[..|lines|] == lines;
    return Success(board);
  }

  // ---------------------------------------------------------------------
  // Properties of the parse
  // ---------------------------------------------------------------------

  /** A line this parse cannot get a last token from. */
  predicate BadLine(line: Line)
  {
    line.Undecodable? || Tokens(line.text) == []
  }

  /** The parse raises exactly when some line is undecodable, empty or
      whitespace only, and then with the exception of the first such line. */
  lemma {:induction false} RootFailsIffBadLine(lines: seq<Line>)
    ensures ParseContentsRoot(lines).Failure? <==> exists i :: 0 <= i < |lines| && BadLine(lines[i])
    ensures forall i ::
              (0 <= i < |lines| && BadLine(lines[i]) && forall j :: 0 <= j < i ==> !BadLine(lines[j]))
              ==> ParseContentsRoot(lines) == Failure(LinePackages(lines[i]).error)
  {
    if lines != [] {
      var init := lines[..|lines| - 1];
      var last := lines[|lines| - 1];
      assert lines == init + [last];
      RootFailsIffBadLine(init);
      RootPiecesSnoc(init, last);
      forall i | 0 <= i < |init| ensures init[i] == lines[i] { }
      if !(exists i :: 0 <= i < |init| && BadLine(init[i])) {
        assert BadLine(last) ==> BadLine(lines[|lines| - 1]);
      }
    }
  }

  /** Where the script does not fail, every line with at least one token
      counts the comma pieces of its last token, a single-token line
      included, no other count changes, and the total grows by the number
      of commas plus one. */
  lemma RootLineCounts(lines: seq<Line>, text: string, d: Dict)
    requires ParseContentsRoot(lines) == Success(d)
    requires |Tokens(text)| >= 1
    ensures ParseContentsRoot(lines + [Decoded(text)]).Success?
    ensures var d' := ParseContentsRoot(lines + [Decoded(text)]).value;
      && WellFormed(d) && WellFormed(d')
      && (forall k :: Get(d', k) == Get(d, k) + multiset(SplitComma(LastToken(text)))[k])
      && (forall k :: k in d'.counts <==> k in d.counts || k in SplitComma(LastToken(text)))
      && Total(d') == Total(d) + multiset(LastToken(text))[','] + 1
  {
    var pieces := RootPieces(lines).value;
    RootAcceptedLine(lines, text);
    TallyAppend(pieces, SplitComma(LastToken(text)));
    SplitCommaCount(LastToken(text));
  }

  /** A decoded line with a last token lists the comma pieces of that token. */
  lemma LinePackagesDecoded(text: string)
    requires |Tokens(text)| >= 1
    ensures LinePackages(Decoded(text)) == Success(SplitComma(LastToken(text)))
  {
  }

  /** Every key is a piece some line contributed and every count is the
      number of times it was contributed, hence at least 1. */
  lemma RootParseCounts(lines: seq<Line>)
    requires ParseContentsRoot(lines).Success?
    ensures var d := ParseContentsRoot(lines).value;
      var pieces := RootPieces(lines).value;
      && WellFormed(d) && Positive(d)
      && (forall k :: k in d.counts <==> k in pieces)
      && (forall k :: Get(d, k) == multiset(pieces)[k])
  {
    TallyCounts(RootPieces(lines).value);
  }

  /** On input where every line decodes and has at least two tokens the two
      versions of the parse build the same leaderboard. */
  lemma {:induction false} VersionsAgreeOnWellFormedInput(lines: seq<Line>)
    requires forall i :: 0 <= i < |lines| ==> lines[i].Decoded? && |Tokens(lines[i].text)| >= 2
    ensures ScanLines(lines).Success? && RootPieces(lines).Success?
    ensures ScanLines(lines).value.pieces == RootPieces(lines).value
    ensures ParseContents(lines).Success? && ParseContentsRoot(lines).Success?
    ensures ParseContents(lines).value == ParseContentsRoot(lines).value
  {
    if lines != [] {
      var init := lines[..|lines| - 1];
      var last := lines[|lines| - 1];
      assert lines == init + [last];
      VersionsAgreeOnWellFormedInput(init);
      AcceptedLinePieces(init, last.text);
      RootAcceptedLine(init, last.text);
    }
  }

  /** A decoded line with a token appends the comma pieces of its last
      token. */
  lemma RootAcceptedLine(lines: seq<Line>, text: string)
    requires RootPieces(lines).Success?
    requires |Tokens(text)| >= 1
    ensures RootPieces(lines + [Decoded(text)]) == Success(RootPieces(lines).value + SplitComma(LastToken(text)))
  {
    LinePackagesDecoded(text);
    RootPiecesSnoc(lines, Decoded(text));
  }

  /** A stream made of one single-token line: the package module skips the
      line and returns an empty leaderboard, the script counts the pieces of
      the token. */
  lemma SingleTokenLineDiffers(text: string, w: string)
    requires Tokens(text) == [w]
    ensures ParseContents([Decoded(text)]) == Success(Empty)
    ensures ParseContentsRoot([Decoded(text)]) == Success(Tally(SplitComma(w)))
    ensures Tally(SplitComma(w)) != Empty
  {
    NoAcceptedLines([Decoded(text)]);
    LinePackagesDecoded(text);
    RootPiecesSnoc([], Decoded(text));
    assert [] + [Decoded(text)] == [Decoded(text)];
    assert RootPieces([Decoded(text)]) == Success([] + SplitComma(w));
    var ps := SplitComma(w);
    assert [] + ps == ps;
    TallyCounts(ps);
    assert ps[0] in Tally(ps).counts;
  }
}
