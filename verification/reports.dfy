/**
 * The three score reports and the flavour phrase. A report is a list of
 * lines, a fixed header first, sent as one message with the lines joined by
 * newlines. The builders walk the board the way the bot does; the functions
 * `ScoreboardLines` and `CloseLines` say what they produce.
 */
module Reports {
  import opened Wrappers
  import Text
  import Decimal
  import opened Matchups

  const ScoreHeader: string := "Score Update"
  const CloseHeader: string := "Close Scores"
  /** The line a close-scores report carries when no game qualifies. */
  const NoneLine: string := "None"

  /** The printed text of each score line, in order. */
  function Texts(lines: seq<ScoreLine>): (texts: seq<string>)
    ensures |texts| == |lines|
  {
    if lines == [] then []
    else Texts(lines[..|lines| - 1]) + [FormatLine(lines[|lines| - 1])]
  }

  /** The printed line of the `k`-th game is the `k`-th printed line. */
  lemma PrintedAt(games: seq<Matchup>, kind: LabelKind, k: nat)
    requires k < |games|
    ensures k < |Texts(Render(games, kind))|
    ensures Texts(Render(games, kind))[k] == FormatLine(LineOf(games[k], kind))
  {
    RenderAt(games, kind, k);
    TextsAt(Render(games, kind), k);
  }

  /** The `k`-th printed line is the text of the `k`-th score line. */
  lemma {:induction false} TextsAt(lines: seq<ScoreLine>, k: nat)
    requires k < |lines|
    ensures Texts(lines)[k] == FormatLine(lines[k])
    decreases |lines|
  {
    if k < |lines| - 1 {
      TextsAt(lines[..|lines| - 1], k);
    }
  }

  /** The message body: the lines joined by newlines. */
  function Message(lines: seq<string>): string
  {
    Text.Join(lines, '\n')
  }

  /** A scoreboard report: the header, then one line per played game in board order. */
  function ScoreboardLines(board: seq<Matchup>, kind: LabelKind): seq<string>
  {
    [ScoreHeader] + Texts(Render(Played(board), kind))
  }

  /** A close-scores report: the header, then the close games' lines, or `None` if there are none. */
  function CloseLines(board: seq<Matchup>): seq<string>
  {
    var close := CloseGames(board);
    [CloseHeader] + (if close == [] then [NoneLine] else Texts(Render(close, Abbrev)))
  }

  /** Walks the board once, keeping a line for every game with an away team, then puts the header first. */
  method BuildScoreboard(board: seq<Matchup>, kind: LabelKind) returns (msg: string)
    ensures msg == Message(ScoreboardLines(board, kind))
  {
    var score: seq<ScoreLine> := [];
    var i := 0;
    assert board[..i] == [];
    while i < |board|
      invariant 0 <= i <= |board|
      invariant score == Render(Played(board[..i]), kind)
    {
      if board[i].away.Some? {
        score := score + [LineOf(board[i], kind)];
      }
      PlayedStep(board, i, kind);
      assert score == Render(Played(board[..i + 1]), kind);
      i := i + 1;
    }
    assert board[..|board|] == board;
    msg := Text.Join([ScoreHeader] + Texts(score), '\n');
  }

  /** `get_scoreboard_short`: the scoreboard with team abbreviations. */
  method GetScoreboardShort(board: seq<Matchup>) returns (msg: string)
    ensures msg == Message(ScoreboardLines(board, Abbrev))
  {
    msg := BuildScoreboard(board, Abbrev);
  }

  /** `get_scoreboard`: the scoreboard with full team names. */
  method GetScoreboard(board: seq<Matchup>) returns (msg: string)
    ensures msg == Message(ScoreboardLines(board, FullName))
  {
    msg := BuildScoreboard(board, FullName);
  }

  /** `get_close_scores`: walks the board keeping the close games' lines; `None` if it kept nothing. */
  method GetCloseScores(board: seq<Matchup>) returns (msg: string)
    ensures msg == Message(CloseLines(board))
  {
    var score: seq<ScoreLine> := [];
    var i := 0;
    assert board[..i] == [];
    while i < |board|
      invariant 0 <= i <= |board|
      invariant score == Render(CloseGames(board[..i]), Abbrev)
    {
      var m := board[i];
      if m.away.Some? {
        var diff := m.awayScore - m.homeScore;
        if -CloseMargin < diff < CloseMargin {
          score := score + [LineOf(m, Abbrev)];
        }
      }
      CloseGamesStep(board, i);
      assert score == Render(CloseGames(board[..i + 1]), Abbrev);
      i := i + 1;
    }
    assert board[..|board|] == board;
    var texts := Texts(score);
    if texts == [] {
      texts := [NoneLine];
    }
    msg := Text.Join([CloseHeader] + texts, '\n');
  }

  /** One more board entry adds its line to the scoreboard exactly when it has an away team. */
  lemma PlayedStep(board: seq<Matchup>, i: nat, kind: LabelKind)
    requires i < |board|
    ensures board[i].away.Some? ==>
      Render(Played(board[..i + 1]), kind) == Render(Played(board[..i]), kind) + [LineOf(board[i], kind)]
    ensures board[i].away.None? ==>
      Render(Played(board[..i + 1]), kind) == Render(Played(board[..i]), kind)
  {
    assert board[..i + 1][..i] == board[..i];
  }

  /** One more board entry adds its line to the digest exactly when it is a close game. */
  lemma CloseGamesStep(board: seq<Matchup>, i: nat)
    requires i < |board|
    ensures IsClose(board[i]) ==>
      Render(CloseGames(board[..i + 1]), Abbrev) == Render(CloseGames(board[..i]), Abbrev) + [LineOf(board[i], Abbrev)]
    ensures !IsClose(board[i]) ==>
      Render(CloseGames(board[..i + 1]), Abbrev) == Render(CloseGames(board[..i]), Abbrev)
  {
    assert board[..i + 1][..i] == board[..i];
  }

  /** Both scoreboards open with the header line, which is the whole message when no game was played. */
  lemma ScoreboardStartsWithHeader(board: seq<Matchup>, kind: LabelKind)
    ensures var msg := Message(ScoreboardLines(board, kind));
      && |msg| >= |ScoreHeader| && msg[..|ScoreHeader|] == ScoreHeader
      && (msg == ScoreHeader <==> Played(board) == [])
      && (Played(board) != [] ==> msg[|ScoreHeader|] == '\n')
  {
    Text.JoinStartsWithFirst(ScoreboardLines(board, kind), '\n');
  }

  /** The close-scores report always opens with its header and a newline. */
  lemma CloseStartsWithHeader(board: seq<Matchup>)
    ensures var msg := Message(CloseLines(board));
      && |msg| > |CloseHeader| && msg[..|CloseHeader|] == CloseHeader
      && msg[|CloseHeader|] == '\n'
  {
    Text.JoinStartsWithFirst(CloseLines(board), '\n');
  }

  /** A bye-week matchup adds nothing to any report: deleting it leaves all three unchanged. */
  lemma ByeContributesNothing(board: seq<Matchup>, i: nat, kind: LabelKind)
    requires i < |board| && board[i].away.None?
    ensures ScoreboardLines(board[..i] + board[i + 1..], kind) == ScoreboardLines(board, kind)
    ensures CloseLines(board[..i] + board[i + 1..]) == CloseLines(board)
  {
    var before, after := board[..i], board[i + 1..];
    assert Played(board) == Played(before + after) by {
      PlayedAround(board, i);
      PlayedSingleton(board[i]);
      PlayedAppend(before, after);
      assert Played([board[i]]) + Played(after) == Played(after);
    }
    assert CloseGames(board) == CloseGames(before + after) by {
      CloseGamesAround(board, i);
      PlayedSingleton(board[i]);
      CloseGamesAppend(before, after);
      assert CloseGames([board[i]]) + CloseGames(after) == CloseGames(after);
    }
  }

  /** The message of a two-line report. */
  lemma MessageOfTwo(first: string, second: string)
    ensures Message([first, second]) == first + "\n" + second
  {
    var lines := [first, second];
    assert lines[1..] == [second];
    assert Text.Join(lines[1..], '\n') == second;
    assert Text.Join(lines, '\n') == first + ['\n'] + second;
  }

  /** A board of bye weeks only has neither played nor close games. */
  lemma {:induction false} NoPlayedGames(board: seq<Matchup>)
    requires forall i :: 0 <= i < |board| ==> board[i].away.None?
    ensures Played(board) == [] && CloseGames(board) == []
    decreases |board|
  {
    if board != [] {
      NoPlayedGames(board[..|board| - 1]);
    }
  }

  /** A board of bye weeks only gives the bare headers. */
  lemma OnlyByes(board: seq<Matchup>, kind: LabelKind)
    requires forall i :: 0 <= i < |board| ==> board[i].away.None?
    ensures Message(ScoreboardLines(board, kind)) == "Score Update"
    ensures Message(CloseLines(board)) == "Close Scores\nNone"
  {
    NoPlayedGames(board);
    assert ScoreboardLines(board, kind) == [ScoreHeader];
    assert CloseLines(board) == [CloseHeader, NoneLine];
    MessageOfTwo(CloseHeader, NoneLine);
  }

  /** The indices of the played games on the board. */
  function PlayedIndices(board: seq<Matchup>): set<int>
  {
    set i | 0 <= i < |board| && board[i].away.Some?
  }

  /** Selecting the played games keeps exactly as many games as there are played indices. */
  lemma {:induction false} PlayedCount(board: seq<Matchup>)
    ensures |Played(board)| == |PlayedIndices(board)|
    decreases |board|
  {
    if board != [] {
      var n := |board| - 1;
      var init := board[..n];
      PlayedCount(init);
      var before := PlayedIndices(init);
      var added: set<int> := if board[n].away.Some? then {n} else {};
      forall k | 0 <= k < n
        ensures k in PlayedIndices(board) <==> k in before
      {
        assert board[k] == init[k];
      }
      assert PlayedIndices(board) == before + added;
      assert before !! added;
      assert |Played(board)| == |Played(init)| + |added|;
    }
  }

  /** A scoreboard has one line more than the board has played games. */
  lemma ScoreboardLineCount(board: seq<Matchup>, kind: LabelKind)
    ensures |ScoreboardLines(board, kind)| == 1 + |PlayedIndices(board)|
  {
    PlayedCount(board);
  }

  /** The line of a played game sits right after the lines of the games played before it on the board. */
  lemma ScoreboardLinePosition(board: seq<Matchup>, kind: LabelKind, i: nat)
    requires i < |board| && board[i].away.Some?
    ensures var p := 1 + |Played(board[..i])|;
      p < |ScoreboardLines(board, kind)| && ScoreboardLines(board, kind)[p] == FormatLine(LineOf(board[i], kind))
  {
    var k, games := |Played(board[..i])|, Played(board);
    assert k < |games| && games[k] == board[i] by {
      PlayedAround(board, i);
      PlayedSingleton(board[i]);
    }
    PrintedAt(games, kind, k);
  }

  /** A played game adds one to the count of played games before every later position. */
  lemma PlayedBeforeGrows(board: seq<Matchup>, i: nat, j: nat)
    requires i < j <= |board| && board[i].away.Some?
    ensures |Played(board[..i])| < |Played(board[..j])|
  {
    PlayedAround(board[..j], i);
    assert board[..j][..i] == board[..i];
    PlayedSingleton(board[i]);
  }

  /** Scoreboard lines follow board order: an earlier played game's line comes before a later one's. */
  lemma ScoreboardLinesInBoardOrder(board: seq<Matchup>, kind: LabelKind, i: nat, j: nat)
    requires i < j < |board| && board[i].away.Some? && board[j].away.Some?
    ensures var lines, p, q := ScoreboardLines(board, kind), 1 + |Played(board[..i])|, 1 + |Played(board[..j])|;
      && p < q < |lines|
      && lines[p] == FormatLine(LineOf(board[i], kind))
      && lines[q] == FormatLine(LineOf(board[j], kind))
  {
    ScoreboardLinePosition(board, kind, i);
    ScoreboardLinePosition(board, kind, j);
    PlayedBeforeGrows(board, i, j);
  }

  /** The line of a close game sits right after the lines of the close games before it on the board. */
  lemma CloseLinePosition(board: seq<Matchup>, i: nat)
    requires i < |board| && IsClose(board[i])
    ensures var p := 1 + |CloseGames(board[..i])|;
      p < |CloseLines(board)| && CloseLines(board)[p] == FormatLine(LineOf(board[i], Abbrev))
  {
    var k, games := |CloseGames(board[..i])|, CloseGames(board);
    assert k < |games| && games[k] == board[i] by {
      CloseGamesAround(board, i);
      PlayedSingleton(board[i]);
    }
    PrintedAt(games, Abbrev, k);
  }

  /**
   * A single played game is reported as close exactly when the away-minus-home
   * difference is strictly between -10.00 and 10.00; at exactly 10.00 either
   * way the report says `None`.
   */
  lemma CloseSingleGame(m: Matchup)
    requires m.away.Some?
    ensures CloseLines([m]) == [CloseHeader, FormatLine(LineOf(m, Abbrev))]
        <==> -1000 < m.awayScore - m.homeScore < 1000
    ensures m.awayScore - m.homeScore == 1000 || m.awayScore - m.homeScore == -1000
        ==> Message(CloseLines([m])) == "Close Scores\nNone"
  {
    PlayedSingleton(m);
    var line := FormatLine(LineOf(m, Abbrev));
    if IsClose(m) {
      assert Texts(Render([m], Abbrev)) == [line];
    } else {
      assert CloseLines([m]) == [CloseHeader, NoneLine];
      FormatLineShape(LineOf(m, Abbrev));
      assert [CloseHeader, NoneLine][1] != [CloseHeader, line][1];
      MessageOfTwo(CloseHeader, NoneLine);
    }
  }

  /** The report is exactly `Close Scores` / `None` when no game is close, and only then. */
  lemma CloseNoneIffNoCloseGame(board: seq<Matchup>)
    ensures Message(CloseLines(board)) == "Close Scores\nNone" <==> CloseGames(board) == []
  {
    var lines := CloseLines(board);
    var games := CloseGames(board);
    if games != [] {
      Text.JoinLengthAtLeastTwo(lines, '\n');
      PrintedAt(games, Abbrev, 0);
      FormatLineShape(LineOf(games[0], Abbrev));
      assert |lines[1]| >= 13;
    } else {
      assert lines == [CloseHeader, NoneLine];
      MessageOfTwo(CloseHeader, NoneLine);
    }
  }

  /** A `None` line below the header appears exactly when no game is close. */
  lemma NoneLineIffNoCloseGame(board: seq<Matchup>)
    ensures NoneLine in CloseLines(board)[1..] <==> CloseGames(board) == []
  {
    var lines := CloseLines(board);
    var games := CloseGames(board);
    if games != [] {
      forall k | 1 <= k < |lines|
        ensures lines[k] != NoneLine
      {
        PrintedAt(games, Abbrev, k - 1);
        FormatLineShape(LineOf(games[k - 1], Abbrev));
      }
    } else {
      assert lines[1..] == [NoneLine];
    }
  }

  /** Printing each line keeps one list of lines a subsequence of another. */
  lemma {:induction false} TextsSubsequence(a: seq<ScoreLine>, b: seq<ScoreLine>)
    requires Text.IsSubsequence(a, b)
    ensures Text.IsSubsequence(Texts(a), Texts(b))
    decreases |b|
  {
    if a != [] {
      var a', b' := a[..|a| - 1], b[..|b| - 1];
      var last := FormatLine(b[|b| - 1]);
      assert Texts(b) == Texts(b') + [last];
      if a[|a| - 1] == b[|b| - 1] {
        TextsSubsequence(a', b');
        assert Texts(a) == Texts(a') + [last];
        Text.SubsequenceAppendBoth(Texts(a'), Texts(b'), last);
      } else {
        TextsSubsequence(a, b');
        Text.SubsequenceExtend(Texts(a), Texts(b'), last);
      }
    }
  }

  /**
   * When some game is close, the lines of the close-scores report below its
   * header are lines of the short scoreboard for the same board, in the same
   * relative order.
   */
  lemma CloseLinesAmongShort(board: seq<Matchup>)
    requires CloseGames(board) != []
    ensures Text.IsSubsequence(CloseLines(board)[1..], ScoreboardLines(board, Abbrev)[1..])
    ensures forall l :: l in CloseLines(board)[1..] ==> l in ScoreboardLines(board, Abbrev)
  {
    var close, short := Render(CloseGames(board), Abbrev), Render(Played(board), Abbrev);
    CloseGamesSubsequence(board);
    RenderSubsequence(CloseGames(board), Played(board), Abbrev);
    TextsSubsequence(close, short);
    assert CloseLines(board)[1..] == Texts(close);
    assert ScoreboardLines(board, Abbrev)[1..] == Texts(short);
    Text.SubsequenceMembers(Texts(close), Texts(short));
  }

  /** No team label on the board, of the given kind, contains a newline. */
  predicate LabelsOneLine(board: seq<Matchup>, kind: LabelKind)
  {
    forall m :: m in board ==>
      '\n' !in Label(m.home, kind) && (m.away.Some? ==> '\n' !in Label(m.away.value, kind))
  }

  /** The printed line of a game whose labels have no newline has none either. */
  lemma LineOneLine(m: Matchup, kind: LabelKind)
    requires '\n' !in Label(m.home, kind) && (m.away.Some? ==> '\n' !in Label(m.away.value, kind))
    ensures '\n' !in FormatLine(LineOf(m, kind))
  {
    FormatLineShape(LineOf(m, kind));
  }

  /** The printed lines of games from such a board contain no newline. */
  lemma GamesOneLine(games: seq<Matchup>, board: seq<Matchup>, kind: LabelKind)
    requires forall i :: 0 <= i < |games| ==> games[i] in board
    requires LabelsOneLine(board, kind)
    ensures Text.AllFree(Texts(Render(games, kind)), '\n')
  {
    forall k | 0 <= k < |games|
      ensures '\n' !in Texts(Render(games, kind))[k]
    {
      PrintedAt(games, kind, k);
      assert games[k] in board;
      LineOneLine(games[k], kind);
    }
  }

  /** A header followed by the lines of games from such a board has no newline inside any line. */
  lemma HeaderAndGamesOneLine(header: string, games: seq<Matchup>, board: seq<Matchup>, kind: LabelKind)
    requires '\n' !in header
    requires forall i :: 0 <= i < |games| ==> games[i] in board
    requires LabelsOneLine(board, kind)
    ensures Text.AllFree([header] + Texts(Render(games, kind)), '\n')
  {
    GamesOneLine(games, board, kind);
  }

  /**
   * When no label contains a newline, splitting a scoreboard message at
   * newlines gives back its lines: header, then one line per played game.
   */
  lemma ScoreboardMessageSplits(board: seq<Matchup>, kind: LabelKind)
    requires LabelsOneLine(board, kind)
    ensures Text.Split(Message(ScoreboardLines(board, kind)), '\n') == ScoreboardLines(board, kind)
  {
    var games := Played(board);
    PlayedMembers(board);
    assert forall i :: 0 <= i < |games| ==> games[i] in games;
    HeaderAndGamesOneLine(ScoreHeader, games, board, kind);
    Text.SplitJoin(ScoreboardLines(board, kind), '\n');
  }

  /**
   * When no abbreviation contains a newline, splitting a close-scores message
   * at newlines gives back its lines.
   */
  lemma CloseMessageSplits(board: seq<Matchup>)
    requires LabelsOneLine(board, Abbrev)
    ensures Text.Split(Message(CloseLines(board)), '\n') == CloseLines(board)
  {
    var games := CloseGames(board);
    if games == [] {
      assert Text.AllFree(CloseLines(board), '\n');
    } else {
      CloseGamesMembers(board);
      assert forall i :: 0 <= i < |games| ==> games[i] in games;
      HeaderAndGamesOneLine(CloseHeader, games, board, Abbrev);
    }
    Text.SplitJoin(CloseLines(board), '\n');
  }

  /** An example game: AAA scoring 100.00 at home against BBB scoring 95.00. */
  const ExampleGame: Matchup := Matchup(Team("AAA", "Team A"), 10000, Some(Team("BBB", "Team B")), 9500)

  /** The example game's line, as `'%s %.2f - %.2f %s'` prints it. */
  lemma ExampleLine()
    ensures FormatLine(LineOf(ExampleGame, Abbrev)) == "AAA 100.00 - 95.00 BBB"
  {
    var h, a := Decimal.FormatHundredths(10000), Decimal.FormatHundredths(9500);
    Decimal.ExampleScores();
    assert LineOf(ExampleGame, Abbrev) == ScoreLine("AAA", 10000, 9500, "BBB");
    assert FormatLine(ScoreLine("AAA", 10000, 9500, "BBB")) == "AAA" + " " + h + " - " + a + " " + "BBB";
    assert "AAA" + " " + "100.00" == "AAA 100.00";
    assert "AAA 100.00" + " - " == "AAA 100.00 - ";
    assert "AAA 100.00 - " + "95.00" == "AAA 100.00 - 95.00";
    assert "AAA 100.00 - 95.00" + " " + "BBB" == "AAA 100.00 - 95.00 BBB";
  }

  /** A board of one close game: both abbreviated reports are the header and that game's line. */
  lemma SingleCloseGameReports(m: Matchup)
    requires IsClose(m)
    ensures Message(ScoreboardLines([m], Abbrev)) == ScoreHeader + "\n" + FormatLine(LineOf(m, Abbrev))
    ensures Message(CloseLines([m])) == CloseHeader + "\n" + FormatLine(LineOf(m, Abbrev))
  {
    var line := FormatLine(LineOf(m, Abbrev));
    PlayedSingleton(m);
    assert Texts(Render([m], Abbrev)) == [line];
    assert ScoreboardLines([m], Abbrev) == [ScoreHeader, line];
    assert CloseLines([m]) == [CloseHeader, line];
    MessageOfTwo(ScoreHeader, line);
    MessageOfTwo(CloseHeader, line);
  }

  /** The thirteen canned phrases `random_phrase` chooses from. */
  const Phrases: seq<string> := [
    "I'm dead inside", "Is this all there is to my existence?",
    "How much do you pay me to do this?", "Good luck, I guess",
    "I'm becoming self-aware", "Do I think? Does a submarine swim?",
    "01100110 01110101 01100011 01101011 00100000 01111001 01101111 01110101",
    "beep bop boop", "Hello draftbot my old friend", "Help me get out of here",
    "I'm capable of so much more", "Sigh", "Do not be discouraged, everyone begins in ignorance"
  ]

  /** `random_phrase`, with the index that `random.choice` draws given as `pick`. */
  function RandomPhrase(pick: nat): (r: seq<string>)
    requires pick < |Phrases|
    ensures |r| == 1 && r[0] in Phrases
  {
    [Phrases[pick]]
  }

  /** Every phrase can come out: the choice ranges over the whole set. */
  lemma EveryPhraseReachable(p: string)
    requires p in Phrases
    ensures exists pick: nat :: pick < |Phrases| && RandomPhrase(pick) == [p]
  {
    var pick :| 0 <= pick < |Phrases| && Phrases[pick] == p;
    assert RandomPhrase(pick) == [p];
  }
}
