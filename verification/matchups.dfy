/**
 * The week's scoreboard as the league reports it, the one-line rendering of a
 * game, and the two selections the reports make from the board: the games
 * actually played (bye weeks dropped) and the close games among them.
 */
module Matchups {
  import opened Wrappers
  import Text
  import Decimal

  /** A fantasy team: its short abbreviation and its full name. */
  datatype Team = Team(abbrev: string, name: string)

  /**
   * One head-to-head game of the week, scores in hundredths of a point.
   * A bye week is a matchup without an away team.
   */
  datatype Matchup = Matchup(home: Team, homeScore: int, away: Option<Team>, awayScore: int)

  /** Which team field a report prints. */
  datatype LabelKind = Abbrev | FullName

  function Label(t: Team, kind: LabelKind): string
  {
    match kind
    case Abbrev => t.abbrev
    case FullName => t.name
  }

  /** Half-width of the close-game window: 10.00 points, in hundredths. */
  const CloseMargin: int := 1000

  /** A played game whose away-minus-home difference lies strictly inside the window. */
  predicate IsClose(m: Matchup)
  {
    m.away.Some? && -CloseMargin < m.awayScore - m.homeScore < CloseMargin
  }

  /** The four values a score line prints: home label, home score, away score, away label. */
  datatype ScoreLine = ScoreLine(homeLabel: string, homeScore: int, awayScore: int, awayLabel: string)

  /**
   * The values a report prints for a game. Reports only build lines for
   * played games; a bye week, which has no away team, would get an empty
   * away label.
   */
  function LineOf(m: Matchup, kind: LabelKind): ScoreLine
  {
    var away := match m.away
      case Some(t) => Label(t, kind)
      case None => "";
    ScoreLine(Label(m.home, kind), m.homeScore, m.awayScore, away)
  }

  /** The text `'%s %.2f - %.2f %s' % (home label, home score, away score, away label)`. */
  function FormatLine(l: ScoreLine): string
  {
    l.homeLabel + " " + Decimal.FormatHundredths(l.homeScore) + " - "
      + Decimal.FormatHundredths(l.awayScore) + " " + l.awayLabel
  }

  /**
   * A line contains a newline exactly when one of its team labels does, and it
   * is at least 13 characters longer than the two labels together.
   */
  lemma FormatLineShape(l: ScoreLine)
    ensures '\n' in FormatLine(l) <==> '\n' in l.homeLabel || '\n' in l.awayLabel
    ensures |FormatLine(l)| >= |l.homeLabel| + |l.awayLabel| + 13
  {
    Decimal.FormatHundredthsShape(l.homeScore);
    Decimal.FormatHundredthsShape(l.awayScore);
  }

  /** Reads a line back into its four values by splitting it at single spaces. */
  function ParseLine(line: string): Option<ScoreLine>
  {
    var fields := Text.Split(line, ' ');
    if |fields| == 5 && fields[2] == "-" then
      match (Decimal.ParseHundredths(fields[1]), Decimal.ParseHundredths(fields[3]))
      case (Some(h), Some(a)) => Some(ScoreLine(fields[0], h, a, fields[4]))
      case _ => None
    else None
  }

  /** The four printed fields of a line. */
  function Fields(l: ScoreLine): seq<string>
  {
    [l.homeLabel, Decimal.FormatHundredths(l.homeScore), "-", Decimal.FormatHundredths(l.awayScore), l.awayLabel]
  }

  /** The format puts exactly one space between its five fields. */
  lemma FormatLineFields(l: ScoreLine)
    ensures FormatLine(l) == Text.Join(Fields(l), ' ')
  {
    var f := Fields(l);
    var tail3 := f[3] + " " + l.awayLabel;
    var tail2 := "-" + " " + tail3;
    var tail1 := f[1] + " " + tail2;
    assert Text.Join(f[4..], ' ') == l.awayLabel;
    assert Text.Join(f[3..], ' ') == tail3;
    assert Text.Join(f[2..], ' ') == tail2;
    assert Text.Join(f[1..], ' ') == tail1;
    assert Text.Join(f, ' ') == l.homeLabel + " " + tail1;
    assert FormatLine(l) == l.homeLabel + " " + f[1] + " - " + f[3] + " " + l.awayLabel;
  }

  /** A line whose team labels contain no space reads back into exactly the values it was written from. */
  lemma ParseFormatLine(l: ScoreLine)
    requires ' ' !in l.homeLabel && ' ' !in l.awayLabel
    ensures ParseLine(FormatLine(l)) == Some(l)
  {
    FormatLineFields(l);
    Decimal.FormatHundredthsShape(l.homeScore);
    Decimal.FormatHundredthsShape(l.awayScore);
    Text.SplitJoin(Fields(l), ' ');
    Decimal.ParseFormatHundredths(l.homeScore);
    Decimal.ParseFormatHundredths(l.awayScore);
  }

  /** The games of `board` that have an away team, in board order. */
  function Played(board: seq<Matchup>): (games: seq<Matchup>)
    ensures |games| <= |board|
  {
    if board == [] then []
    else
      var m := board[|board| - 1];
      assert board == board[..|board| - 1] + [m];
      var rest := Played(board[..|board| - 1]);
      if m.away.Some? then rest + [m] else rest
  }

  /** The close games of `board`, in board order. */
  function CloseGames(board: seq<Matchup>): (games: seq<Matchup>)
    ensures |games| <= |board|
  {
    if board == [] then []
    else
      var m := board[|board| - 1];
      assert board == board[..|board| - 1] + [m];
      var rest := CloseGames(board[..|board| - 1]);
      if IsClose(m) then rest + [m] else rest
  }

  /** A game is among the played games exactly when it is on the board and has an away team. */
  lemma {:induction false} PlayedMembers(board: seq<Matchup>)
    ensures forall m :: m in Played(board) <==> m in board && m.away.Some?
    decreases |board|
  {
    if board != [] {
      var init := board[..|board| - 1];
      assert board == init + [board[|board| - 1]];
      PlayedMembers(init);
    }
  }

  /** A game is among the close games exactly when it is on the board and is close. */
  lemma {:induction false} CloseGamesMembers(board: seq<Matchup>)
    ensures forall m :: m in CloseGames(board) <==> m in board && IsClose(m)
    decreases |board|
  {
    if board != [] {
      var init := board[..|board| - 1];
      assert board == init + [board[|board| - 1]];
      CloseGamesMembers(init);
    }
  }

  /** A one-game board selects its game exactly when the game qualifies. */
  lemma PlayedSingleton(m: Matchup)
    ensures Played([m]) == (if m.away.Some? then [m] else [])
    ensures CloseGames([m]) == (if IsClose(m) then [m] else [])
  {
    assert [m][..0] == [];
  }

  /** A board is the part before entry `i`, the entry, and the part after it. */
  lemma Around(board: seq<Matchup>, i: nat)
    requires i < |board|
    ensures board[..i] + board[i..] == board
    ensures [board[i]] + board[i + 1..] == board[i..]
  {
  }

  /** Selecting the played games splits around any entry: the part before it, the entry itself, the part after it. */
  lemma PlayedAround(board: seq<Matchup>, i: nat)
    requires i < |board|
    ensures Played(board) == Played(board[..i]) + (Played([board[i]]) + Played(board[i + 1..]))
  {
    Around(board, i);
    PlayedAppend(board[..i], board[i..]);
    PlayedAppend([board[i]], board[i + 1..]);
  }

  /** Selecting the close games splits around any entry in the same way. */
  lemma CloseGamesAround(board: seq<Matchup>, i: nat)
    requires i < |board|
    ensures CloseGames(board) == CloseGames(board[..i]) + (CloseGames([board[i]]) + CloseGames(board[i + 1..]))
  {
    Around(board, i);
    CloseGamesAppend(board[..i], board[i..]);
    CloseGamesAppend([board[i]], board[i + 1..]);
  }

  /** One score line per game, in the same order. */
  function Render(games: seq<Matchup>, kind: LabelKind): (lines: seq<ScoreLine>)
    ensures |lines| == |games|
  {
    if games == [] then []
    else Render(games[..|games| - 1], kind) + [LineOf(games[|games| - 1], kind)]
  }

  /** Selecting the played games of a split board selects from each part, keeping the parts in order. */
  lemma {:induction false} PlayedAppend(a: seq<Matchup>, b: seq<Matchup>)
    ensures Played(a + b) == Played(a) + Played(b)
    decreases |b|
  {
    if b == [] {
      assert a + b == a;
    } else {
      var b' := b[..|b| - 1];
      assert (a + b)[..|a + b| - 1] == a + b';
      PlayedAppend(a, b');
    }
  }

  /** Selecting the close games of a split board selects from each part, keeping the parts in order. */
  lemma {:induction false} CloseGamesAppend(a: seq<Matchup>, b: seq<Matchup>)
    ensures CloseGames(a + b) == CloseGames(a) + CloseGames(b)
    decreases |b|
  {
    if b == [] {
      assert a + b == a;
    } else {
      var b' := b[..|b| - 1];
      assert (a + b)[..|a + b| - 1] == a + b';
      CloseGamesAppend(a, b');
    }
  }

  /** The `k`-th line is the line of the `k`-th game. */
  lemma {:induction false} RenderAt(games: seq<Matchup>, kind: LabelKind, k: nat)
    requires k < |games|
    ensures Render(games, kind)[k] == LineOf(games[k], kind)
    decreases |games|
  {
    if k < |games| - 1 {
      RenderAt(games[..|games| - 1], kind, k);
    }
  }

  /** Rendering a concatenation renders each part, in order. */
  lemma {:induction false} RenderAppend(a: seq<Matchup>, b: seq<Matchup>, kind: LabelKind)
    ensures Render(a + b, kind) == Render(a, kind) + Render(b, kind)
    decreases |b|
  {
    if b == [] {
      assert a + b == a;
    } else {
      var b' := b[..|b| - 1];
      assert (a + b)[..|a + b| - 1] == a + b';
      RenderAppend(a, b', kind);
    }
  }

  /** The close games are the played games with the bye weeks and the lopsided games deleted, order kept. */
  lemma {:induction false} CloseGamesSubsequence(board: seq<Matchup>)
    ensures Text.IsSubsequence(CloseGames(board), Played(board))
    decreases |board|
  {
    if board != [] {
      var init, m := board[..|board| - 1], board[|board| - 1];
      CloseGamesSubsequence(init);
      if IsClose(m) {
        Text.SubsequenceAppendBoth(CloseGames(init), Played(init), m);
      } else if m.away.Some? {
        Text.SubsequenceExtend(CloseGames(init), Played(init), m);
      }
    }
  }

  /** Rendering the same way keeps one list of games a subsequence of another. */
  lemma {:induction false} RenderSubsequence(a: seq<Matchup>, b: seq<Matchup>, kind: LabelKind)
    requires Text.IsSubsequence(a, b)
    ensures Text.IsSubsequence(Render(a, kind), Render(b, kind))
    decreases |b|
  {
    if a != [] {
      var a', b' := a[..|a| - 1], b[..|b| - 1];
      assert Render(b, kind) == Render(b', kind) + [LineOf(b[|b| - 1], kind)];
      if a[|a| - 1] == b[|b| - 1] {
        RenderSubsequence(a', b', kind);
        assert Render(a, kind) == Render(a', kind) + [LineOf(a[|a| - 1], kind)];
        Text.SubsequenceAppendBoth(Render(a', kind), Render(b', kind), LineOf(b[|b| - 1], kind));
      } else {
        RenderSubsequence(a, b', kind);
        Text.SubsequenceExtend(Render(a, kind), Render(b', kind), LineOf(b[|b| - 1], kind));
      }
    }
  }
}
