# ff_bot report builder and dispatch, in Dafny

A model of the part of `ff_bot` that decides what the fantasy-football bot
posts to its GroupMe chat. The bot has three text reports built from the
week's scoreboard:

- the short scoreboard, with team abbreviations;
- the full scoreboard, with team names;
- the close-scores digest. It lists only games whose away-minus-home
  difference lies strictly between -10 and 10 points, or prints `None`.

All three drop bye weeks (matchups with no away team). Each puts a fixed
header line first and joins the lines with newlines. `bot_main` maps a
report-type token to one of these builders, to the init message or to a
fallback text, posts the text, and raises when the chat server does not
answer 202. There is also `random_phrase`, which picks one of thirteen canned
phrases.

Modules, one per concern:

- `Wrappers` (`wrappers.dfy`): `Option`.
- `Text` (`text.dfy`): `Join` models `'\n'.join(lines)` and `Split` models
  `s.split(sep)`. Splitting a joined text gives back its lines when there is
  at least one line and no line contains the separator. `IsSubsequence` is the
  "same relative order" relation.
- `Decimal` (`decimal.dfy`): scores are integers in hundredths of a point.
  `FormatHundredths` is the exact `%.2f` rendering of such a score (a sign,
  then `FormatUnsigned`), and `ParseHundredths` reads it back.
- `Matchups` (`matchups.dfy`): `Team`, `Matchup` (away team optional), and
  `ScoreLine`, the four values a report line prints. `LineOf` takes them from
  a game, `FormatLine` prints them as `'%s %.2f - %.2f %s'`, and `ParseLine`
  reads them back. Also the two selections the reports make: `Played` and
  `CloseGames`, and `Render`, which maps games to their score lines.
- `Reports` (`reports.dfy`): `Texts` prints a list of score lines.
  `ScoreboardLines` and `CloseLines` say what each report contains. The
  methods `GetScoreboardShort`, `GetScoreboard` and `GetCloseScores` walk the
  board the way the bot does, collecting score lines and printing them when
  the message is joined. They are proved equal to those definitions, and the
  lemmas state the report properties. This module also holds `RandomPhrase`.
- `Bot` (`bot.dfy`): `Dispatch` (token to action), `CheckStatus`, and
  `BotMain`, which gives the text posted and the error raised.

The close window is exact: a score of 100.00 points is the integer 10000, and
10 points is `CloseMargin = 1000`.

Three behaviours of `bot_main` that are easy to misread:

- An unknown token posts `Something happened. HALP`.
- A refused post raises `InvalidBotId`, except in the `init` branch. There
  the bare `except` also swallows the failed post (`BotMain`).
- The `get_matchups` token does not reach the fallback. It calls a function
  that the module never defines, which raises `NameError` before anything is
  posted. It is modelled as `UndefinedName("get_matchups")`.

## Model

| member | source | states |
|---|---|---|
| Decimal.ParseFormatHundredths | ff_bot/ff_bot.py:48 | every score's `%.2f` rendering reads back as exactly that score |
| Matchups.FormatLineShape | ff_bot/ff_bot.py:48-49 | a report line contains a newline exactly when one of its two team labels does; it is at least 13 characters longer than the labels together |
| Matchups.FormatLineFields | ff_bot/ff_bot.py:48-49 | a report line is its five fields (home label, home score, `-`, away score, away label) with exactly one space between neighbours |
| Matchups.ParseFormatLine | ff_bot/ff_bot.py:73-74 | a line whose labels contain no space splits back into the home label, both scores and the away label it was written from |
| Matchups.PlayedMembers | ff_bot/ff_bot.py:48-50 | a matchup is among the reported games exactly when it is on the board and has an away team |
| Matchups.CloseGamesMembers | ff_bot/ff_bot.py:68-71 | a matchup is among the close games exactly when it is on the board, has an away team and its away-minus-home difference is strictly inside (-1000, 1000) hundredths |
| Matchups.PlayedSingleton | ff_bot/ff_bot.py:48-50 | a one-game board yields its game for the scoreboards exactly when it has an away team, and for the digest exactly when it is close |
| Matchups.PlayedAppend | ff_bot/ff_bot.py:48-50 | the comprehension keeps board order: the games kept from a concatenated board are those kept from the first part, then those kept from the second |
| Matchups.CloseGamesAppend | ff_bot/ff_bot.py:68-74 | the close-games loop keeps board order, part by part |
| Matchups.RenderAppend | ff_bot/ff_bot.py:48-49 | the lines of a concatenation of games are the lines of the first part, then those of the second |
| Matchups.CloseGamesSubsequence | ff_bot/ff_bot.py:69-71 | the close games are the played games with some deleted and the rest in the same order |
| Reports.GetScoreboardShort | ff_bot/ff_bot.py:45-52 | the loop-built short scoreboard is the header line followed by one abbreviation line per played game, joined by newlines |
| Reports.GetScoreboard | ff_bot/ff_bot.py:54-61 | the same with full team names |
| Reports.GetCloseScores | ff_bot/ff_bot.py:63-78 | the loop-built digest is the header followed by the close games' lines, or by `None` when the loop kept nothing |
| Reports.ScoreboardStartsWithHeader | ff_bot/ff_bot.py:51-52 | both scoreboards begin with `Score Update`. That header is the whole message exactly when no game was played; otherwise a newline follows it |
| Reports.CloseStartsWithHeader | ff_bot/ff_bot.py:77-78 | the digest always begins with `Close Scores` and a newline |
| Reports.ByeContributesNothing | ff_bot/ff_bot.py:48-50 | deleting a bye-week matchup from the board changes none of the three reports |
| Reports.OnlyByes | ff_bot/ff_bot.py:75-77 | a board of bye weeks only gives exactly `Score Update`, and exactly `Close Scores\nNone` |
| Reports.ScoreboardLineCount | ff_bot/ff_bot.py:47-52 | a scoreboard has exactly one line more than the board has matchups with an away team |
| Reports.ScoreboardLinePosition | ff_bot/ff_bot.py:48-51 | the line of the played game at board index i sits at position 1 + the number of played games before i |
| Reports.ScoreboardLinesInBoardOrder | ff_bot/ff_bot.py:48-51 | for played games at indices i < j, the line of i comes strictly before the line of j |
| Reports.CloseLinePosition | ff_bot/ff_bot.py:68-77 | the line of a close game sits at position 1 + the number of close games before it on the board |
| Reports.CloseSingleGame | ff_bot/ff_bot.py:70-71 | a single played game is listed exactly when its difference is strictly inside (-10, 10) points; at exactly +10 or -10 the digest is `Close Scores\nNone` |
| Reports.CloseNoneIffNoCloseGame | ff_bot/ff_bot.py:75-78 | the digest is exactly `Close Scores\nNone` when no game is close, and only then |
| Reports.NoneLineIffNoCloseGame | ff_bot/ff_bot.py:75-77 | a `None` line appears after the digest's header exactly when no game is close; no game's line can read `None` |
| Reports.CloseLinesAmongShort | ff_bot/ff_bot.py:48-50 | when some game is close, the digest's lines after the header are a subsequence of the short scoreboard's lines after its header, so each is also a short-scoreboard line |
| Reports.ScoreboardMessageSplits | ff_bot/ff_bot.py:51-52 | if no label contains a newline, splitting a scoreboard message at newlines gives back exactly its lines |
| Reports.CloseMessageSplits | ff_bot/ff_bot.py:77-78 | if no abbreviation contains a newline, splitting the digest at newlines gives back exactly its lines |
| Reports.SingleCloseGameReports | ff_bot/ff_bot.py:45-78 | for a board of one close game, the short scoreboard and the digest are each their header, a newline and that game's abbreviated line |
| Decimal.ExampleScores | ff_bot/ff_bot.py:48 | 100 points render as `100.00` and 95 points as `95.00` |
| Reports.ExampleLine | ff_bot/ff_bot.py:48-49 | AAA scoring 100.00 at home against BBB scoring 95.00 prints as `AAA 100.00 - 95.00 BBB` |
| Reports.RandomPhrase | ff_bot/ff_bot.py:36-43 | the result is a one-element list whose element is one of the thirteen phrases |
| Reports.EveryPhraseReachable | ff_bot/ff_bot.py:36-43 | every one of the thirteen phrases is the result for some draw |
| Bot.Dispatch | ff_bot/ff_bot.py:91-112 | a token falls to the fallback exactly when it is none of the five known tokens; otherwise the action's own token is the token given |
| Bot.DispatchTokenOf | ff_bot/ff_bot.py:91-103 | each non-fallback action is selected by its own token |
| Bot.Send | ff_bot/ff_bot.py:20-34 | the text is always posted; the call raises exactly when the status is not 202 |
| Bot.CheckStatus | ff_bot/ff_bot.py:31-32 | a post passes exactly when the status is 202; any other status is an `InvalidBotId` error |
| Bot.BotMain | ff_bot/ff_bot.py:80-112 | each report token posts its builder's message and the fallback token posts `Something happened. HALP`. `init` posts the init message if there is one and never raises. `get_matchups` posts nothing and raises `UndefinedName`. Every other run raises exactly when the status is not 202 |
| Bot.ScheduledTokensNeverFallBack | ff_bot/ff_bot.py:139-140 | the startup token selects the init message and the two weekly jobs select the close-scores digest and the short scoreboard, never the fallback |

## Left out

- The HTTP POST in `send_message` is network I/O. The model takes the status code the server answers with as a parameter; the JSON payload and headers are not modelled.
- The `League` construction and `league.scoreboard()` call into a foreign library. The board is an input sequence of matchups.
- Environment variables (`BOT_ID`, `LEAGUE_ID`, `LEAGUE_YEAR`, `INIT_MSG`, start and end dates, timezone) and their fallback defaults are configuration I/O. `INIT_MSG` becomes an optional parameter of `BotMain`.
- The APScheduler cron jobs, their days and hours, timezone, date window and 15-minute misfire grace are wall-clock scheduling in an external library. Only the tokens the jobs pass are modelled.
- Scores are exact hundredths of a point. Python floats and `%.2f` rounding of values with more digits are not modelled. So the exclusion of a difference of exactly ±10.00 (`Reports.CloseSingleGame`) holds only for exact hundredths. The program subtracts floats, and for two scores printed 10.00 apart the float difference can fall on either side of 10. For example, `70.1 - 60.1` is `9.999999999999993`, so the game `60.10 - 70.10` is listed.
- `random.choice` is modelled by the drawn index, given as a parameter. Uniformity is not modelled, only which phrases can come out.
- `get_matchups` has no behaviour to model: the module never defines it. Only the error its call raises is modelled.
- `GroupMeBot.__repr__` only formats the bot id for debugging.
- `LineOf` is total: for a bye week it would print an empty away label. The reports never build a line for a bye, so this case never reaches a message.
- Matchups.ParseFormatLine: requires labels without spaces, because full team names may contain spaces and then the line cannot be split back unambiguously.
- Reports.ScoreboardMessageSplits: requires labels without newlines, because a label containing one would make the message split into more lines than the report has.
