/**
 * `bot_main`: the report-type token selects a report builder, the init
 * message or a fallback text; the chosen text is posted to the group chat,
 * and a post the server does not accept raises. The HTTP call itself is
 * outside the model: the status code it answers with is a parameter.
 */
module Bot {
  import opened Wrappers
  import opened Matchups
  import Reports

  /** What `bot_main` does for a token. */
  datatype Action =
    | CallGetMatchups      // calls `get_matchups`, which the bot's module never defines
    | SendScoreboard
    | SendScoreboardShort
    | SendCloseScores
    | SendInit
    | SendFallback

  /** The text posted for a token no branch recognises. */
  const FallbackText: string := "Something happened. HALP"

  /** The tokens with a branch of their own. */
  const KnownTokens: set<string> :=
    {"get_matchups", "get_scoreboard", "get_scoreboard_short", "get_close_scores", "init"}

  /** The token that selects a non-fallback action. */
  function TokenOf(a: Action): string
    requires !a.SendFallback?
  {
    match a
    case CallGetMatchups => "get_matchups"
    case SendScoreboard => "get_scoreboard"
    case SendScoreboardShort => "get_scoreboard_short"
    case SendCloseScores => "get_close_scores"
    case SendInit => "init"
  }

  /** The branch `bot_main` takes for `token`: every token maps to exactly one action. */
  function Dispatch(token: string): (a: Action)
    ensures a.SendFallback? <==> token !in KnownTokens
    ensures !a.SendFallback? ==> TokenOf(a) == token
  {
    if token == "get_matchups" then CallGetMatchups
    else if token == "get_scoreboard" then SendScoreboard
    else if token == "get_scoreboard_short" then SendScoreboardShort
    else if token == "get_close_scores" then SendCloseScores
    else if token == "init" then SendInit
    else SendFallback
  }

  /** Each non-fallback action is selected by its own token, so no two tokens share one. */
  lemma DispatchTokenOf(a: Action)
    requires !a.SendFallback?
    ensures Dispatch(TokenOf(a)) == a
  {
  }

  /** Failures `bot_main` can raise. */
  datatype BotError =
    | InvalidBotId                 // the server did not answer 202 Accepted
    | UndefinedName(name: string)  // a call to a function that does not exist

  /** The check after the POST: anything but 202 Accepted is blamed on the bot id. */
  function CheckStatus(status: int): (r: Option<BotError>)
    ensures r.None? <==> status == 202
    ensures r.Some? ==> r.value == InvalidBotId
  {
    if status != 202 then Some(InvalidBotId) else None
  }

  /** What one run of `bot_main` did: the text it posted, if any, and the error it raised, if any. */
  datatype Run = Run(posted: Option<string>, raised: Option<BotError>)

  /** `send_message`: posts `text`, then raises unless the server answered 202. */
  function Send(text: string, status: int): (r: Run)
    ensures r.posted == Some(text)
    ensures r.raised.None? <==> status == 202
  {
    Run(Some(text), CheckStatus(status))
  }

  /**
   * `bot_main(token)` against a board and an optional init message, with
   * `status` the code the chat server answers a post with.
   */
  method BotMain(token: string, board: seq<Matchup>, initMsg: Option<string>, status: int) returns (r: Run)
    ensures token == "get_scoreboard" ==> r.posted == Some(Reports.Message(Reports.ScoreboardLines(board, FullName)))
    ensures token == "get_scoreboard_short" ==> r.posted == Some(Reports.Message(Reports.ScoreboardLines(board, Abbrev)))
    ensures token == "get_close_scores" ==> r.posted == Some(Reports.Message(Reports.CloseLines(board)))
    ensures token !in KnownTokens ==> r.posted == Some(FallbackText)
    ensures token == "init" ==> r.posted == initMsg && r.raised.None?
    ensures token == "get_matchups" ==> r == Run(None, Some(UndefinedName("get_matchups")))
    ensures token != "init" && token != "get_matchups" ==>
      r.posted.Some? && (r.raised.None? <==> status == 202) && (r.raised.Some? ==> r.raised.value == InvalidBotId)
  {
    match Dispatch(token) {
      case CallGetMatchups =>
        r := Run(None, Some(UndefinedName("get_matchups")));
      case SendScoreboard =>
        var text := Reports.GetScoreboard(board);
        r := Send(text, status);
      case SendScoreboardShort =>
        var text := Reports.GetScoreboardShort(board);
        r := Send(text, status);
      case SendCloseScores =>
        var text := Reports.GetCloseScores(board);
        r := Send(text, status);
      case SendInit =>
        // The bare `except` around the init branch swallows a missing message
        // and a refused post alike.
        match initMsg {
          case None =>
            r := Run(None, None);
          case Some(text) =>
            r := Run(Send(text, status).posted, None);
        }
      case SendFallback =>
        r := Send(FallbackText, status);
    }
  }

  /** The token the entry point runs once at startup. */
  const StartupToken: string := "init"

  /** The tokens of the two weekly jobs: close scores on Monday morning, the short scoreboard on Sunday evening. */
  const ScheduledTokens: seq<string> := ["get_close_scores", "get_scoreboard_short"]

  /** Neither startup nor the scheduled jobs can reach the fallback text. */
  lemma ScheduledTokensNeverFallBack()
    ensures Dispatch(StartupToken) == SendInit
    ensures Dispatch(ScheduledTokens[0]) == SendCloseScores
    ensures Dispatch(ScheduledTokens[1]) == SendScoreboardShort
    ensures forall i :: 0 <= i < |ScheduledTokens| ==> ScheduledTokens[i] in KnownTokens
  {
  }
}
