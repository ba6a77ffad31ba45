/** One round of the game: the client's choice against the server's draw, the
    outcome rule of `callback_game`, and the two messages the server renders. */
module Round {
  import opened CText

  /** Rock (0), paper (1) or scissors (2) at the wire boundary. */
  predicate IsChoice(x: int) {
    0 <= x < 3
  }

  datatype Outcome = Tie | Win | Lose

  /** The nested conditional of `callback_game`, seen from the client. */
  function Resolve(client: int, server: int): Outcome {
    if client == server then Tie
    else if (client == 0 && server == 2) || (client == 1 && server == 0) || (client == 2 && server == 1) then Win
    else Lose
  }

  /** The usual cyclic rule: each choice beats the one just before it. */
  predicate Beats(a: int, b: int) {
    IsChoice(a) && IsChoice(b) && a == (b + 1) % 3
  }

  /** On the three valid choices the server's table is the cyclic rule. */
  lemma ResolveIsCyclicRule(client: int, server: int)
    requires IsChoice(client) && IsChoice(server)
    ensures Resolve(client, server) == Tie <==> client == server
    ensures Resolve(client, server) == Win <==> Beats(client, server)
    ensures Resolve(client, server) == Lose <==> Beats(server, client)
  {
  }

  /** Swapping the players turns a win into a loss and back. */
  lemma WinLoseSwap(c: int, s: int)
    requires IsChoice(c) && IsChoice(s) && c != s
    ensures Resolve(c, s) == Win <==> Resolve(s, c) == Lose
    ensures Resolve(c, s) == Lose <==> Resolve(s, c) == Win
  {
  }

  /** Against the two other choices, a valid choice wins once and loses once. */
  lemma OneWinOneLoss(c: int)
    requires IsChoice(c)
    ensures Resolve(c, (c + 1) % 3) == Lose
    ensures Resolve(c, (c + 2) % 3) == Win
  {
  }

  /** A client value outside {0, 1, 2} always loses against a real draw. */
  lemma InvalidChoiceLoses(client: int, server: int)
    requires !IsChoice(client) && IsChoice(server)
    ensures Resolve(client, server) == Lose
  {
  }

  function Label(o: Outcome): string {
    match o
    case Tie => "It's a tie!"
    case Win => "You win!"
    case Lose => "You lose!"
  }

  /** The reply to one RECEIVE: "Result: %s (You: %d, Server: %d)" in the message buffer. */
  function ResultMessage(client: int, server: int): string {
    Truncate("Result: " + Label(Resolve(client, server)) + " (You: " + IntToString(client)
             + ", Server: " + IntToString(server) + ")")
  }

  /** The text the browser client looks for to recognise a count message. */
  const CountLabel: string := "Connected clients:"

  /** What the count message puts before the number. */
  const CountPrefix: string := CountLabel + " "

  /** The broadcast after a connect or a close: "Connected clients: %d" in the message buffer. */
  function CountMessage(n: int): string {
    Truncate(CountPrefix + IntToString(n))
  }

  /** For a 32-bit client value the reply is never cut short, and it names the
      outcome and both choices. */
  lemma ResultMessageExact(client: int, server: int)
    requires IsInt32(client) && IsChoice(server)
    ensures ResultMessage(client, server)
         == "Result: " + Label(Resolve(client, server)) + " (You: " + IntToString(client)
            + ", Server: " + IntToString(server) + ")"
    ensures Label(Resolve(client, server)) in {"It's a tie!", "You win!", "You lose!"}
  {
    IntToStringLength(client);
    IntToStringLength(server);
  }

  /** The count broadcast is never cut short, and the count reads back from it. */
  lemma CountMessageRoundTrip(n: nat)
    requires IsInt32(n)
    ensures CountMessage(n) == CountPrefix + NatToString(n)
    ensures Atoi(CountMessage(n)[|CountPrefix|..]) == n
  {
    IntToStringLength(n);
    assert CountMessage(n)[|CountPrefix|..] == NatToString(n) + [];
    AtoiIntToString(n, []);
  }

  /** The browser client tells the two messages apart by the prefix
      "Connected clients:": every count message has it and no result message does. */
  lemma MessagesDistinguishable(n: int, client: int, server: int)
    ensures CountLabel <= CountMessage(n)
    ensures !(CountLabel <= ResultMessage(client, server))
  {
    var r := ResultMessage(client, server);
    assert r[0] == 'R';
  }

  /** The payload "0" (rock) is read as 0. */
  lemma RockPayload()
    ensures Atoi("0") == 0
  {
    AtoiUnsigned("0");
    assert DigitPrefix("0") == "0";
  }

  /** Rock against the server's scissors: the exact reply. */
  lemma RockAgainstScissorsReply()
    ensures ResultMessage(0, 2) == "Result: You win! (You: 0, Server: 2)"
  {
    assert IntToString(0) == "0" && IntToString(2) == "2";
    assert Resolve(0, 2) == Win;
  }
}
