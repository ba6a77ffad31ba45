# Rock-paper-scissors game server, modelled in Dafny

This project models `RockPaperScissorsGame/server.c`. That program is a single-process WebSocket game server. It keeps a registry of connected client handles. On every connect and close it tells all registered clients how many are connected. It answers each text message, which holds a choice (0 rock, 1 paper, 2 scissors), with the result of a round against a random draw of the server's own. Over plain HTTP it serves files from `./static`, with a MIME type chosen from the file name.

Modules, one per part of the server:

- `CText` (`cstring.dfy`): the C library behaviour the server depends on:
  - `Truncate`: `snprintf` into a 256-byte buffer keeps at most 255 characters;
  - `NatToString` and `IntToString`: `%d` renders an integer in decimal;
  - `Atoi`: `atoi` skips white space (`SkipSpace`), reads an optional sign, then decimal digits (`DigitPrefix`), and gives 0 when no digit follows;
  - `Contains`: `strstr`, the search for a substring, with `Occurs` as its independent statement.
- `Round` (`round.dfy`):
  - `Resolve`: the outcome rule of the RECEIVE case, the nested conditional expression of `callback_game`;
  - `Label`: the three result texts;
  - `ResultMessage`: the reply "Result: %s (You: %d, Server: %d)";
  - `CountMessage`: the broadcast "Connected clients: %d", built on the constants `CountLabel` and `CountPrefix`.
- `ClientList` (`clients.dfy`): the registry's contents as a sequence. `FirstIndex` and `RemoveFirst` say what the first-match search with swap-with-last removal does to that sequence, and `Deliveries` says which sends a broadcast makes.
- `GameServer` (`server.dfy`): the class `Server<H>`. It holds the array `client_wsi_list` (`clientList`), the count `connected_clients` (`connectedClients`) and the capacity `max_clients` (`maxClients`). Its methods are:
  - `AddClient`, `RemoveClient` and `Broadcast`, which model `add_client_wsi`, `remove_client_wsi` and `broadcast_message` and update the array in place;
  - `OnEstablished`, `OnReceive` and `OnClosed`, the ESTABLISHED, RECEIVE and CLOSED cases of `callback_game`, and `Callback`, the dispatch between them.

  A handle `H` stands for the server's `struct lws*`. It is an opaque value compared by identity. Every `lws_write` is recorded in the field `outbox` as a (handle, text) pair, in the order of the writes. The methods `ConnectTwo`, `PlayAndLeave` and `TwoPlayerSession` run one two-client session on a fresh server.
- `Http` (`http.dfy`): `callback_http`. `RequestedFile` rewrites "/" to "/index.html", `MimeType` picks the type from the name, and `HandleHttp` builds the file path and pairs it with the type.

The server's random draw `rand() % 3` is a parameter of `OnReceive` and `Callback`, required to be 0, 1 or 2.

Two behaviours of the code worth knowing:

- Choices outside {0, 1, 2} are kept as they are: `atoi` returns 3 for "3" and -1 for "-1". `Round.InvalidChoiceLoses` shows that such a value loses against every draw.
- `add_client_wsi` does not reject a handle that is already registered. `ClientList.RemoveKeepsNoDuplicates` shows that removal keeps a duplicate-free registry duplicate-free.

## Model

| member | source | states |
|---|---|---|
| CText.Truncate | RockPaperScissorsGame/server.c:68 | `snprintf(buf, BUFFER_SIZE, ...)` keeps a prefix of the rendered text of at most 255 characters. The text is unchanged when it fits, and exactly 255 characters when it does not. |
| CText.NatToString | RockPaperScissorsGame/server.c:54 | `%d` of a non-negative value is a non-empty string of decimal digits with no leading zero. |
| CText.NatToStringValue | RockPaperScissorsGame/server.c:54 | The digits `%d` writes have exactly the value printed. |
| CText.NatToStringLength | RockPaperScissorsGame/server.c:68 | A value below 10^k is printed in at most k digits. |
| CText.IntToStringLength | RockPaperScissorsGame/server.c:68 | `%d` of any 32-bit `int` takes between 1 and 11 characters. |
| CText.SkipSpace | RockPaperScissorsGame/server.c:59 | `atoi` skips leading white space only. What remains is a suffix of the input that does not start with white space, and everything skipped is white space. |
| CText.DigitPrefix | RockPaperScissorsGame/server.c:59 | `atoi` reads the longest run of decimal digits at the front of the input. |
| CText.AtoiUnsigned | RockPaperScissorsGame/server.c:59 | A payload that starts with a digit is read as the value of its leading digit run. |
| CText.AtoiMinus | RockPaperScissorsGame/server.c:59 | A payload that starts with '-' is read as the negated value of the digit run after the sign. |
| CText.AtoiIntToString | RockPaperScissorsGame/server.c:59 | `atoi` reads back any integer `%d` wrote, whatever follows it, as long as what follows does not start with a digit. |
| CText.AtoiNoDigits | RockPaperScissorsGame/server.c:59 | A payload with no digit after the white space and the optional sign reads as 0. |
| CText.ContainsOccurs | RockPaperScissorsGame/server.c:106-111 | The `strstr` search succeeds if and only if the pattern occurs somewhere in the string. |
| CText.OccursShift | RockPaperScissorsGame/server.c:106-111 | When the pattern is not at the front of the string, it occurs in the string if and only if it occurs after the first character. |
| Round.ResolveIsCyclicRule | RockPaperScissorsGame/server.c:62-66 | On valid choices the outcome is Tie iff the choices are equal. It is Win iff the client beats the server under the cyclic rule (0 beats 2, 1 beats 0, 2 beats 1), and Lose iff the server beats the client. |
| Round.WinLoseSwap | RockPaperScissorsGame/server.c:62-66 | For two different valid choices, swapping the players turns Win into Lose and Lose into Win. |
| Round.OneWinOneLoss | RockPaperScissorsGame/server.c:62-66 | Against the two other valid choices, each valid choice loses to exactly one and beats exactly one. |
| Round.InvalidChoiceLoses | RockPaperScissorsGame/server.c:59-66 | A client value outside {0, 1, 2}, such as "3" read by `atoi`, loses against every valid draw. |
| Round.ResultMessageExact | RockPaperScissorsGame/server.c:68 | For a 32-bit client value and a valid draw, the reply is exactly "Result: " + label + " (You: " + client + ", Server: " + server + ")", not truncated. The label is one of the three outcome texts. |
| Round.CountMessageRoundTrip | RockPaperScissorsGame/server.c:54 | For any 32-bit count the broadcast is exactly "Connected clients: " + N, not truncated, and `atoi` of the text after the prefix gives N back. |
| Round.MessagesDistinguishable | RockPaperScissorsGame/server.c:54-68 | Every count message starts with "Connected clients:" and no result message does. That prefix is how the browser client tells them apart. |
| Round.RockPayload | RockPaperScissorsGame/server.c:59 | The payload "0" is read as rock (0). |
| Round.RockAgainstScissorsReply | RockPaperScissorsGame/server.c:62-68 | Rock against the server's scissors gives the reply "Result: You win! (You: 0, Server: 2)". |
| ClientList.FirstIndex | RockPaperScissorsGame/server.c:24-25 | The removal search stops at the first slot holding the handle. It stops at the count when no slot holds it. |
| ClientList.RemoveFirst | RockPaperScissorsGame/server.c:23-31 | If the handle is absent, the registry is unchanged. If it is present, the registry has one entry fewer, its first slot now holds the old last entry, and every other remaining slot is unchanged. |
| ClientList.SwapWithLastMultiset | RockPaperScissorsGame/server.c:26-27 | Overwriting a slot with the last entry and dropping the last slot loses one occurrence of the overwritten entry and nothing else. |
| ClientList.RemoveMultiset | RockPaperScissorsGame/server.c:23-31 | As a multiset, removal takes away exactly one occurrence of the handle when there is one, and nothing else. |
| ClientList.RemoveKeepsNoDuplicates | RockPaperScissorsGame/server.c:23-31 | Removing from a registry without duplicates keeps it without duplicates and removes the handle completely. |
| ClientList.Deliveries | RockPaperScissorsGame/server.c:33-40 | A broadcast makes one send per registered slot, in slot order. Send i goes to the handle in slot i and carries the message. |
| ClientList.DeliveryCount | RockPaperScissorsGame/server.c:33-40 | Each handle receives the broadcast message exactly as many times as it is registered, and receives no other text. |
| GameServer.Server.constructor | RockPaperScissorsGame/server.c:11-13 | The initial state set up by `main`: no clients, capacity 10, nothing sent. |
| GameServer.Server.AddClient | RockPaperScissorsGame/server.c:15-21 | The handle goes into slot old-count and the count rises by one; earlier entries are unchanged. The capacity doubles, into a fresh array, exactly when the array was full. `count <= capacity` is preserved. Nothing is sent. |
| GameServer.Server.RemoveClient | RockPaperScissorsGame/server.c:23-31 | The registry becomes `RemoveFirst` of the old one, so the count drops by one exactly when the handle was registered. For an absent handle the count and the whole array are unchanged. Only the count and the array may change. |
| GameServer.Server.Broadcast | RockPaperScissorsGame/server.c:33-40 | The outbox grows by exactly the deliveries to the registered handles, in slot order. Only the outbox may change. |
| GameServer.Server.OnEstablished | RockPaperScissorsGame/server.c:50-56 | The handle is added first. Then every registered handle, the new one included, is sent "Connected clients: N" with N the new count, and nothing else is sent. |
| GameServer.Server.OnReceive | RockPaperScissorsGame/server.c:58-73 | Exactly one send is made, to the sender. It carries the result message for `atoi` of the payload against the draw. The registry is not changed. |
| GameServer.Server.OnClosed | RockPaperScissorsGame/server.c:75-81 | The handle is removed first, if registered. Then only the remaining handles are sent "Connected clients: N" with N the new count. |
| GameServer.Server.Callback | RockPaperScissorsGame/server.c:43-88 | `callback_game` dispatches on the reason, as the three cases above do, and always returns 0. Only ESTABLISHED can change the capacity or replace the array, and it doubles the capacity exactly when the array was full. RECEIVE and CLOSED keep the same array object, though CLOSED may overwrite one of its slots. A reason other than ESTABLISHED, RECEIVE and CLOSED leaves the state and the array untouched and sends nothing. |
| GameServer.ConnectTwo | RockPaperScissorsGame/server.c:50-56 | On a fresh server, a connects and then b connects. The registry is [a, b]. The sends are the count 1 to a, then the count 2 to a and to b. |
| GameServer.PlayAndLeave | RockPaperScissorsGame/server.c:58-81 | With [a, b] registered, a sends "0" against the draw 2 and then b closes. The registry becomes [a]. The sends are the result of rock against scissors to a, then the count 1 to a. |
| GameServer.TwoPlayerSession | RockPaperScissorsGame/server.c:43-88 | The whole two-client session on a fresh server. It ends with [a] registered and exactly five sends, in order: count 1 to a, count 2 to a, count 2 to b, the result to a, count 1 to a. |
| Http.RequestedFileRewritesRootOnly | RockPaperScissorsGame/server.c:97-99 | The path "/" becomes "/index.html". Every other path is kept as it is. |
| Http.FilePathShape | RockPaperScissorsGame/server.c:101-102 | The file path is a prefix of "./static" + the rewritten path (the path with "/" replaced by "/index.html") of at most 255 characters. It is exactly "./static" + the rewritten path when the rewritten path has at most 247 characters. |
| Http.MimeTypeChoice | RockPaperScissorsGame/server.c:104-111 | The type is text/css iff ".css" occurs in the path. It is application/javascript iff ".css" does not occur and ".js" does. Otherwise it is text/html. |
| Http.JsonServedAsJavascript | RockPaperScissorsGame/server.c:109-111 | A path containing ".json" and not ".css" is served as application/javascript. |
| Http.RootServesIndex | RockPaperScissorsGame/server.c:97-111 | A request for "/" serves "./static/index.html" as text/html. |

## Left out

- libwebsockets I/O is not called. This covers `lws_write`, `lws_serve_http_file`, `lws_create_context`, `lws_service` and `lws_context_destroy`. Writes are recorded in `outbox`. `HandleHttp` returns the file path and MIME type it would hand to the file server. The -1 that `callback_http` returns when serving fails is not modelled.
- Send failures are not modelled: the server ignores the result of `lws_write`, so every send is recorded as made.
- The `LWS_PRE` offset in the send buffers is transport detail and is not modelled.
- `rand()` and `srand(time(NULL))` are not modelled; the draw is a parameter in 0..2.
- Failures of `malloc` and `realloc` are not modelled. Growth is modelled as a fresh array of twice the size with the old entries copied into it.
- `printf` and `fprintf` logging is not modelled.
- The `main` service loop and the protocol table are not modelled. Each event is a separate method call. The source has no concurrency.
- CText.Atoi: does not model overflow. For a digit string whose value does not fit in an `int`, `atoi` has undefined behaviour in C. The model returns the exact value.
- The payload is a Dafny string. The raw buffer and its length `len`, which may not be NUL-terminated, are not modelled.
- A Dafny string stands for the bytes of a C string before its NUL. Each char is one byte, below 256, and never '\0'. The model does not enforce this. So `strlen(requested_file) == 1` is modelled as a length test.
- CText.Truncate: counts characters, where `snprintf` counts bytes. For a request path with characters of 256 and above, `Http.HandleHttp` can keep more than 255 bytes where the C code keeps exactly 255.
- CText.Contains: does not stop at a '\0' in either string, where `strstr` would. `Http.MimeType` inherits this.
- GameServer.Server.Broadcast: requires a message shorter than 256 characters. The C code copies `strlen(message)` bytes into a 256-byte buffer. All callers pass the output of `snprintf` into such a buffer.
- `connected_clients` and `max_clients` are unbounded naturals. Overflow of `max_clients *= 2` would need more than 2^30 clients.
- The static `message` buffer that `callback_game` reuses across calls is not modelled. It is fully rewritten before each use.
- `static/client.js` is browser UI and is not modelled. Only the prefix it tests, "Connected clients:", appears, as `Round.CountLabel` in `Round.MessagesDistinguishable`.
