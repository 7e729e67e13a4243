# Reversi client — a Dafny model

This project models the logic of a networked Reversi (Othello) client,
which is written in C++ with GTK, and proves properties of that model.
It covers three parts.

- **The rules engine** (`game.hpp`, class `Game`), in `game.dfy`, module `Reversi`.
  - The class `Game` keeps the 8x8 `char` array and updates it in place, as the engine does.
  - Every method is proved against functions on boards as values. A `Board` is a row-major string of 64 raw characters: `'X'` black, `'O'` white, `'*'` empty.
  - `Legal` is the legality test and `Brackets` is the ray scan. `Run` is the length of an opponent run. `Play` is the board after a move, cell by cell. `LegalMoves` is the row-major list of legal squares. `Count` counts the discs of one colour and `Outcome` gives the result text.
  - Cells hold raw characters. `set_board_state` copies any text of length 64 unchecked, so the model requires nothing of a board beyond its length.
- **The connection** (`network.hpp`, class `NetworkClient`), in `network.dfy`, module `Network`.
  - `Tokens` is what repeated `std::getline` calls yield on a text.
  - `Split` is the `getline` loop itself.
  - `ParseMessage` splits a message into its `:`-separated fields and its command.
  - The socket and connection flags live in the class `NetworkClient`. The outcomes of the socket system calls are method parameters, and every string handed to `send` is recorded in the ghost log `sent`.
  - `is_connected` is the predicate `NetworkClient.IsConnected`.
- **The session handlers** (`gui.cpp`), in `client.dfy`, module `Client`.
  - `PositionToString` writes a square in move notation.
  - `Dispatch` is the effect of one received line on the session value `Session`, and `Receive` is the effect of a whole received chunk.
  - The class `AppData` holds the game, the connection and the session fields: turn, piece, names and history. It implements `check_network_messages`, `on_board_button_clicked` and the state part of `on_connect_clicked`, without the widgets.

Three behaviours of the code that the model keeps as written:

- From the opening position, square (2,3), "d6", is legal for `'O'` and not for `'X'` (`OpeningD6`). The legal moves of `'X'` are exactly (2,4), (3,5), (4,2) and (5,3) (`OpeningMovesForX`).
- A failed `connect_to_server` sets `sock` to -1. It does not clear `connected`, but the client still reports itself as not connected, because `is_connected` also requires a socket.
- `check_direction` passes over any character that is neither `'*'` nor the player while it looks for the closing disc. `flip_direction` turns only exact opponent characters. On boards holding other characters the two can disagree, and the model keeps both behaviours as written.

## Model

| member | source | states |
|---|---|---|
| Reversi.Opponent | game.hpp:23 | The opponent is `'O'` exactly when the player is `'X'`, and `'X'` for any other character; it is never the player itself. |
| Reversi.Game.constructor | game.hpp:72-87 | The board is the opening position (all `'*'`, with `'X'` at (3,3) and (4,4) and `'O'` at (3,4) and (4,3)), `'X'` is to move, and the counts are 2 and 2 and match the board. |
| Reversi.InitialCounts | game.hpp:79-86 | The opening board holds two `'X'` and two `'O'` discs, so the constructor's counts are the board's. |
| Reversi.Game.ScanRay | game.hpp:31-45 | The walk returns true exactly when the ray, from the given cell on and passing over anything that is neither `'*'` nor the player, reaches a player disc before a `'*'` or the edge. |
| Reversi.Game.CheckDirection | game.hpp:22-46 | The result is true exactly when direction `dir` brackets: the neighbour is an opponent disc and the ray beyond it closes on a player disc. |
| Reversi.BracketedRun | game.hpp:22-46 | On a board of `'X'`, `'O'` and `'*'` only, a bracketing direction has an opponent run of length at least 1, followed at once by a player disc. |
| Reversi.RunBrackets | game.hpp:22-46 | The converse, on any board and for any player other than `'*'`: an opponent run of length at least 1 next to the square, followed at once by a player disc, makes the direction qualify. |
| Reversi.BracketsExactly | game.hpp:22-46 | For `'X'` and `'O'` on a board of `'X'`, `'O'` and `'*'`, a direction qualifies if and only if the opponent run next to the square is non-empty and a player disc follows it at once. |
| Reversi.EmptyNeverBrackets | game.hpp:34-39 | Because `'*'` is tested before the player, no direction qualifies for the piece `'*'`, and no square is legal for it. |
| Reversi.Game.FlipDirection | game.hpp:48-58 | The new board is `Flip` of the old one: the maximal run of opponent discs starting next to the square in direction `dir` becomes the player's, and every other cell is unchanged. |
| Reversi.Game.CountPieces | game.hpp:60-69 | Afterwards the two counts equal the number of `'X'` and `'O'` cells, and the player to move is unchanged. |
| Reversi.Game.IsValidMove | game.hpp:89-101 | The result is true exactly when the square is on the board, holds `'*'` and some direction 0..7 brackets (`Legal`). |
| Reversi.Game.MakeMove | game.hpp:103-119 | The result is whether the move was legal on the old board. An illegal move changes neither board, counts nor player. A legal move leaves the board `Play(old, row, col, player)`, passes the turn to the opponent and keeps the counts equal to the board's. |
| Reversi.PlayedKeepsRay | game.hpp:110-113 | Turning the runs of the directions before `d` leaves every cell of ray `d` unchanged, so the scan of `d` inside the loop sees the original board. |
| Reversi.PlayStep | game.hpp:110-113 | One pass of the direction loop: flipping a bracketing direction, or skipping a direction that does not bracket, extends the move by that direction. |
| Reversi.PlayConfined | game.hpp:108-114 | A move changes no cell except its own square and cells that lie on a bracketing ray, held an opponent disc and now hold the player's. |
| Reversi.PlayFlipsRun | game.hpp:110-113 | In every bracketing direction each cell of the opponent run next to the square becomes the player's. |
| Reversi.LegalMoveFlips | game.hpp:103-114 | A legal move turns at least one opponent disc. |
| Reversi.ParseMove | game.hpp:121-128 | Success holds exactly for a two-character text with a letter `a`..`h` then a digit `1`..`8`, and the decoded square is then on the board. A text of another length keeps the previous row and column; otherwise column = letter - `'a'` and row = 8 - (digit - `'0'`). |
| Reversi.Game.GetValidMoves | game.hpp:130-140 | The list equals `LegalMoves` of the board. |
| Reversi.LegalMovesExact | game.hpp:130-140 | A square is in `LegalMoves` exactly when the move is legal, and the list is strictly increasing in row-major order, so it has no duplicates. |
| Reversi.Game.HasValidMoves | game.hpp:142-144 | The result is true exactly when the player has a legal move. |
| Reversi.NoLegalMoves | game.hpp:142-144 | The list of legal moves is empty exactly when the player has no legal move. |
| Reversi.Game.IsGameOver | game.hpp:146-148 | The result is true exactly when neither `'X'` nor `'O'` has a legal move. |
| Reversi.OpeningNotOver | game.hpp:146-148 | In the opening position both players have legal moves, so the game is not over. |
| Reversi.Game.GetBoardState | game.hpp:150-158 | The text has 64 characters, character 8i+j is cell (i, j), and it equals the board value. |
| Reversi.Game.SetBoardState | game.hpp:160-170 | A text whose length is not 64 changes nothing. A 64-character text becomes the board, so a later `GetBoardState` returns it. Either way the counts match the board and the player to move is kept. |
| Reversi.Game.GetPiece | game.hpp:172-175 | Off the board the result is `'*'`; on it, the cell. |
| Reversi.Outcome | game.hpp:184-190 | `"X wins!"` exactly when black is ahead, `"O wins!"` exactly when white is ahead, `"Draw!"` exactly when they are equal. |
| Reversi.Game.GetResult | game.hpp:182-191 | The counts are recomputed from the board, and the result is `Outcome` of the numbers of `'X'` and `'O'` cells. |
| Reversi.OpeningMovesForX | game.hpp:79-82 | From the opening, `'X'` may play exactly at (2,4), (3,5), (4,2) and (5,3). |
| Reversi.OpeningD6 | game.hpp:79-82 | From the opening, (2,3) is legal for `'O'` and not for `'X'`. |
| Network.IndexOf | network.hpp:28 | The index of the first delimiter, or the length when there is none; no earlier character is the delimiter. |
| Network.GetLine | network.hpp:28 | One `getline` read: the token is the first token of the remaining text, and the position moves past it and its delimiter. |
| Network.Split | network.hpp:24-32 | The loop returns exactly `Tokens` of the text. |
| Network.TokensFree | network.hpp:24-32 | No token contains the delimiter. |
| Network.JoinTokens | network.hpp:24-32 | Joining the tokens with the delimiter gives the text back, except for one final delimiter, which is dropped. |
| Network.TokensJoin | network.hpp:24-32 | Delimiter-free tokens whose last one is not empty are recovered exactly by joining and splitting. |
| Network.TokensExamples | network.hpp:24-32 | `"a::b"` splits into `"a"`, `""` and `"b"`; `""` into nothing; `"a:"` into `"a"` alone. |
| Network.CommandPrefix | network.hpp:137-141 | The command is the text of the message before its first `':'`. |
| Network.NetworkClient.ParseMessage | network.hpp:137-141 | The fields are `Tokens` of the message on `':'`; the command is the first field, or `""` when there is none, i.e. the text before the first `':'`. |
| Network.NetworkClient.constructor | network.hpp:35-39 | No socket (-1), not connected, piece `' '`, nothing sent. |
| Network.NetworkClient.ConnectToServer | network.hpp:45-84 | The result is true exactly when `socket`, `inet_pton` and `connect` all succeed. Success keeps the descriptor, sets the connected flag and sends the player's name. Any failure leaves no socket (-1) and the client not connected, and sends nothing. The name is recorded either way. |
| Network.NetworkClient.IsConnected | network.hpp:94-96 | The client counts as connected only while the flag is set, and never without a socket, so a failed connect that leaves the flag set still reads as not connected. |
| Network.NetworkClient.Disconnect | network.hpp:86-92 | No socket and not connected, whatever the state before; on a client already disconnected it changes nothing, so a second call has no further effect. |
| Network.NetworkClient.SendMove | network.hpp:98-102 | The move is appended to the sent log exactly when the client is connected. |
| Network.Delivered | network.hpp:130-131 | The kept text is the prefix of the bytes read that ends at the first NUL: it holds no NUL, the byte after it (if any) is NUL, and it is all of the bytes when they hold no NUL. |
| Network.Received | network.hpp:104-134 | Nothing is returned unless the client is connected and bytes arrived; then the text is `Delivered` of the bytes, the prefix that stops at the first NUL. |
| Network.NetworkClient.ReceiveMessage | network.hpp:104-134 | The result is `Received`. When not connected nothing changes. Would-block keeps the connection. An error or a zero-length read clears the connected flag. Data keeps the connection. |
| Client.PositionToString | gui.cpp:37-43 | Two characters, the column letter and then the row digit; for a square on the board, a letter `a`..`h` and a digit `1`..`8`. |
| Client.PositionRoundTrip | gui.cpp:37-43 | Parsing the notation of any board square gives back that square. |
| Client.NotationRoundTrip | game.hpp:121-128 | Writing out the square of any text that parses gives back the text. |
| Client.FirstChar | gui.cpp:152 | The first character of the field, or NUL when it is empty. |
| Client.Loaded | gui.cpp:162 | The session board after `set_board_state`: the text when it has 64 characters, otherwise the old board. |
| Client.DispatchIgnores | gui.cpp:147-211 | A line whose command is unknown, or is `WAIT`, `INVALID` or `OPPONENT_DISCONNECT`, or that has too few fields for its command, leaves the session unchanged. |
| Client.StartMessage | gui.cpp:150-160 | `START:name:piece` sets the opponent's name and this player's piece to the first character of the third field, and touches neither board, turn nor history. |
| Client.TurnMessage | gui.cpp:161-176 | `YOUR_TURN:b` and `OPPONENT_TURN:b` set the turn to true and false. The board becomes `b` when it has 64 characters and is otherwise kept, so a board of the wrong length changes only the turn. |
| Client.MoveOkMessage | gui.cpp:177-184 | `MOVE_OK:m` appends `name + ": " + m` to the history and ends the turn, leaving the board. |
| Client.MoveOkEmpty | gui.cpp:177 | `MOVE_OK:` with nothing after the colon has one field only, so it is ignored. |
| Client.EndMessage | gui.cpp:193-211 | `END:result:b` loads `b` when it has 64 characters and changes nothing else. |
| Client.StripCR | gui.cpp:140-142 | At most one final `'\r'` is removed, and it is removed when present. |
| Client.ReceiveLine | gui.cpp:136-145 | A chunk without a newline is one line: an empty chunk does nothing, and any other is dispatched once without its final `'\r'`. |
| Client.ReceiveConcat | gui.cpp:136-211 | Two chunks joined by a newline act as the first followed by the second. Lines are dispatched strictly in order, and nothing but the session carries from line to line. |
| Client.Clicked | gui.cpp:218-231 | The click sends at most one string. It sends one exactly when it is this player's turn and the move is legal for their piece, and that string parses back to the clicked square. |
| Client.AppData.constructor | gui.cpp:484-487 | A fresh game in the opening position and a fresh, unconnected connection. It is not this player's turn, the piece is `' '`, the names and history are empty, and nothing has been sent. |
| Client.AppData.OnConnectClicked | gui.cpp:233-257 | With an empty host, port or name nothing changes. Otherwise the name is kept, and the client is connected exactly when the three socket calls succeed, having then sent the name. |
| Client.AppData.DispatchLine | gui.cpp:147-211 | The session afterwards is `Dispatch` of the session before and the line. The socket, the connected flag and the sent log are unchanged, and the game's counts still match its board. |
| Client.AppData.DispatchLines | gui.cpp:136-212 | The session afterwards is the session before with every prepared line dispatched in order: empty lines are skipped and one final `'\r'` is dropped. |
| Client.AppData.CheckNetworkMessages | gui.cpp:122-215 | The session afterwards is `Receive` of the session before and the received text, which is empty unless the client was connected and data arrived. The connection flags follow `ReceiveMessage`. |
| Client.AppData.OnBoardButtonClicked | gui.cpp:218-231 | The sent log grows by `Clicked`, the square's notation when it is this player's turn and the move is legal for their piece, and only while connected; otherwise nothing is sent. |

## Left out

- GTK: the widgets, `create_ui`, the CSS, `update_board`, `update_info`, `enable_board`, the status label texts, the modal dialog of `END` and the history view's scrolling. The history is kept as a sequence of strings.
- The socket system calls (`socket`, `inet_pton`, `connect`, `send`, `recv`, `close`) and the console logging. Their outcomes are method parameters, and `send` is recorded in a ghost log.
- The 100 ms polling timer started by `on_connect_clicked` and `on_window_destroy`, which are scheduling and lifecycle. `OnConnectClicked` keeps only the field check, the name and the connection attempt.
- The conversion of the port field with `atoi`. The port value is a parameter.
- The accessors `get_current_player`, `set_current_player`, `get_black_count`, `get_white_count`, `get_player_name`, `get_opponent_name`, `set_opponent_name`, `get_my_piece`, `set_my_piece` and `get_socket`. They read or write one field; the model reads and writes the fields directly.
- Reversi.ParseMove: the subtractions are on C++ `char`. Where `char` is signed, a byte of 0x80 or more reads as a negative value, so the column or row computed from it differs from the model's, which works on unsigned character codes (a letter byte of 0x80 or more gives a column of 31 or more there). Only the row and column left behind on the failure path differ; the result is false either way.
- Client.PositionToString: the C++ `char` arithmetic is modelled on its low eight bits. Whether `char` is signed is not modelled; only on-board squares are written out by the client.
- Network.NetworkClient.ConnectToServer: `fd` is taken to be a descriptor or -1, as `socket` returns. The earlier socket of a client that reconnects is not closed by the code, and that leak is not modelled.
- Network.NetworkClient.ReceiveMessage: the bytes are modelled as characters, and the received text as at most 1023 of them, as the buffer allows.
